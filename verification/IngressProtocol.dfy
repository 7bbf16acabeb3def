/** Ingress operations interleaved statement by statement, with the log of what the database
    did. Every write holds `ingress_lock`; listings do not, so a claim may name any ids. The
    process may die between statements. */
module IngressProtocol {
  import opened Options
  import opened OrderedQuery
  import opened IngressInbox

  /** What one executed statement changed. */
  datatype Event =
    | EEnqueue(id: Id)
    | EClaim(ids: set<Id>, at: int)
    | ERequeue(ids: set<Id>, cutoff: int)
    | EDeliver(ids: set<Id>)

  predicate Touches(e: Event, id: Id) {
    match e
    case EEnqueue(x) => x == id
    case EClaim(ids, _) => id in ids
    case ERequeue(ids, _) => id in ids
    case EDeliver(ids) => id in ids
  }

  predicate IsClaim(e: Event, id: Id) { e.EClaim? && id in e.ids }
  predicate IsRequeue(e: Event, id: Id) { e.ERequeue? && id in e.ids }
  predicate IsDeliver(e: Event, id: Id) { e.EDeliver? && id in e.ids }

  datatype Pc =
    | Idle
    | Enqueue(item: Item)
    | EnqueueCreate(item: Item)
    | RequeueStale(cutoff: int)
    | MarkEmitted(ids: set<Id>, at: int)
    | MarkDelivered(ids: set<Id>, at: int)

  datatype Inbox = Inbox(table: Table, holder: Option<nat>, threads: map<nat, Pc>, log: seq<Event>)

  ghost predicate OpStep(s: Inbox, t: nat, pc: Pc, s': Inbox, pc': Pc) {
    match pc
    case Idle =>
      !pc'.Idle? && !pc'.EnqueueCreate? && s'.table == s.table && s'.holder == s.holder && s'.log == s.log
    case Enqueue(item) =>
      && s.holder == None && s'.table == s.table && s'.log == s.log
      && (|| (pc' == Idle && s'.holder == None)
          || (pc' == EnqueueCreate(item) && s'.holder == Some(t) && item.id !in s.table))
    case EnqueueCreate(item) =>
      && pc' == Idle && s'.holder == None
      && (|| (s'.table == s.table && s'.log == s.log)
          || (s'.table == Create(s.table, item, item.enqueuedAt) && s'.log == s.log + [EEnqueue(item.id)]))
    case RequeueStale(cutoff) =>
      && s.holder == None && s'.holder == None && pc' == Idle
      && (|| (s'.table == s.table && s'.log == s.log)
          || (s'.table == Requeue(s.table, cutoff) && s'.log == s.log + [ERequeue(Requeued(s.table, cutoff), cutoff)]))
    case MarkEmitted(ids, at) =>
      && s.holder == None && s'.holder == None && pc' == Idle
      && (|| (s'.table == s.table && s'.log == s.log)
          || (s'.table == Claim(s.table, ids, at) && s'.log == s.log + [EClaim(Claimed(s.table, ids), at)]))
    case MarkDelivered(ids, at) =>
      && s.holder == None && s'.holder == None && pc' == Idle
      && (|| (s'.table == s.table && s'.log == s.log)
          || (s'.table == Deliver(s.table, ids, at) && s'.log == s.log + [EDeliver(NewlyDelivered(s.table, ids))]))
  }

  function PcOf(s: Inbox, t: nat): Pc {
    if t in s.threads then s.threads[t] else Idle
  }

  ghost predicate OpNext(s: Inbox, t: nat, s': Inbox) {
    && t in s'.threads && s'.threads == s.threads[t := s'.threads[t]]
    && OpStep(s, t, PcOf(s, t), s', s'.threads[t])
  }

  ghost predicate Next(s: Inbox, s': Inbox) {
    s' == Inbox(s.table, None, map[], s.log) || exists t :: OpNext(s, t, s')
  }

  function Count(log: seq<Event>, p: Event -> bool): nat {
    if log == [] then 0 else Count(log[..|log| - 1], p) + if p(log[|log| - 1]) then 1 else 0
  }

  function Claims(log: seq<Event>, id: Id): nat { Count(log, e => IsClaim(e, id)) }
  function Requeues(log: seq<Event>, id: Id): nat { Count(log, e => IsRequeue(e, id)) }

  lemma CountAppend(log: seq<Event>, e: Event, id: Id)
    ensures Claims(log + [e], id) == Claims(log, id) + if IsClaim(e, id) then 1 else 0
    ensures Requeues(log + [e], id) == Requeues(log, id) + if IsRequeue(e, id) then 1 else 0
  {
    assert (log + [e])[..|log|] == log;
  }

  /** The claim at position `i` was taken back by a later requeue whose cutoff had passed it. */
  ghost predicate TakenBack(log: seq<Event>, i: nat, id: Id)
    requires i < |log| && log[i].EClaim?
  {
    exists k :: i < k < |log| && IsRequeue(log[k], id) && log[k].cutoff >= log[i].at
  }

  ghost predicate ClaimsSeparated(log: seq<Event>, id: Id) {
    forall i, j :: 0 <= i < j < |log| && IsClaim(log[i], id) && IsClaim(log[j], id) ==>
      exists k :: i < k < j && IsRequeue(log[k], id) && log[k].cutoff >= log[i].at
  }

  /** Nothing happens to an id once it was delivered. */
  ghost predicate DeliveryEnds(log: seq<Event>, id: Id) {
    forall i, j :: 0 <= i < j < |log| && IsDeliver(log[i], id) ==> !Touches(log[j], id)
  }

  ghost predicate NeverDelivered(log: seq<Event>, id: Id) {
    forall i :: 0 <= i < |log| ==> !IsDeliver(log[i], id)
  }

  ghost predicate Untouched(log: seq<Event>, id: Id) {
    forall i :: 0 <= i < |log| ==> !Touches(log[i], id)
  }

  /** Every claim of `id` was taken back, except possibly one made at `open`. */
  ghost predicate AllTakenBack(log: seq<Event>, id: Id, open: Option<int>) {
    forall i :: 0 <= i < |log| && IsClaim(log[i], id) ==> TakenBack(log, i, id) || open == Some(log[i].at)
  }

  /** How the log of one id and its row belong together. */
  ghost predicate Tied(t: Table, log: seq<Event>, id: Id) {
    && ClaimsSeparated(log, id) && DeliveryEnds(log, id)
    && if id !in t then Untouched(log, id) && Claims(log, id) == 0 && Requeues(log, id) == 0
       else match t[id].status
         case Pending =>
           t[id].emittedAt == None && Claims(log, id) == Requeues(log, id)
           && NeverDelivered(log, id) && AllTakenBack(log, id, None)
         case Emitted =>
           t[id].emittedAt.Some? && Claims(log, id) == Requeues(log, id) + 1
           && NeverDelivered(log, id) && AllTakenBack(log, id, t[id].emittedAt)
         case Delivered =>
           Requeues(log, id) <= Claims(log, id) <= Requeues(log, id) + 1
  }

  /** An event that leaves `id` alone keeps everything said about it. */
  lemma AppendOther(log: seq<Event>, e: Event, id: Id)
    requires !Touches(e, id)
    ensures ClaimsSeparated(log, id) ==> ClaimsSeparated(log + [e], id)
    ensures DeliveryEnds(log, id) ==> DeliveryEnds(log + [e], id)
    ensures NeverDelivered(log, id) ==> NeverDelivered(log + [e], id)
    ensures Untouched(log, id) ==> Untouched(log + [e], id)
    ensures forall open :: AllTakenBack(log, id, open) ==> AllTakenBack(log + [e], id, open)
  {
    var log' := log + [e];
    SeparatedGrows(log, e, id);
    forall open | AllTakenBack(log, id, open) ensures AllTakenBack(log', id, open) {
      forall i | 0 <= i < |log'| && IsClaim(log'[i], id) ensures TakenBack(log', i, id) || open == Some(log'[i].at) {
        TakenBackGrows(log, e, i, id);
      }
    }
  }

  lemma TakenBackGrows(log: seq<Event>, e: Event, i: nat, id: Id)
    requires i < |log| && IsClaim(log[i], id)
    ensures TakenBack(log, i, id) ==> TakenBack(log + [e], i, id)
  {
    if TakenBack(log, i, id) {
      var k :| i < k < |log| && IsRequeue(log[k], id) && log[k].cutoff >= log[i].at;
      assert (log + [e])[k] == log[k];
    }
  }

  lemma SeparatedGrows(log: seq<Event>, e: Event, id: Id)
    requires !IsClaim(e, id) || AllTakenBack(log, id, None)
    ensures ClaimsSeparated(log, id) ==> ClaimsSeparated(log + [e], id)
  {
    var log' := log + [e];
    if ClaimsSeparated(log, id) {
      forall i, j | 0 <= i < j < |log'| && IsClaim(log'[i], id) && IsClaim(log'[j], id)
        ensures exists k :: i < k < j && IsRequeue(log'[k], id) && log'[k].cutoff >= log'[i].at
      {
        assert log'[i] == log[i];
        if j < |log| {
          var k :| i < k < j && IsRequeue(log[k], id) && log[k].cutoff >= log[i].at;
          assert log'[k] == log[k];
        } else {
          assert TakenBack(log, i, id);
          var k :| i < k < |log| && IsRequeue(log[k], id) && log[k].cutoff >= log[i].at;
          assert log'[k] == log[k];
        }
      }
    }
  }

  lemma RequeueTakesBack(log: seq<Event>, e: Event, id: Id, at: int)
    requires IsRequeue(e, id) && e.cutoff >= at && AllTakenBack(log, id, Some(at))
    ensures AllTakenBack(log + [e], id, None)
  {
    var log' := log + [e];
    forall i | 0 <= i < |log'| && IsClaim(log'[i], id) ensures TakenBack(log', i, id) {
      assert log'[i] == log[i] && log'[|log|] == e;
      TakenBackGrows(log, e, i, id);
    }
  }

  lemma ClaimOpens(log: seq<Event>, e: Event, id: Id)
    requires IsClaim(e, id) && AllTakenBack(log, id, None)
    ensures AllTakenBack(log + [e], id, Some(e.at))
  {
    var log' := log + [e];
    forall i | 0 <= i < |log'| && IsClaim(log'[i], id) ensures TakenBack(log', i, id) || e.at == log'[i].at {
      if i < |log| { TakenBackGrows(log, e, i, id); }
    }
  }

  /** A statement that leaves `id` alone, its row and its log, keeps them tied. */
  lemma OtherKeepsTied(t: Table, t': Table, log: seq<Event>, e: Event, id: Id)
    requires Tied(t, log, id) && !Touches(e, id)
    requires (id in t' <==> id in t) && (id in t ==> t'[id] == t[id])
    ensures Tied(t', log + [e], id)
  {
    AppendOther(log, e, id);
    CountAppend(log, e, id);
  }

  lemma CreateKeepsTied(t: Table, log: seq<Event>, item: Item, at: int, id: Id)
    requires Tied(t, log, id) && item.id !in t
    ensures Tied(Create(t, item, at), log + [EEnqueue(item.id)], id)
  {
    var e := EEnqueue(item.id);
    if id != item.id {
      OtherKeepsTied(t, Create(t, item, at), log, e, id);
    } else {
      CountAppend(log, e, id);
      assert forall i :: 0 <= i < |log + [e]| ==> !IsClaim((log + [e])[i], id) && !IsDeliver((log + [e])[i], id);
    }
  }

  lemma ClaimKeepsTied(t: Table, log: seq<Event>, ids: set<Id>, at: int, id: Id)
    requires Tied(t, log, id)
    ensures Tied(Claim(t, ids, at), log + [EClaim(Claimed(t, ids), at)], id)
  {
    var e := EClaim(Claimed(t, ids), at);
    if id !in Claimed(t, ids) {
      OtherKeepsTied(t, Claim(t, ids, at), log, e, id);
    } else {
      CountAppend(log, e, id);
      SeparatedGrows(log, e, id);
      ClaimOpens(log, e, id);
      NeverDeliveredGrows(log, e, id);
    }
  }

  lemma RequeueKeepsTied(t: Table, log: seq<Event>, cutoff: int, id: Id)
    requires Tied(t, log, id)
    ensures Tied(Requeue(t, cutoff), log + [ERequeue(Requeued(t, cutoff), cutoff)], id)
  {
    var e := ERequeue(Requeued(t, cutoff), cutoff);
    if id !in Requeued(t, cutoff) {
      OtherKeepsTied(t, Requeue(t, cutoff), log, e, id);
    } else {
      CountAppend(log, e, id);
      SeparatedGrows(log, e, id);
      RequeueTakesBack(log, e, id, t[id].emittedAt.value);
      NeverDeliveredGrows(log, e, id);
    }
  }

  lemma DeliverKeepsTied(t: Table, log: seq<Event>, ids: set<Id>, at: int, id: Id)
    requires Tied(t, log, id)
    ensures Tied(Deliver(t, ids, at), log + [EDeliver(NewlyDelivered(t, ids))], id)
  {
    var e := EDeliver(NewlyDelivered(t, ids));
    if id !in NewlyDelivered(t, ids) {
      OtherKeepsTied(t, Deliver(t, ids, at), log, e, id);
    } else {
      CountAppend(log, e, id);
      SeparatedGrows(log, e, id);
      assert DeliveryEnds(log + [e], id);
    }
  }

  lemma NeverDeliveredGrows(log: seq<Event>, e: Event, id: Id)
    requires NeverDelivered(log, id) && !IsDeliver(e, id)
    ensures NeverDelivered(log + [e], id) && DeliveryEnds(log + [e], id)
  {
  }

  ghost predicate ThreadOk(s: Inbox, t: nat, pc: Pc) {
    pc.EnqueueCreate? ==> s.holder == Some(t) && pc.item.id !in s.table
  }

  ghost predicate Inv(s: Inbox) {
    && (forall id :: Tied(s.table, s.log, id))
    && (forall t :: t in s.threads ==> ThreadOk(s, t, s.threads[t]))
  }

  lemma OpKeepsTied(s: Inbox, t: nat, pc: Pc, s': Inbox, pc': Pc, id: Id)
    requires Tied(s.table, s.log, id) && ThreadOk(s, t, pc) && OpStep(s, t, pc, s', pc')
    ensures Tied(s'.table, s'.log, id)
  {
    match pc
    case EnqueueCreate(item) => CreateKeepsTied(s.table, s.log, item, item.enqueuedAt, id);
    case RequeueStale(cutoff) => RequeueKeepsTied(s.table, s.log, cutoff, id);
    case MarkEmitted(ids, at) => ClaimKeepsTied(s.table, s.log, ids, at, id);
    case MarkDelivered(ids, at) => DeliverKeepsTied(s.table, s.log, ids, at, id);
    case _ =>
  }

  lemma OpKeepsThreads(s: Inbox, t: nat, s': Inbox)
    requires OpNext(s, t, s') && forall u :: u in s.threads ==> ThreadOk(s, u, s.threads[u])
    ensures forall u :: u in s'.threads ==> ThreadOk(s', u, s'.threads[u])
  {
    forall u | u in s'.threads ensures ThreadOk(s', u, s'.threads[u]) {
      if u != t {
        assert u in s.threads && ThreadOk(s, u, s.threads[u]);
        if t in s.threads { assert ThreadOk(s, t, s.threads[t]); }
      }
    }
  }

  lemma NextKeepsInv(s: Inbox, s': Inbox)
    requires Inv(s) && Next(s, s')
    ensures Inv(s') && s.log <= s'.log
  {
    if s' != Inbox(s.table, None, map[], s.log) {
      var t :| OpNext(s, t, s');
      OpKeepsThreads(s, t, s');
      forall id ensures Tied(s'.table, s'.log, id) {
        if t in s.threads { assert ThreadOk(s, t, s.threads[t]); }
        OpKeepsTied(s, t, PcOf(s, t), s', s'.threads[t], id);
      }
    }
  }

  function RowOf(t: Table, id: Id): Option<Row> {
    if id in t then Some(t[id]) else None
  }

  /** The log entry `e`, made by an operation at `pc`, says what happened to the row of `id`. */
  ghost predicate Recorded(pc: Pc, e: Event, id: Id, row: Option<Row>, row': Option<Row>) {
    && row'.Some?
    && match e
       case EEnqueue(x) => row == None && pc.EnqueueCreate? && pc.item.id == x && Says(row'.value, pc.item) && Claimable(row'.value)
       case EClaim(_, at) =>
         && row.Some? && Claimable(row.value) && pc.MarkEmitted? && id in pc.ids && pc.at == at
         && SameItem(row.value, row'.value) && row'.value.status == Emitted && row'.value.emittedAt == Some(at)
         && row'.value.deliveredAt == row.value.deliveredAt
       case ERequeue(_, cutoff) =>
         && row.Some? && row.value.status == Emitted && row.value.emittedAt.Some? && row.value.emittedAt.value <= cutoff
         && pc.RequeueStale? && pc.cutoff == cutoff
         && SameItem(row.value, row'.value) && Claimable(row'.value) && row'.value.deliveredAt == row.value.deliveredAt
       case EDeliver(_) =>
         && row.Some? && row.value.status != Delivered && pc.MarkDelivered? && id in pc.ids
         && SameItem(row.value, row'.value) && row'.value.status == Delivered && row'.value.deliveredAt == Some(pc.at)
         && row'.value.emittedAt == row.value.emittedAt
  }

  lemma OpRecorded(s: Inbox, t: nat, pc: Pc, s': Inbox, pc': Pc, id: Id)
    requires ThreadOk(s, t, pc) && OpStep(s, t, pc, s', pc')
    ensures s'.log == s.log ==> s'.table == s.table
    ensures s'.log != s.log ==> |s'.log| == |s.log| + 1 && s.log <= s'.log
    ensures s'.log != s.log ==>
              var e, row, row' := s'.log[|s.log|], RowOf(s.table, id), RowOf(s'.table, id);
              if Touches(e, id) then Recorded(pc, e, id, row, row') else row' == row
  {
  }

  /** The log tells the whole story of every row: where it says nothing nothing changed, and each entry
      says by which operation, at what time, and from what to what. */
  lemma LogTellsAll(s: Inbox, s': Inbox, id: Id)
    requires Inv(s) && Next(s, s')
    ensures s'.log == s.log ==> s'.table == s.table
    ensures s'.log != s.log ==> exists t ::
              && t in s.threads && OpNext(s, t, s') && |s'.log| == |s.log| + 1 && s.log <= s'.log
              && var e, row, row' := s'.log[|s.log|], RowOf(s.table, id), RowOf(s'.table, id);
                 if Touches(e, id) then Recorded(s.threads[t], e, id, row, row') else row' == row
  {
    assert forall t :: t in s.threads ==> ThreadOk(s, t, s.threads[t]);
    if s' != Inbox(s.table, None, map[], s.log) {
      var t :| OpNext(s, t, s');
      OpRecorded(s, t, PcOf(s, t), s', s'.threads[t], id);
    }
  }

  /** A run from an empty inbox. */
  ghost predicate IsRun(run: seq<Inbox>) {
    && run != [] && run[0] == Inbox(map[], None, map[], [])
    && forall i :: 0 <= i < |run| - 1 ==> Next(run[i], run[i + 1])
  }

  lemma {:induction false} RunKeepsInv(run: seq<Inbox>, i: nat)
    requires IsRun(run) && i < |run|
    ensures Inv(run[i])
  {
    if i > 0 {
      RunKeepsInv(run, i - 1);
      NextKeepsInv(run[i - 1], run[i]);
    }
  }

  ghost predicate LockOk(s: Inbox) {
    forall t: nat :: s.holder == Some(t) <==> t in s.threads && s.threads[t].EnqueueCreate?
  }

  lemma NextKeepsLock(s: Inbox, s': Inbox)
    requires LockOk(s) && Next(s, s')
    ensures LockOk(s')
  {
    if s' != Inbox(s.table, None, map[], s.log) {
      var t :| OpNext(s, t, s');
      forall u: nat ensures s'.holder == Some(u) <==> u in s'.threads && s'.threads[u].EnqueueCreate? {
        assert s.holder == Some(u) <==> u in s.threads && s.threads[u].EnqueueCreate?;
        assert s.holder == Some(t) <==> t in s.threads && s.threads[t].EnqueueCreate?;
      }
    }
  }

  /** In every reachable state `ingress_lock` is held across statements exactly by the enqueueing that is
      between its two. */
  lemma {:induction false} LockHeldOnlyInside(run: seq<Inbox>, i: nat)
    requires IsRun(run) && i < |run|
    ensures LockOk(run[i])
  {
    if i > 0 {
      LockHeldOnlyInside(run, i - 1);
      NextKeepsLock(run[i - 1], run[i]);
    }
  }

  /** For every ingress id in every run: it is claimed at most once more than requeued; two
      claims are separated by a requeue whose cutoff is at or after the first claim's time; and
      after its delivery nothing is ever done to it again. */
  lemma ClaimsAreExclusive(run: seq<Inbox>, i: nat, id: Id)
    requires IsRun(run) && i < |run|
    ensures 0 <= Claims(run[i].log, id) - Requeues(run[i].log, id) <= 1
    ensures ClaimsSeparated(run[i].log, id)
    ensures DeliveryEnds(run[i].log, id)
  {
    RunKeepsInv(run, i);
    assert Tied(run[i].table, run[i].log, id);
  }

  lemma {:induction false} LogGrows(run: seq<Inbox>, i: nat, j: nat)
    requires IsRun(run) && i <= j < |run|
    ensures run[i].log <= run[j].log
    decreases j
  {
    if i < j {
      LogGrows(run, i, j - 1);
      RunKeepsInv(run, j - 1);
      NextKeepsInv(run[j - 1], run[j]);
    }
  }

  /** Delivered is absorbing, and no row is ever lost. */
  lemma {:induction false} DeliveredIsAbsorbing(run: seq<Inbox>, i: nat, j: nat, id: Id)
    requires IsRun(run) && i <= j < |run| && id in run[i].table
    ensures id in run[j].table
    ensures run[i].table[id].status == Delivered ==> run[j].table[id] == run[i].table[id]
    decreases j
  {
    if i < j {
      DeliveredIsAbsorbing(run, i, j - 1, id);
      RunKeepsInv(run, j - 1);
      DeliveredStep(run[j - 1], run[j], id);
    }
  }

  lemma DeliveredStep(s: Inbox, s': Inbox, id: Id)
    requires Inv(s) && Next(s, s') && id in s.table
    ensures id in s'.table
    ensures s.table[id].status == Delivered ==> s'.table[id] == s.table[id]
  {
    if s' != Inbox(s.table, None, map[], s.log) {
      var t :| OpNext(s, t, s');
      if t in s.threads { assert ThreadOk(s, t, s.threads[t]); }
    }
  }

  function Enqueued(item: Item): Table {
    map[item.id := Row(Some(item.sourceKind), item.sourceKey, item.payload, item.enqueuedAt, Pending, None, None)]
  }

  lemma EnqueuedRun(item: Item) returns (run: seq<Inbox>)
    ensures IsRun(run) && run[|run| - 1] == Inbox(Enqueued(item), None, map[0 := Idle], [EEnqueue(item.id)])
  {
    var s0 := Inbox(map[], None, map[], []);
    var s1 := Inbox(map[], None, map[0 := Enqueue(item)], []);
    var s2 := Inbox(map[], Some(0), map[0 := EnqueueCreate(item)], []);
    var s3 := Inbox(Enqueued(item), None, map[0 := Idle], [EEnqueue(item.id)]);
    assert OpNext(s0, 0, s1) && OpNext(s1, 0, s2);
    assert OpNext(s2, 0, s3) by { assert [] + [EEnqueue(item.id)] == [EEnqueue(item.id)]; }
    run := [s0, s1, s2, s3];
  }

  lemma Extends(run: seq<Inbox>, s: Inbox) returns (run': seq<Inbox>)
    requires IsRun(run) && Next(run[|run| - 1], s)
    ensures IsRun(run') && run'[|run'| - 1] == s
  {
    run' := run + [s];
    forall i | 0 <= i < |run'| - 1 ensures Next(run'[i], run'[i + 1]) {
      assert i < |run| - 1 ==> run'[i] == run[i] && run'[i + 1] == run[i + 1];
    }
  }

  /** A claim step of operation 0 on a quiet inbox. */
  lemma ClaimRuns(run: seq<Inbox>, table: Table, log: seq<Event>, id: Id, at: int) returns (run': seq<Inbox>)
    requires IsRun(run) && run[|run| - 1] == Inbox(table, None, map[0 := Idle], log) && id in table && Claimable(table[id])
    ensures IsRun(run') && run'[|run'| - 1] == Inbox(Claim(table, {id}, at), None, map[0 := Idle], log + [EClaim({id}, at)])
  {
    var begun := Inbox(table, None, map[0 := MarkEmitted({id}, at)], log);
    var done := Inbox(Claim(table, {id}, at), None, map[0 := Idle], log + [EClaim({id}, at)]);
    assert OpNext(run[|run| - 1], 0, begun) && Claimed(table, {id}) == {id};
    assert OpNext(begun, 0, done);
    run' := Extends(run, begun);
    run' := Extends(run', done);
  }

  lemma RequeueRuns(run: seq<Inbox>, table: Table, log: seq<Event>, cutoff: int) returns (run': seq<Inbox>)
    requires IsRun(run) && run[|run| - 1] == Inbox(table, None, map[0 := Idle], log)
    ensures IsRun(run')
    ensures run'[|run'| - 1] == Inbox(Requeue(table, cutoff), None, map[0 := Idle], log + [ERequeue(Requeued(table, cutoff), cutoff)])
  {
    var begun := Inbox(table, None, map[0 := RequeueStale(cutoff)], log);
    var done := Inbox(Requeue(table, cutoff), None, map[0 := Idle], log + [ERequeue(Requeued(table, cutoff), cutoff)]);
    assert OpNext(run[|run| - 1], 0, begun) && OpNext(begun, 0, done);
    run' := Extends(run, begun);
    run' := Extends(run', done);
  }

  /** Delivery is not exactly once: an item can be claimed, requeued as stale and claimed again. */
  lemma ItemClaimedTwice(item: Item) returns (run: seq<Inbox>)
    ensures IsRun(run) && run[|run| - 1].log == [EEnqueue(item.id), EClaim({item.id}, 5), ERequeue({item.id}, 9), EClaim({item.id}, 10)]
  {
    var t0 := Enqueued(item);
    run := EnqueuedRun(item);
    run := ClaimRuns(run, t0, [EEnqueue(item.id)], item.id, 5);
    var t1 := Claim(t0, {item.id}, 5);
    assert Requeued(t1, 9) == {item.id};
    run := RequeueRuns(run, t1, [EEnqueue(item.id), EClaim({item.id}, 5)], 9);
    var t2 := Requeue(t1, 9);
    run := ClaimRuns(run, t2, [EEnqueue(item.id), EClaim({item.id}, 5), ERequeue({item.id}, 9)], item.id, 10);
  }
}
