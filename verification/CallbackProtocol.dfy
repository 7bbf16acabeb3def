/** Callback operations interleaved statement by statement. `callback_lock` is held between the
    two statements of a keyed schedule, a cancel and an emission claim; an unkeyed schedule and
    a delivery report take no lock. Any statement may fail with or without effect, and the
    process may die at any point and reopen its store
    (crates/baml-agent-runner/src/deployment_state.rs:101-180, 475-772). */
module CallbackProtocol {
  import opened Options
  import opened CallbackQueue
  import opened OrderedQuery

  /** Where an operation is; `Scheduled` is over and has given its answer. */
  datatype Pc =
    | Idle
    | Schedule(req: Request)
    | ScheduleInsert(req: Request)
    | Scheduled(id: Id, created: bool)
    | Cancel(sel: Selector)
    | CancelWriting(id: Id, read: Row)
    | Emit(ids: set<Id>, at: u64)
    | Emitting(eligible: set<Id>, first: set<Id>, at: u64)
    | Deliver(ids: set<Id>, at: u64)

  /** `claimed` are the ids ever returned by `mark_callbacks_emitted`; `used` are the UUIDs ever
      drawn, which never repeat. */
  datatype Store = Store(table: Table, holder: Option<nat>, threads: map<nat, Pc>, claimed: set<Id>, used: set<Id>)

  /** A statement meant to turn `t` into `done` may also fail without effect; a failed SELECT ends the
      operation. */
  predicate Executes(t: Table, done: Table, t': Table) {
    t' == done || t' == t
  }

  ghost predicate Begins(s: Store, s': Store, pc': Pc) {
    && (pc'.Schedule? || pc'.Cancel? || pc'.Emit? || pc'.Deliver?)
    && s'.table == s.table && s'.holder == s.holder && s'.claimed == s.claimed && s'.used == s.used
  }

  /** The UPSERT under a new UUID; it is answered only if it took effect. */
  ghost predicate Inserts(s: Store, req: Request, s': Store, pc': Pc) {
    && s'.claimed == s.claimed
    && exists id ::
         && id !in s.used && s'.used == s.used + {id}
         && (|| (pc' == Idle && Executes(s.table, Insert(s.table, id, req), s'.table))
             || (pc' == Scheduled(id, true) && s'.table == Insert(s.table, id, req)))
  }

  ghost predicate OpStep(s: Store, t: nat, pc: Pc, s': Store, pc': Pc) {
    match pc
    case Idle => Begins(s, s', pc')
    case Scheduled(_, _) => Begins(s, s', pc')
    case Schedule(req) =>
      if req.dedupeKey == None then s'.holder == s.holder && Inserts(s, req, s', pc')
      else
        && s.holder == None && s'.table == s.table && s'.claimed == s.claimed && s'.used == s.used
        && (|| (pc' == Idle && s'.holder == None)
            || (&& pc'.Scheduled? && !pc'.created && s'.holder == None
                && Selected(s.table, ByKey(req.sourceKey, req.dedupeKey.value), pc'.id))
            || (&& pc' == ScheduleInsert(req) && s'.holder == Some(t)
                && forall x :: !Selected(s.table, ByKey(req.sourceKey, req.dedupeKey.value), x)))
    case ScheduleInsert(req) => s'.holder == None && Inserts(s, req, s', pc')
    case Cancel(sel) =>
      && s.holder == None && s'.table == s.table && s'.claimed == s.claimed && s'.used == s.used
      && if pc' == Idle then s'.holder == None
         else pc'.CancelWriting? && Selected(s.table, sel, pc'.id) && pc'.read == s.table[pc'.id] && s'.holder == Some(t)
    case CancelWriting(id, read) =>
      && pc' == Idle && s'.holder == None && s'.claimed == s.claimed && s'.used == s.used
      && exists now :: Executes(s.table, CancelWrite(s.table, id, read, now), s'.table)
    case Emit(ids, at) =>
      && s.holder == None && s'.table == s.table && s'.claimed == s.claimed && s'.used == s.used
      && (|| (pc' == Idle && s'.holder == None)
          || (pc' == Emitting(Eligible(s.table, ids), FirstEmissions(s.table, ids), at) && s'.holder == Some(t)))
    case Emitting(eligible, first, at) =>
      && pc' == Idle && s'.holder == None && s'.used == s.used
      && Executes(s.table, EmitUpdate(s.table, first, at), s'.table)
      && (s'.claimed == s.claimed || (s'.claimed == s.claimed + eligible && s'.table == EmitUpdate(s.table, first, at)))
    case Deliver(ids, at) =>
      && pc' == Idle && s'.holder == s.holder && s'.claimed == s.claimed && s'.used == s.used
      && Executes(s.table, DeliverUpdate(s.table, ids, at), s'.table)
  }

  function PcOf(s: Store, t: nat): Pc {
    if t in s.threads then s.threads[t] else Idle
  }

  ghost predicate OpNext(s: Store, t: nat, s': Store) {
    && t in s'.threads && s'.threads == s.threads[t := s'.threads[t]]
    && OpStep(s, t, PcOf(s, t), s', s'.threads[t])
  }

  /** The process dies and the store is opened again. */
  ghost predicate Reopened(s: Store, s': Store) {
    s' == Store(Purge(s.table), None, map[], s.claimed, s.used)
  }

  ghost predicate Next(s: Store, s': Store) {
    Reopened(s, s') || exists t :: OpNext(s, t, s')
  }

  // The invariant.

  /** At most one pending, unemitted callback per (source key, dedupe key). */
  ghost predicate KeysUnique(t: Table) {
    forall a, b ::
      && a in t && b in t && Open(t[a]) && Open(t[b]) && t[a].dedupeKey.Some?
      && t[a].sourceKey == t[b].sourceKey && t[a].dedupeKey == t[b].dedupeKey
      ==> a == b
  }

  /** A claimed row was emitted or has been delivered; a cancelled row was never emitted. */
  ghost predicate RowOk(s: Store, id: Id)
    requires id in s.table
  {
    var row := s.table[id];
    && id in s.used
    && (row.status == Cancelled ==> row.emittedAt == None && id !in s.claimed)
    && (id in s.claimed ==> row.emittedAt.Some? || row.status == Delivered)
  }

  /** What an operation between its two statements can rely on. */
  ghost predicate ThreadOk(s: Store, t: nat, pc: Pc) {
    match pc
    case ScheduleInsert(req) =>
      && s.holder == Some(t) && req.dedupeKey.Some?
      && forall x :: !Selected(s.table, ByKey(req.sourceKey, req.dedupeKey.value), x)
    case CancelWriting(id, read) =>
      && s.holder == Some(t) && id in s.table && id !in s.claimed
      && Open(read) && s.table[id].emittedAt == None
      && (s.table[id] == read || (s.table[id].status == Delivered && SameCallback(read, s.table[id])))
    case Emitting(eligible, first, at) =>
      && s.holder == Some(t) && first <= eligible
      && forall id :: id in eligible ==>
           && id in s.table
           && (s.table[id].status == Delivered
               || (s.table[id].status == Pending && (id in first || s.table[id].emittedAt.Some?)))
    case _ => true
  }

  ghost predicate Inv(s: Store) {
    && KeysUnique(s.table) && s.claimed <= s.used
    && (forall id :: id in s.table ==> RowOk(s, id))
    && (forall t :: t in s.threads ==> ThreadOk(s, t, s.threads[t]))
  }

  /** How one row may change: it stays the same callback, an emission time once set stays, nothing
      becomes pending again, a pending row keeps its times, and cancellation is final. */
  ghost predicate Evolves(row: Row, row': Row) {
    && SameCallback(row, row')
    && (row.emittedAt.Some? ==> row'.emittedAt == row.emittedAt)
    && (row'.status == Pending ==>
          row.status == Pending && row'.scheduledFor == row.scheduledFor && row'.requestedAt == row.requestedAt)
    && (row.status == Cancelled ==> row'.status == Cancelled)
  }

  ghost predicate TableEvolves(t: Table, t': Table) {
    forall id :: id in t ==>
      if id in t' then Evolves(t[id], t'[id]) else t[id].status == Pending && !t[id].scoped
  }

  // Each kind of statement, seen from the whole store.

  /** What other operations may assume of a step by someone who does not hold the lock. */
  ghost predicate Harmless(t: Table, t': Table) {
    && t.Keys <= t'.Keys
    && forall id :: id in t' ==>
         if id in t then
           t'[id] == t[id] || (t[id].status == Pending && t'[id] == t[id].(status := Delivered, deliveredAt := t'[id].deliveredAt, cancelledAt := None))
         else t'[id].dedupeKey == None && Open(t'[id])
  }

  lemma HarmlessKeepsThreads(s: Store, s': Store, t: nat, pc: Pc)
    requires ThreadOk(s, t, pc) && Harmless(s.table, s'.table)
    requires s'.holder == s.holder && s'.claimed == s.claimed
    ensures ThreadOk(s', t, pc)
  {
    if pc.ScheduleInsert? {
      var sel := ByKey(pc.req.sourceKey, pc.req.dedupeKey.value);
      forall x ensures !Selected(s'.table, sel, x) {
        if Selected(s'.table, sel, x) { assert x in s.table && Selected(s.table, sel, x); }
      }
    }
  }

  lemma HarmlessKeepsRows(s: Store, s': Store)
    requires Inv(s) && Harmless(s.table, s'.table)
    requires s'.claimed == s.claimed && s.used <= s'.used
    requires forall id :: id in s'.table && id !in s.table ==> id in s'.used && id !in s.used
    ensures KeysUnique(s'.table) && forall id :: id in s'.table ==> RowOk(s', id)
    ensures TableEvolves(s.table, s'.table)
  {
    assert forall id :: id in s.table ==> RowOk(s, id);
  }

  predicate LockFree(pc: Pc) {
    pc.Idle? || pc.Scheduled? || pc.Deliver? || (pc.Schedule? && pc.req.dedupeKey == None)
  }

  lemma LockFreeIsHarmless(s: Store, t: nat, pc: Pc, s': Store, pc': Pc)
    requires Inv(s) && LockFree(pc) && OpStep(s, t, pc, s', pc')
    ensures Harmless(s.table, s'.table) && s'.holder == s.holder && s'.claimed == s.claimed && s.used <= s'.used
    ensures forall id :: id in s'.table && id !in s.table ==> id in s'.used && id !in s.used
    ensures ThreadOk(s', t, pc')
  {
    assert forall id :: id in s.table ==> RowOk(s, id);
  }

  /** Nobody but `t` can be between two statements while `t` has or can take the lock. */
  lemma OthersOutside(s: Store, s': Store, t: nat, u: nat)
    requires Inv(s) && (s.holder == None || s.holder == Some(t)) && u in s.threads && u != t
    ensures ThreadOk(s', u, s.threads[u])
  {
    assert ThreadOk(s, u, s.threads[u]);
  }

  /** The store's own part of the invariant, and how the table moved. */
  ghost predicate StoreOk(s: Store, s': Store) {
    && KeysUnique(s'.table) && s'.claimed <= s'.used
    && (forall id :: id in s'.table ==> RowOk(s', id))
    && TableEvolves(s.table, s'.table) && s.claimed <= s'.claimed
  }

  lemma InsertStep(s: Store, t: nat, req: Request, s': Store, pc': Pc)
    requires Inv(s) && ThreadOk(s, t, ScheduleInsert(req)) && OpStep(s, t, ScheduleInsert(req), s', pc')
    ensures StoreOk(s, s')
  {
    assert forall id :: id in s.table ==> RowOk(s, id);
    if s'.table != s.table {
      var id :| id !in s.used && s'.used == s.used + {id} && s'.table == Insert(s.table, id, req);
      var sel := ByKey(req.sourceKey, req.dedupeKey.value);
      forall x | x in s.table ensures !Selected(s.table, sel, x) {
      }
    }
  }

  lemma CancelStep(s: Store, t: nat, id: Id, read: Row, s': Store, pc': Pc)
    requires Inv(s) && ThreadOk(s, t, CancelWriting(id, read)) && OpStep(s, t, CancelWriting(id, read), s', pc')
    ensures StoreOk(s, s')
  {
    assert forall x :: x in s.table ==> RowOk(s, x);
  }

  lemma EmitStep(s: Store, t: nat, pc: Pc, s': Store, pc': Pc)
    requires Inv(s) && pc.Emitting? && ThreadOk(s, t, pc) && OpStep(s, t, pc, s', pc')
    ensures StoreOk(s, s')
  {
    assert forall x :: x in s.table ==> RowOk(s, x);
  }

  lemma LockingStep(s: Store, t: nat, pc: Pc, s': Store, pc': Pc)
    requires Inv(s) && !LockFree(pc) && ThreadOk(s, t, pc) && OpStep(s, t, pc, s', pc')
    ensures (s.holder == None || s.holder == Some(t)) && StoreOk(s, s') && ThreadOk(s', t, pc')
  {
    match pc
    case ScheduleInsert(req) => InsertStep(s, t, req, s', pc');
    case CancelWriting(id, read) => CancelStep(s, t, id, read, s', pc');
    case Emitting(eligible, first, at) => EmitStep(s, t, pc, s', pc');
    case _ => RowsUnchanged(s, s');
  }

  lemma RowsUnchanged(s: Store, s': Store)
    requires Inv(s)
    ensures s'.table == s.table && s'.claimed == s.claimed && s'.used == s.used ==> StoreOk(s, s')
  {
    forall id | id in s.table ensures RowOk(s, id) { }
  }

  lemma OpNextKeepsInv(s: Store, t: nat, s': Store)
    requires Inv(s) && OpNext(s, t, s')
    ensures Inv(s') && TableEvolves(s.table, s'.table) && s.claimed <= s'.claimed
  {
    var pc := PcOf(s, t);
    if LockFree(pc) {
      LockFreeIsHarmless(s, t, pc, s', s'.threads[t]);
      HarmlessKeepsRows(s, s');
      forall u | u in s'.threads ensures ThreadOk(s', u, s'.threads[u]) {
        if u != t { HarmlessKeepsThreads(s, s', u, s.threads[u]); }
      }
    } else {
      LockingStep(s, t, pc, s', s'.threads[t]);
      forall u | u in s'.threads ensures ThreadOk(s', u, s'.threads[u]) {
        if u != t { OthersOutside(s, s', t, u); }
      }
    }
  }

  lemma NextKeepsInv(s: Store, s': Store)
    requires Inv(s) && Next(s, s')
    ensures Inv(s') && TableEvolves(s.table, s'.table) && s.claimed <= s'.claimed
  {
    if Reopened(s, s') {
      forall id | id in s'.table ensures RowOk(s', id) { assert RowOk(s, id); }
    } else {
      var t :| OpNext(s, t, s');
      OpNextKeepsInv(s, t, s');
    }
  }

  /** A run from any quiet store. */
  ghost predicate IsRun(run: seq<Store>) {
    && run != [] && Inv(run[0]) && run[0].threads == map[] && run[0].holder == None
    && forall i :: 0 <= i < |run| - 1 ==> Next(run[i], run[i + 1])
  }

  /** In every reachable state there is at most one pending, unemitted callback per dedupe key,
      and no cancelled callback was ever emitted or claimed for emission. */
  lemma {:induction false} DedupeAndCancelAreSafe(run: seq<Store>, i: nat)
    requires IsRun(run) && i < |run|
    ensures Inv(run[i]) && KeysUnique(run[i].table)
    ensures forall id :: id in run[i].table && run[i].table[id].status == Cancelled ==>
              run[i].table[id].emittedAt == None && id !in run[i].claimed
  {
    if i > 0 {
      DedupeAndCancelAreSafe(run, i - 1);
      NextKeepsInv(run[i - 1], run[i]);
    }
    forall id | id in run[i].table ensures RowOk(run[i], id) {
    }
  }

  /** The operation is between its two statements. */
  predicate Inside(pc: Pc) {
    pc.ScheduleInsert? || pc.CancelWriting? || pc.Emitting?
  }

  ghost predicate LockOk(s: Store) {
    forall t: nat :: s.holder == Some(t) <==> t in s.threads && Inside(s.threads[t])
  }

  lemma NextKeepsLock(s: Store, s': Store)
    requires LockOk(s) && Next(s, s')
    ensures LockOk(s')
  {
    if !Reopened(s, s') {
      var t :| OpNext(s, t, s');
      forall u: nat ensures s'.holder == Some(u) <==> u in s'.threads && Inside(s'.threads[u]) {
        assert s.holder == Some(u) <==> u in s.threads && Inside(s.threads[u]);
        assert s.holder == Some(t) <==> t in s.threads && Inside(s.threads[t]);
      }
    }
  }

  /** In every reachable state `callback_lock` is held exactly by the operation that is between its two
      statements: it is always given back, and a crash frees it. */
  lemma {:induction false} LockHeldOnlyInside(run: seq<Store>, i: nat)
    requires IsRun(run) && i < |run|
    ensures LockOk(run[i])
  {
    if i > 0 {
      LockHeldOnlyInside(run, i - 1);
      NextKeepsLock(run[i - 1], run[i]);
    }
  }

  /** Over any stretch of a run every row that is still there evolved as allowed. */
  lemma {:induction false} RowsEvolve(run: seq<Store>, i: nat, j: nat, id: Id)
    requires IsRun(run) && i <= j < |run| && id in run[i].table && id in run[j].table
    ensures Evolves(run[i].table[id], run[j].table[id])
    decreases j
  {
    if i < j {
      StaysInTable(run, i, j - 1, j, id);
      RowsEvolve(run, i, j - 1, id);
      StepEvolves(run, j - 1, id);
    }
  }

  lemma StepEvolves(run: seq<Store>, i: nat, id: Id)
    requires IsRun(run) && i + 1 < |run| && id in run[i].table
    ensures if id in run[i + 1].table then Evolves(run[i].table[id], run[i + 1].table[id])
            else run[i].table[id].status == Pending && !run[i].table[id].scoped
  {
    DedupeAndCancelAreSafe(run, i);
    NextKeepsInv(run[i], run[i + 1]);
  }

  /** UUIDs are not reused: what is in the table now and was before, was there in between. */
  lemma {:induction false} StaysInTable(run: seq<Store>, i: nat, m: nat, j: nat, id: Id)
    requires IsRun(run) && i <= m <= j < |run| && id in run[i].table && id in run[j].table
    ensures id in run[m].table
    decreases j - m
  {
    if m < j {
      StaysInTable(run, i, m + 1, j, id);
      WasUsed(run, i, m, id);
      NotNew(run, m, id);
    }
  }

  lemma WasUsed(run: seq<Store>, i: nat, m: nat, id: Id)
    requires IsRun(run) && i <= m < |run| && id in run[i].table
    ensures id in run[m].used
  {
    DedupeAndCancelAreSafe(run, i);
    RowOkFor(run[i], id);
    UsedGrows(run, i, m);
  }

  lemma NotNew(run: seq<Store>, m: nat, id: Id)
    requires IsRun(run) && m + 1 < |run| && id in run[m].used && id in run[m + 1].table
    ensures id in run[m].table
  {
    DedupeAndCancelAreSafe(run, m);
    NoReuse(run[m], run[m + 1], id);
  }

  lemma NoReuse(s: Store, s': Store, id: Id)
    requires Next(s, s') && id in s'.table && id in s.used && Inv(s)
    ensures id in s.table
  {
  }

  lemma {:induction false} UsedGrows(run: seq<Store>, i: nat, j: nat)
    requires IsRun(run) && i <= j < |run|
    ensures run[i].used <= run[j].used
    decreases j
  {
    if i < j { UsedGrows(run, i, j - 1); }
  }

  /** The first emission time is final, and an emitted callback is never cancelled. */
  lemma EmissionIsFinal(run: seq<Store>, i: nat, j: nat, id: Id)
    requires IsRun(run) && i <= j < |run| && id in run[i].table && id in run[j].table
    requires run[i].table[id].emittedAt.Some?
    ensures run[j].table[id].emittedAt == run[i].table[id].emittedAt
    ensures run[j].table[id].status != Cancelled
  {
    RowsEvolve(run, i, j, id);
    DedupeAndCancelAreSafe(run, j);
  }

  /** A row can leave the table only by the purge of pending rows without scheduling scope. */
  lemma {:induction false} OnlyUnscopedDisappear(run: seq<Store>, i: nat, j: nat, id: Id)
    requires IsRun(run) && i <= j < |run| && id in run[i].table && id !in run[j].table
    ensures run[i].table[id].status == Pending && !run[i].table[id].scoped
    decreases j
  {
    if id in run[j - 1].table {
      RowsEvolve(run, i, j - 1, id);
      StepEvolves(run, j - 1, id);
    } else {
      OnlyUnscopedDisappear(run, i, j - 1, id);
    }
  }

  /** Operation `t` asked for `row` and now has it. */
  ghost predicate Asked(s: Store, s': Store, t: nat, id: Id) {
    && t in s.threads && t in s'.threads && (s.threads[t].Schedule? || s.threads[t].ScheduleInsert?)
    && id in s'.table && Holds(s'.table[id], s.threads[t].req) && Open(s'.table[id])
    && (s'.threads[t] == Idle || s'.threads[t] == Scheduled(id, true))
  }

  lemma StepAppears(s: Store, t: nat, pc: Pc, s': Store, pc': Pc, id: Id)
    requires ThreadOk(s, t, pc) && OpStep(s, t, pc, s', pc') && id !in s.table && id in s'.table
    ensures pc.Schedule? || pc.ScheduleInsert?
    ensures Holds(s'.table[id], pc.req) && Open(s'.table[id]) && (pc' == Idle || pc' == Scheduled(id, true))
  {
  }

  /** A row appears only by a schedule, and it says what was asked for. */
  lemma AppearsAsAsked(s: Store, s': Store, id: Id)
    requires Inv(s) && Next(s, s') && id !in s.table && id in s'.table
    ensures exists t :: OpNext(s, t, s') && Asked(s, s', t, id)
  {
    var t :| OpNext(s, t, s');
    StepAppears(s, t, PcOf(s, t), s', s'.threads[t], id);
    assert Asked(s, s', t, id);
  }

  /** The step at `pc` that changed `row` into `row'`. */
  ghost predicate Changed(pc: Pc, id: Id, row: Row, row': Row) {
    || (pc.Emitting? && id in pc.first && Open(row) && IsEmitted(row, row', pc.at))
    || (pc.Deliver? && id in pc.ids && row.status == Pending && IsDelivered(row, row', pc.at))
    || (pc.CancelWriting? && id == pc.id && exists now :: IsCancelled(pc.read, row', now))
  }

  lemma StepChanges(s: Store, t: nat, pc: Pc, s': Store, pc': Pc, id: Id)
    requires OpStep(s, t, pc, s', pc') && id in s.table && id in s.used && id in s'.table && s'.table[id] != s.table[id]
    ensures Changed(pc, id, s.table[id], s'.table[id])
  {
    if pc.CancelWriting? {
      var now :| Executes(s.table, CancelWrite(s.table, pc.id, pc.read, now), s'.table);
      assert IsCancelled(pc.read, s'.table[id], now);
    }
  }

  /** A row changes only by an emission claim, a delivery report or a cancel that names it. */
  lemma ChangesAreNamed(s: Store, s': Store, id: Id)
    requires Inv(s) && Next(s, s') && id in s.table && id in s'.table && s'.table[id] != s.table[id]
    ensures exists t :: t in s.threads && OpNext(s, t, s') && Changed(s.threads[t], id, s.table[id], s'.table[id])
  {
    var t :| OpNext(s, t, s');
    RowOkFor(s, id);
    StepChanges(s, t, PcOf(s, t), s', s'.threads[t], id);
  }

  /** Step `i` gives operation `t` its answer to scheduling `req`. */
  ghost predicate AnswersAt(run: seq<Store>, i: nat, t: nat, req: Request) {
    && i + 1 < |run| && OpNext(run[i], t, run[i + 1]) && run[i + 1].threads[t].Scheduled?
    && (PcOf(run[i], t) == Schedule(req) || PcOf(run[i], t) == ScheduleInsert(req))
  }

  /** The answer to a schedule names an open callback with its key: a new one that holds what was asked
      for, or the one that was there, with nothing changed. */
  lemma AnswerHolds(run: seq<Store>, i: nat, t: nat, req: Request)
    requires IsRun(run) && AnswersAt(run, i, t, req)
    ensures var id, before, after := run[i + 1].threads[t].id, run[i].table, run[i + 1].table;
            && id in after && Open(after[id]) && after[id].sourceKey == req.sourceKey && after[id].dedupeKey == req.dedupeKey
            && (forall x :: x in before ==> x in after && after[x] == before[x])
            && (if run[i + 1].threads[t].created then id !in before && Holds(after[id], req) else after == before)
  {
    DedupeAndCancelAreSafe(run, i);
    if run[i + 1].threads[t].id in run[i].table { RowOkFor(run[i], run[i + 1].threads[t].id); }
    NewIdsAreNew(run[i]);
  }

  lemma NewIdsAreNew(s: Store)
    requires Inv(s)
    ensures forall id :: id !in s.used ==> id !in s.table
  {
    forall id | id in s.table ensures id in s.used { RowOkFor(s, id); }
  }

  /** An open callback keeps its key for as long as it is open. */
  lemma StaysSelected(run: seq<Store>, i: nat, j: nat, id: Id, key: Selector)
    requires IsRun(run) && i <= j < |run| && key.ByKey? && Selected(run[i].table, key, id)
    requires id in run[j].table && Open(run[j].table[id])
    ensures Selected(run[j].table, key, id) && forall x :: Selected(run[j].table, key, x) ==> x == id
  {
    RowsEvolve(run, i, j, id);
    DedupeAndCancelAreSafe(run, j);
  }

  /** Once a keyed schedule was answered, every later one with the same keys gets the same callback and
      changes nothing, until that callback is emitted, cancelled, delivered or purged; nobody comes to
      insert another one. */
  lemma ScheduledOnce(run: seq<Store>, i: nat, t: nat, req: Request, j: nat, u: nat, again: Request)
    requires IsRun(run) && AnswersAt(run, i, t, req) && i < j < |run|
    requires req.dedupeKey.Some? && again.sourceKey == req.sourceKey && again.dedupeKey == req.dedupeKey
    requires var id := run[i + 1].threads[t].id; id in run[j].table && Open(run[j].table[id])
    ensures AnswersAt(run, j, u, again) ==>
              run[j + 1].threads[u] == Scheduled(run[i + 1].threads[t].id, false) && run[j + 1].table == run[j].table
    ensures u in run[j].threads ==> run[j].threads[u] != ScheduleInsert(again)
  {
    var key := ByKey(req.sourceKey, req.dedupeKey.value);
    AnswerHolds(run, i, t, req);
    StaysSelected(run, i + 1, j, run[i + 1].threads[t].id, key);
    DedupeAndCancelAreSafe(run, j);
    if u in run[j].threads { assert ThreadOk(run[j], u, run[j].threads[u]); }
  }

  /** Step `j` is operation `t` reading, for an emission claim that names `id`, which rows to claim. */
  ghost predicate ReadsFor(run: seq<Store>, j: nat, t: nat, id: Id) {
    && j + 1 < |run| && OpNext(run[j], t, run[j + 1])
    && PcOf(run[j], t).Emit? && id in PcOf(run[j], t).ids && t in run[j + 1].threads && run[j + 1].threads[t].Emitting?
  }

  /** A pending callback, emitted or not, stays deliverable until it is delivered or cancelled:
      at every later point it keeps its schedule, every complete due list names it, and every
      emission claim that names it gets it. */
  lemma DeliveryIsAtLeastOnce(run: seq<Store>, i: nat, j: nat, id: Id, now: u64, limit: nat, out: seq<Id>)
    requires IsRun(run) && i <= j < |run| && id in run[i].table
    requires run[i].table[id].status == Pending && run[i].table[id].scoped
    requires run[i].table[id].scheduledFor <= AsI64(now)
    requires IsAnswer(DueRows(run[j].table, now), limit, out) && |DueRows(run[j].table, now)| <= limit
    ensures id in run[j].table
    ensures run[j].table[id].status == Pending ==> id in out
    ensures run[j].table[id].status == Pending ==> forall t :: ReadsFor(run, j, t, id) ==> id in run[j + 1].threads[t].eligible
  {
    if id !in run[j].table { OnlyUnscopedDisappear(run, i, j, id); }
    RowsEvolve(run, i, j, id);
    if run[j].table[id].status == Pending {
      UnlimitedListsAll(DueRows(run[j].table, now), limit, out, id);
    }
  }

  /** And the claim that read it hands it out: when step `m` completes that claim successfully, the
      callback is among those returned, and it stands emitted or delivered. */
  lemma ClaimIsReturned(run: seq<Store>, j: nat, m: nat, t: nat, id: Id)
    requires IsRun(run) && ReadsFor(run, j, t, id) && id in run[j].table && run[j].table[id].status == Pending
    requires j < m && m + 1 < |run| && t in run[m].threads && run[m].threads[t] == run[j + 1].threads[t]
    requires OpNext(run[m], t, run[m + 1]) && run[m + 1].claimed == run[m].claimed + run[m].threads[t].eligible
    ensures id in run[m + 1].claimed
    ensures id in run[m + 1].table ==> run[m + 1].table[id].emittedAt.Some? || run[m + 1].table[id].status == Delivered
  {
    DedupeAndCancelAreSafe(run, m + 1);
    if id in run[m + 1].table { RowOkFor(run[m + 1], id); }
  }

  /** Delivery is reported only for ids an emission claim returned before. */
  ghost predicate Careful(s: Store) {
    forall t :: t in s.threads && s.threads[t].Deliver? ==> s.threads[t].ids <= s.claimed
  }

  ghost predicate DeliveredWereClaimed(s: Store) {
    forall id :: id in s.table && s.table[id].status == Delivered ==> id in s.claimed
  }

  /** A delivered row changes its status in one step exactly when a cancel that had read it
      before writes now. */
  lemma DeliveredUndoneByRacingCancel(s: Store, s': Store, id: Id)
    requires Inv(s) && Next(s, s') && id in s.table && s.table[id].status == Delivered
    ensures id in s'.table
    ensures s'.table[id].status != Delivered <==>
              exists t :: t in s.threads && s.threads[t].CancelWriting? && s.threads[t].id == id
                          && OpNext(s, t, s') && s'.table != s.table
  {
    if !Reopened(s, s') {
      var t :| OpNext(s, t, s');
      var pc := PcOf(s, t);
      if s'.table[id].status != Delivered {
        assert t in s.threads && pc.CancelWriting? && pc.id == id by { RowOkFor(s, id); }
      }
    }
  }

  lemma RowOkFor(s: Store, id: Id)
    requires Inv(s) && id in s.table
    ensures RowOk(s, id)
  {
  }

  /** Only a delivery report makes a row delivered. */
  lemma NewlyDelivered(s: Store, s': Store, id: Id)
    requires Inv(s) && Next(s, s') && id in s'.table && s'.table[id].status == Delivered
    ensures id in s.table
    ensures s.table[id].status == Delivered || exists t :: t in s.threads && s.threads[t].Deliver? && id in s.threads[t].ids
  {
    if !Reopened(s, s') {
      var t :| OpNext(s, t, s');
      if PcOf(s, t).CancelWriting? { assert ThreadOk(s, t, PcOf(s, t)); }
    }
  }

  lemma CarefulStepKeepsDelivered(s: Store, s': Store)
    requires Inv(s) && Next(s, s') && Careful(s) && DeliveredWereClaimed(s)
    ensures DeliveredWereClaimed(s')
    ensures forall id :: id in s.table && s.table[id].status == Delivered ==>
              id in s'.table && s'.table[id].status == Delivered
  {
    assert s.claimed <= s'.claimed by { NextKeepsInv(s, s'); }
    forall id | id in s'.table && s'.table[id].status == Delivered ensures id in s'.claimed {
      NewlyDelivered(s, s', id);
    }
    forall id | id in s.table && s.table[id].status == Delivered
      ensures id in s'.table && s'.table[id].status == Delivered
    {
      DeliveredUndoneByRacingCancel(s, s', id);
    }
  }

  /** If delivery is only reported for claimed ids, delivered is final as well. */
  lemma {:induction false} DeliveredIsFinal(run: seq<Store>, i: nat, j: nat, id: Id)
    requires IsRun(run) && i <= j < |run| && DeliveredWereClaimed(run[0])
    requires forall k :: 0 <= k < |run| ==> Careful(run[k])
    requires id in run[i].table && run[i].table[id].status == Delivered
    ensures id in run[j].table && run[j].table[id].status == Delivered
    decreases j
  {
    if i < j {
      DeliveredIsFinal(run, i, j - 1, id);
      CarefulRun(run, j - 1);
      DedupeAndCancelAreSafe(run, j - 1);
      CarefulStepKeepsDelivered(run[j - 1], run[j]);
    }
  }

  lemma {:induction false} CarefulRun(run: seq<Store>, i: nat)
    requires IsRun(run) && i < |run| && DeliveredWereClaimed(run[0])
    requires forall k :: 0 <= k < |run| ==> Careful(run[k])
    ensures DeliveredWereClaimed(run[i])
  {
    if i > 0 {
      CarefulRun(run, i - 1);
      DedupeAndCancelAreSafe(run, i - 1);
      CarefulStepKeepsDelivered(run[i - 1], run[i]);
    }
  }

  /** Without that discipline a delivery report can be lost: a cancel reads the row, the delivery
      is recorded without the lock, and the cancel's write turns it into a cancellation. */
  lemma UncarefulDeliveryIsLost() returns (run: seq<Store>)
    ensures IsRun(run) && |run| == 6 && "x" in run[4].table && "x" in run[5].table
    ensures run[4].table["x"].status == Delivered && run[5].table["x"].status == Cancelled
  {
    var row := Row("src", None, "", true, 0, 0, Pending, None, None, None);
    var t0: Table := map["x" := row];
    var t1, t2 := DeliverUpdate(t0, {"x"}, 5), CancelWrite(DeliverUpdate(t0, {"x"}, 5), "x", row, 6);
    var s0 := Store(t0, None, map[], {}, {"x"});
    var s1 := Store(t0, None, map[1 := Cancel(ById("x"))], {}, {"x"});
    var s2 := Store(t0, Some(1), map[1 := CancelWriting("x", row)], {}, {"x"});
    var s3 := Store(t0, Some(1), map[1 := CancelWriting("x", row), 2 := Deliver({"x"}, 5)], {}, {"x"});
    var s4 := Store(t1, Some(1), map[1 := CancelWriting("x", row), 2 := Idle], {}, {"x"});
    var s5 := Store(t2, None, map[1 := Idle, 2 := Idle], {}, {"x"});
    assert OpNext(s0, 1, s1);
    assert OpNext(s1, 1, s2) by { assert Selected(t0, ById("x"), "x"); }
    assert OpNext(s2, 2, s3);
    assert OpNext(s3, 2, s4);
    assert OpNext(s4, 1, s5);
    run := [s0, s1, s2, s3, s4, s5];
  }
}
