/** The durable callback queue: table rows, the database statements on them, and the store's
    operations (crates/baml-agent-runner/src/deployment_state.rs:475-772). */
module CallbackQueue {
  import opened Options
  import opened OrderedQuery

  datatype Status = Pending | Delivered | Cancelled

  /** A row; times are signed 64-bit as stored. `scoped` says that the scheduling context and
      task are present. */
  datatype Row = Row(
    sourceKey: string,
    dedupeKey: Option<string>,
    payload: string,
    scoped: bool,
    scheduledFor: int,
    requestedAt: int,
    status: Status,
    emittedAt: Option<int>,
    deliveredAt: Option<int>,
    cancelledAt: Option<int>)

  type Table = map<Id, Row>

  const TWO63 := 0x8000_0000_0000_0000
  const TWO64 := 0x1_0000_0000_0000_0000

  newtype u64 = x: int | 0 <= x < 0x1_0000_0000_0000_0000

  /** Rust's `value as i64`: the signed number with the same 64 bits. */
  function AsI64(x: u64): (r: int)
    ensures -0x8000_0000_0000_0000 <= r < 0x8000_0000_0000_0000 && (r == x as int || r == x as int - 0x1_0000_0000_0000_0000)
  {
    if x as int < TWO63 then x as int else x as int - TWO64
  }

  datatype Request = Request(
    sourceKey: string, dedupeKey: Option<string>, payload: string, scoped: bool, scheduledFor: u64, requestedAt: u64)

  datatype Selector = ById(id: Id) | ByKey(sourceKey: string, dedupeKey: string)

  /** Still cancellable, and still blocking its dedupe key. */
  predicate Open(row: Row) {
    row.status == Pending && row.emittedAt == None
  }

  predicate HasKey(row: Row, sourceKey: string, dedupeKey: string) {
    row.sourceKey == sourceKey && row.dedupeKey == Some(dedupeKey)
  }

  predicate Selected(t: Table, sel: Selector, id: Id) {
    id in t && Open(t[id]) && match sel
      case ById(x) => id == x
      case ByKey(s, k) => HasKey(t[id], s, k)
  }

  // The statements, each atomic in the database.

  function NewRow(req: Request): Row {
    Row(req.sourceKey, req.dedupeKey, req.payload, req.scoped, AsI64(req.scheduledFor), AsI64(req.requestedAt),
        Pending, None, None, None)
  }

  function Insert(t: Table, id: Id, req: Request): Table {
    t[id := NewRow(req)]
  }

  /** The row says what was asked for. */
  predicate Holds(row: Row, req: Request) {
    && row.sourceKey == req.sourceKey && row.dedupeKey == req.dedupeKey
    && row.payload == req.payload && row.scoped == req.scoped
    && row.scheduledFor == AsI64(req.scheduledFor) && row.requestedAt == AsI64(req.requestedAt)
    && row.deliveredAt == None && row.cancelledAt == None
  }

  /** Both rows speak of the same callback; statements only touch times and status. */
  predicate SameCallback(row: Row, row': Row) {
    row'.sourceKey == row.sourceKey && row'.dedupeKey == row.dedupeKey && row'.payload == row.payload && row'.scoped == row.scoped
  }

  function AtLeastZero(x: int): int {
    if x < 0 then 0 else x
  }

  /** The UPSERT of `cancel_callback` writes the whole row as it was read before. */
  function CancelWrite(t: Table, id: Id, read: Row, now: u64): Table {
    t[id := read.(scheduledFor := AtLeastZero(read.scheduledFor), requestedAt := AtLeastZero(read.requestedAt),
                  status := Cancelled, emittedAt := None, deliveredAt := None, cancelledAt := Some(AsI64(now)))]
  }

  /** A cancelled row: the callback as it was, times no earlier than zero, and the time of the cancel. */
  predicate IsCancelled(row: Row, row': Row, now: u64) {
    && SameCallback(row, row') && row'.status == Cancelled && row'.cancelledAt == Some(AsI64(now))
    && row'.emittedAt == None && row'.deliveredAt == None
    && row'.scheduledFor == (if row.scheduledFor < 0 then 0 else row.scheduledFor)
    && row'.requestedAt == (if row.requestedAt < 0 then 0 else row.requestedAt)
  }

  /** A delivered row: only status and time of delivery are new. */
  predicate IsDelivered(row: Row, row': Row, at: u64) {
    && SameCallback(row, row') && row'.scheduledFor == row.scheduledFor && row'.requestedAt == row.requestedAt
    && row'.emittedAt == row.emittedAt
    && row'.status == Delivered && row'.deliveredAt == Some(AsI64(at)) && row'.cancelledAt == None
  }

  /** An emitted row: only the time of emission is new. */
  predicate IsEmitted(row: Row, row': Row, at: u64) {
    && SameCallback(row, row') && row'.scheduledFor == row.scheduledFor && row'.requestedAt == row.requestedAt
    && row'.emittedAt == Some(AsI64(at))
    && row'.status == Pending && row'.deliveredAt == row.deliveredAt && row'.cancelledAt == row.cancelledAt
  }

  function DeliverUpdate(t: Table, ids: set<Id>, at: u64): Table {
    map id | id in t :: if id in ids && t[id].status == Pending
      then t[id].(status := Delivered, deliveredAt := Some(AsI64(at)), cancelledAt := None) else t[id]
  }

  /** The ids an emission claim finds pending, and those among them not yet emitted. */
  function Eligible(t: Table, ids: set<Id>): set<Id> {
    set id | id in ids && id in t && t[id].status == Pending
  }

  function FirstEmissions(t: Table, ids: set<Id>): set<Id> {
    set id | id in Eligible(t, ids) && t[id].emittedAt == None
  }

  function EmitUpdate(t: Table, ids: set<Id>, at: u64): Table {
    map id | id in t :: if id in ids && Open(t[id]) then t[id].(emittedAt := Some(AsI64(at))) else t[id]
  }

  /** The deletion made when the store is opened. */
  function Purge(t: Table): Table {
    map id | id in t && !(t[id].status == Pending && !t[id].scoped) :: t[id]
  }

  predicate Due(row: Row, now: u64) {
    row.status == Pending && row.scheduledFor <= AsI64(now)
  }

  /** The rows `list_due_callbacks` selects, with the column it orders them by. */
  function DueRows(t: Table, now: u64): map<Id, int> {
    map id | id in t && Due(t[id], now) :: t[id].scheduledFor
  }

  // What each statement does to the due queue.

  /** Scheduling adds the row if it is due. */
  lemma ScheduleAddsDue(t: Table, now: u64, id: Id, req: Request)
    requires id !in t
    ensures DueRows(Insert(t, id, req), now)
         == (if Due(NewRow(req), now) then DueRows(t, now)[id := AsI64(req.scheduledFor)] else DueRows(t, now))
  {
    var t' := Insert(t, id, req);
    assert forall x :: x in t && x != id ==> t'[x] == t[x];
  }

  /** Emitting leaves the row due, delivering takes it out. */
  lemma EmitKeepsDue(t: Table, now: u64, ids: set<Id>, at: u64)
    ensures DueRows(EmitUpdate(t, ids, at), now) == DueRows(t, now)
  {
    var t' := EmitUpdate(t, ids, at);
    assert forall x :: x in t ==> t'[x].status == t[x].status && t'[x].scheduledFor == t[x].scheduledFor;
  }

  lemma DeliverRemovesDue(t: Table, now: u64, ids: set<Id>, at: u64)
    ensures DueRows(DeliverUpdate(t, ids, at), now) == DueRows(t, now) - ids
  {
    var t' := DeliverUpdate(t, ids, at);
    assert forall x :: x in t ==> (t'[x].status == Pending <==> t[x].status == Pending && x !in ids);
  }

  lemma CancelRemovesDue(t: Table, now: u64, id: Id, read: Row, at: u64)
    ensures DueRows(CancelWrite(t, id, read, at), now) == DueRows(t, now) - {id}
  {
    var t' := CancelWrite(t, id, read, at);
    assert forall x :: x in t && x != id ==> t'[x] == t[x];
  }

  /** Stored times are signed: comparing them tells "scheduled no later than now" exactly when
      both times are below 2^63 or both are not. */
  lemma DueMeansScheduledBeforeNow(req: Request, now: u64)
    ensures (Due(NewRow(req), now) <==> req.scheduledFor <= now)
       <==> (req.scheduledFor as int < TWO63 <==> now as int < TWO63)
  {
  }

  /** So a callback scheduled for 2^63 is due at time zero, long before its time. */
  lemma FarFutureIsDue(req: Request)
    requires req.scheduledFor as int == TWO63
    ensures Due(NewRow(req), 0) && req.scheduledFor > 0
  {
  }

  /** Reopening the store keeps every callback that can be delivered: it drops just the pending rows
      without scheduling scope, whether due or not, and reopening again drops nothing more. */
  lemma ReopenKeepsDeliverable(t: Table, now: u64)
    ensures Purge(Purge(t)) == Purge(t)
    ensures forall id :: id in Purge(t) <==> id in t && (t[id].status != Pending || t[id].scoped)
    ensures forall id :: id in Purge(t) ==> Purge(t)[id] == t[id]
    ensures DueRows(Purge(t), now) == map id | id in DueRows(t, now) && t[id].scoped :: t[id].scheduledFor
  {
    var t' := Purge(t);
    assert forall id :: id in t' ==> t'[id] == t[id];
  }

  class CallbackStore {
    var table: Table

    constructor (persisted: Table)
      ensures table == Purge(persisted)
      ensures forall id :: id in table && Open(table[id]) ==> id in persisted && table[id] == persisted[id] && table[id].scoped
    {
      table := Purge(persisted);
    }

    /** `schedule_callback`, with or without a dedupe key; `newId` is the new UUID. */
    method Schedule(req: Request, newId: Id) returns (id: Id, created: bool)
      requires newId !in table
      modifies this
      ensures created ==> id == newId && table == Insert(old(table), id, req)
      ensures created ==> id in table && Holds(table[id], req) && Open(table[id])
      ensures forall x :: x in old(table) ==> x in table && table[x] == old(table)[x]
      ensures req.dedupeKey.Some? ==> Selected(table, ByKey(req.sourceKey, req.dedupeKey.value), id)
      ensures !created ==>
        && table == old(table) && id in table && Open(table[id])
        && table[id].sourceKey == req.sourceKey && table[id].dedupeKey == req.dedupeKey
      ensures created <==>
        || req.dedupeKey == None
        || forall x :: !Selected(old(table), ByKey(req.sourceKey, req.dedupeKey.value), x)
    {
      if req.dedupeKey.Some? {
        var sel := ByKey(req.sourceKey, req.dedupeKey.value);
        var existing := Find(sel);
        if existing.Some? { return existing.value, false; }
      }
      table := Insert(table, newId, req);
      id, created := newId, true;
    }

    method Find(sel: Selector) returns (found: Option<Id>)
      ensures found.Some? ==> Selected(table, sel, found.value)
      ensures found.None? ==> forall x :: !Selected(table, sel, x)
    {
      if exists id :: id in table && Selected(table, sel, id) {
        var id :| id in table && Selected(table, sel, id);
        return Some(id);
      }
      found := None;
    }

    method Cancel(sel: Selector, now: u64) returns (cancelled: Option<Id>)
      modifies this
      ensures cancelled.Some? ==>
        && Selected(old(table), sel, cancelled.value)
        && table == CancelWrite(old(table), cancelled.value, old(table)[cancelled.value], now)
      ensures cancelled.Some? ==> cancelled.value in table && IsCancelled(old(table)[cancelled.value], table[cancelled.value], now)
      ensures forall x :: Some(x) != cancelled ==> (x in table <==> x in old(table)) && (x in table ==> table[x] == old(table)[x])
      ensures cancelled.None? ==> table == old(table) && forall x :: !Selected(table, sel, x)
    {
      cancelled := Find(sel);
      if cancelled.Some? {
        table := CancelWrite(table, cancelled.value, table[cancelled.value], now);
      }
    }

    method ListDue(now: u64, limit: nat) returns (out: seq<Id>)
      ensures IsAnswer(DueRows(table, now), limit, out)
      ensures forall x :: x in out ==> x in table && table[x].status == Pending && table[x].scheduledFor <= AsI64(now)
      ensures |out| < limit ==> forall x :: x in table && table[x].status == Pending && table[x].scheduledFor <= AsI64(now) ==> x in out
      ensures forall i, j :: 0 <= i < j < |out| ==> table[out[i]].scheduledFor <= table[out[j]].scheduledFor
    {
      out := Answer(DueRows(table, now), limit);
      AnswerInOrder(DueRows(table, now), limit, out);
      assert forall x :: x in table && table[x].status == Pending && table[x].scheduledFor <= AsI64(now) ==> x in DueRows(table, now);
    }

    method MarkDelivered(ids: set<Id>, at: u64)
      modifies this
      ensures table == DeliverUpdate(old(table), ids, at)
      ensures table.Keys == old(table).Keys
      ensures forall x :: x in table ==>
        if x in ids && old(table)[x].status == Pending then IsDelivered(old(table)[x], table[x], at) else table[x] == old(table)[x]
      ensures forall now :: DueRows(table, now) == DueRows(old(table), now) - ids
      ensures forall sel, x :: Selected(table, sel, x) <==> Selected(old(table), sel, x) && x !in ids
    {
      forall now ensures DueRows(DeliverUpdate(table, ids, at), now) == DueRows(table, now) - ids {
        DeliverRemovesDue(table, now, ids, at);
      }
      if ids == {} {
        assert table == DeliverUpdate(table, ids, at);
        return;
      }
      table := DeliverUpdate(table, ids, at);
    }

    /** Returns every named id that is pending, emitted before or not. */
    method MarkEmitted(ids: set<Id>, at: u64) returns (claimed: set<Id>)
      modifies this
      ensures claimed == Eligible(old(table), ids)
      ensures table == EmitUpdate(old(table), ids, at)
      ensures forall x :: x in claimed <==> x in ids && x in table && table[x].status == Pending
      ensures table.Keys == old(table).Keys
      ensures forall x :: x in table ==>
        if x in ids && Open(old(table)[x]) then IsEmitted(old(table)[x], table[x], at) else table[x] == old(table)[x]
    {
      if ids == {} {
        assert table == EmitUpdate(table, ids, at);
        return {};
      }
      claimed := Eligible(table, ids);
      var first := FirstEmissions(table, ids);
      assert EmitUpdate(table, first, at) == EmitUpdate(table, ids, at);
      if first != {} {
        table := EmitUpdate(table, first, at);
      } else {
        assert table == EmitUpdate(table, first, at);
      }
    }
  }
}
