/** The ingress inbox: rows, statements and operations
    (crates/baml-agent-runner/src/deployment_state.rs:288-473). */
module IngressInbox {
  import opened Options
  import opened OrderedQuery

  datatype Status = Pending | Emitted | Delivered

  /** A row as stored; `sourceKind` is absent in rows older than the column. */
  datatype Row = Row(
    sourceKind: Option<string>,
    sourceKey: string,
    payload: string,
    enqueuedAt: int,
    status: Status,
    emittedAt: Option<int>,
    deliveredAt: Option<int>)

  type Table = map<Id, Row>

  datatype Item = Item(id: Id, sourceKind: string, sourceKey: string, payload: string, enqueuedAt: nat)

  const I64_MAX := 0x7FFF_FFFF_FFFF_FFFF

  /** `unix_ms_to_db_int`: times that do not fit are refused. */
  function ToDbInt(ms: nat): (r: Option<int>)
    ensures r.Some? <==> ms < 0x8000_0000_0000_0000
    ensures r.Some? ==> r.value == ms
  {
    if ms <= I64_MAX then Some(ms) else None
  }

  // The statements.

  function Create(t: Table, item: Item, at: int): Table {
    t[item.id := Row(Some(item.sourceKind), item.sourceKey, item.payload, at, Pending, None, None)]
  }

  /** The row says what was enqueued. */
  predicate Says(row: Row, item: Item) {
    && row.sourceKind == Some(item.sourceKind) && row.sourceKey == item.sourceKey && row.payload == item.payload
    && row.enqueuedAt == item.enqueuedAt && row.deliveredAt == None
  }

  /** Statements after the enqueueing only touch status and times. */
  predicate SameItem(row: Row, row': Row) {
    && row'.sourceKind == row.sourceKind && row'.sourceKey == row.sourceKey && row'.payload == row.payload
    && row'.enqueuedAt == row.enqueuedAt
  }

  predicate Stale(row: Row, cutoff: int) {
    row.status == Emitted && row.emittedAt.Some? && row.emittedAt.value <= cutoff
  }

  function Requeued(t: Table, cutoff: int): set<Id> {
    set id | id in t && Stale(t[id], cutoff)
  }

  function Requeue(t: Table, cutoff: int): Table {
    map id | id in t :: if Stale(t[id], cutoff) then t[id].(status := Pending, emittedAt := None) else t[id]
  }

  predicate Claimable(row: Row) {
    row.status == Pending && row.emittedAt == None
  }

  function Claimed(t: Table, ids: set<Id>): set<Id> {
    set id | id in ids && id in t && Claimable(t[id])
  }

  function Claim(t: Table, ids: set<Id>, at: int): Table {
    map id | id in t :: if id in ids && Claimable(t[id])
      then t[id].(status := Emitted, emittedAt := Some(at)) else t[id]
  }

  function NewlyDelivered(t: Table, ids: set<Id>): set<Id> {
    set id | id in ids && id in t && t[id].status != Delivered
  }

  function Deliver(t: Table, ids: set<Id>, at: int): Table {
    map id | id in t :: if id in ids && t[id].status != Delivered
      then t[id].(status := Delivered, deliveredAt := Some(at)) else t[id]
  }

  /** The rows `list_pending_ingress_items` selects. */
  function PendingRows(t: Table, kinds: set<string>): map<Id, int> {
    map id | id in t && Claimable(t[id]) && t[id].sourceKind.Some? && t[id].sourceKind.value in kinds :: t[id].enqueuedAt
  }

  /** A row of one of the kinds that nobody has claimed or delivered. */
  predicate Waits(row: Row, kinds: set<string>) {
    row.status == Pending && row.emittedAt == None && exists kind :: kind in kinds && row.sourceKind == Some(kind)
  }

  // What each statement does to the rows a lister sees.

  lemma CreateAddsPending(t: Table, kinds: set<string>, item: Item, at: int)
    requires item.id !in t
    ensures PendingRows(Create(t, item, at), kinds)
         == (if item.sourceKind in kinds then PendingRows(t, kinds)[item.id := at] else PendingRows(t, kinds))
  {
    var t' := Create(t, item, at);
    assert forall x :: x in t && x != item.id ==> t'[x] == t[x];
  }

  lemma ClaimRemovesPending(t: Table, kinds: set<string>, ids: set<Id>, at: int)
    ensures PendingRows(Claim(t, ids, at), kinds) == PendingRows(t, kinds) - ids
  {
    var t' := Claim(t, ids, at);
    assert forall x :: x in t ==> (Claimable(t'[x]) <==> Claimable(t[x]) && x !in ids);
    assert forall x :: x in t ==> t'[x].sourceKind == t[x].sourceKind && t'[x].enqueuedAt == t[x].enqueuedAt;
  }

  lemma DeliverRemovesPending(t: Table, kinds: set<string>, ids: set<Id>, at: int)
    ensures PendingRows(Deliver(t, ids, at), kinds) == PendingRows(t, kinds) - ids
  {
    var t' := Deliver(t, ids, at);
    assert forall x :: x in t ==> (Claimable(t'[x]) <==> Claimable(t[x]) && x !in ids);
    assert forall x :: x in t ==> t'[x].sourceKind == t[x].sourceKind && t'[x].enqueuedAt == t[x].enqueuedAt;
  }

  /** A crashed dispatcher loses nothing: requeueing everything claimed up to `at` undoes a claim
      made at `at`, row for row. */
  lemma RequeueUndoesClaim(t: Table, ids: set<Id>, at: int)
    requires Requeued(t, at) == {}
    ensures Requeue(Claim(t, ids, at), at) == t
  {
    var t' := Claim(t, ids, at);
    forall x | x in t ensures Requeue(t', at)[x] == t[x] {
      assert x !in Requeued(t, at);
    }
  }

  class IngressStore {
    var table: Table

    constructor (persisted: Table)
      ensures table == persisted
    {
      table := persisted;
    }

    method Enqueue(item: Item) returns (r: Option<bool>)
      modifies this
      ensures r == Some(true) ==> item.id !in old(table) && table == Create(old(table), item, item.enqueuedAt)
      ensures r == Some(true) ==> item.id in table && Claimable(table[item.id]) && Says(table[item.id], item)
      ensures r == Some(true) ==> table.Keys == old(table).Keys + {item.id} && forall x :: x in old(table) ==> table[x] == old(table)[x]
      ensures r != Some(true) ==> table == old(table)
      ensures r == Some(false) <==> item.id in old(table)
      ensures r == None <==> item.id !in old(table) && item.enqueuedAt > I64_MAX
    {
      if item.id in table { return Some(false); }
      var at := ToDbInt(item.enqueuedAt);
      if at == None { return None; }
      table := Create(table, item, at.value);
      r := Some(true);
    }

    method ListPending(kinds: set<string>, limit: nat) returns (out: seq<Id>)
      ensures IsAnswer(PendingRows(table, kinds), limit, out)
      ensures forall x :: x in out ==> x in table && Waits(table[x], kinds)
      ensures |out| < limit ==> forall x :: x in table && Waits(table[x], kinds) ==> x in out
      ensures forall i, j :: 0 <= i < j < |out| ==> table[out[i]].enqueuedAt <= table[out[j]].enqueuedAt
    {
      out := Answer(PendingRows(table, kinds), limit);
      AnswerInOrder(PendingRows(table, kinds), limit, out);
      assert forall x :: x in table && Waits(table[x], kinds) ==> x in PendingRows(table, kinds);
    }

    method RequeueStale(cutoff: nat) returns (count: Option<nat>)
      modifies this
      ensures count == None <==> cutoff > I64_MAX
      ensures count == None ==> table == old(table)
      ensures count.Some? ==> table == Requeue(old(table), cutoff) && count.value == |Requeued(old(table), cutoff)|
      ensures table.Keys == old(table).Keys
      ensures count.Some? ==> forall x :: x in table ==>
        var row, row' := old(table)[x], table[x];
        if row.status == Emitted && row.emittedAt.Some? && row.emittedAt.value <= cutoff
        then SameItem(row, row') && row'.status == Pending && row'.emittedAt == None && row'.deliveredAt == row.deliveredAt
        else row' == row
    {
      var at := ToDbInt(cutoff);
      if at == None { return None; }
      count := Some(|Requeued(table, at.value)|);
      table := Requeue(table, at.value);
    }

    method MarkEmitted(ids: set<Id>, at: nat) returns (claimed: Option<set<Id>>)
      modifies this
      ensures claimed == None <==> ids != {} && at > I64_MAX
      ensures claimed == None ==> table == old(table)
      ensures claimed.Some? ==> claimed.value == Claimed(old(table), ids) && table == Claim(old(table), ids, at)
      ensures claimed.Some? ==> forall x :: x in claimed.value <==> x in ids && x in old(table) && Claimable(old(table)[x])
      ensures table.Keys == old(table).Keys
      ensures claimed.Some? ==> forall x :: x in table ==>
        var row, row' := old(table)[x], table[x];
        if x in claimed.value
        then SameItem(row, row') && row'.status == Emitted && row'.emittedAt == Some(at) && row'.deliveredAt == row.deliveredAt
        else row' == row
    {
      if ids == {} {
        assert table == Claim(table, ids, at);
        return Some({});
      }
      var stored := ToDbInt(at);
      if stored == None { return None; }
      claimed := Some(Claimed(table, ids));
      table := Claim(table, ids, stored.value);
    }

    method MarkDelivered(ids: set<Id>, at: nat) returns (ok: bool)
      modifies this
      ensures !ok <==> ids != {} && at > I64_MAX
      ensures !ok ==> table == old(table)
      ensures ok ==> table == Deliver(old(table), ids, at)
      ensures table.Keys == old(table).Keys
      ensures ok ==> forall x :: x in table ==>
        var row, row' := old(table)[x], table[x];
        if x in ids && row.status != Delivered
        then SameItem(row, row') && row'.status == Delivered && row'.deliveredAt == Some(at) && row'.emittedAt == row.emittedAt
        else row' == row
    {
      if ids == {} {
        assert table == Deliver(table, ids, at);
        return true;
      }
      var stored := ToDbInt(at);
      if stored == None { return false; }
      table := Deliver(table, ids, stored.value);
      ok := true;
    }
  }
}
