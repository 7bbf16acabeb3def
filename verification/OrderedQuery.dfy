/** `SELECT … ORDER BY <int column> ASC, <id> ASC LIMIT n`, as both inbox queries use it. The
    rows that satisfy the WHERE clause are given as a map from id to the ordering column. */
module OrderedQuery {
  import opened Orders

  type Id = string

  predicate Before(key: map<Id, int>, a: Id, b: Id)
    requires a in key && b in key
  {
    key[a] < key[b] || (key[a] == key[b] && StrLt(a, b))
  }

  /** `out` answers the query: matching rows in order, at most `limit`, none skipped. */
  ghost predicate IsAnswer(key: map<Id, int>, limit: nat, out: seq<Id>) {
    && (forall k :: 0 <= k < |out| ==> out[k] in key)
    && (forall i, j :: 0 <= i < j < |out| ==> Before(key, out[i], out[j]))
    && |out| <= limit
    && (forall id :: id in key && id !in out ==>
          |out| == limit && forall k :: 0 <= k < |out| ==> Before(key, out[k], id))
  }

  /** Read off the rows: what comes out is in ascending order of the column, ties by id; there is no more
      of it than the limit; and a row that is left out means that the limit is reached by rows with
      smaller values, or equal ones and smaller ids. */
  lemma AnswerInOrder(key: map<Id, int>, limit: nat, out: seq<Id>)
    requires IsAnswer(key, limit, out)
    ensures |out| <= limit && forall k :: 0 <= k < |out| ==> out[k] in key
    ensures forall i, j :: 0 <= i < j < |out| ==>
              key[out[i]] <= key[out[j]] && (key[out[i]] == key[out[j]] ==> exists n: nat :: DiffersAt(out[i], out[j], n))
    ensures forall id, k :: id in key && id !in out && 0 <= k < |out| ==>
              key[out[k]] <= key[id] && (key[out[k]] == key[id] ==> exists n: nat :: DiffersAt(out[k], id, n))
    ensures (exists id :: id in key && id !in out) ==> |out| == limit
  {
    forall a, b | a in key && b in key && Before(key, a, b)
      ensures key[a] <= key[b] && (key[a] == key[b] ==> exists n: nat :: DiffersAt(a, b, n))
    {
      StrLtIff(a, b);
    }
  }

  ghost function Earlier(key: map<Id, int>, id: Id): set<Id>
    requires id in key
  {
    set x | x in key && Before(key, x, id)
  }

  lemma BeforeIrreflexive(key: map<Id, int>, a: Id)
    requires a in key
    ensures !Before(key, a, a)
  {
    StrLtIrreflexive(a);
  }

  lemma BeforeTransitive(key: map<Id, int>, a: Id, b: Id, c: Id)
    requires a in key && b in key && c in key && Before(key, a, b) && Before(key, b, c)
    ensures Before(key, a, c)
  {
    if key[a] == key[b] == key[c] { StrLtTransitive(a, b, c); }
  }

  lemma {:induction false} ElementsOfDistinct(s: seq<Id>)
    requires forall i, j :: 0 <= i < j < |s| ==> s[i] != s[j]
    ensures |set x | x in s| == |s|
  {
    if s != [] {
      var front, last := s[..|s| - 1], s[|s| - 1];
      ElementsOfDistinct(front);
      assert (set x | x in s) == (set x | x in front) + {last};
    }
  }

  lemma AnswerDistinct(key: map<Id, int>, limit: nat, out: seq<Id>)
    requires IsAnswer(key, limit, out)
    ensures forall i, j :: 0 <= i < j < |out| ==> out[i] != out[j]
  {
    forall i, j | 0 <= i < j < |out| ensures out[i] != out[j] { BeforeIrreflexive(key, out[i]); }
  }

  lemma {:induction false} SubsetSize(a: set<Id>, b: set<Id>)
    requires a <= b
    ensures |a| <= |b|
  {
    if a != {} {
      var x :| x in a;
      SubsetSize(a - {x}, b - {x});
    }
  }

  lemma EarlierAreListed(key: map<Id, int>, limit: nat, out: seq<Id>, k: nat)
    requires IsAnswer(key, limit, out) && k < |out|
    ensures forall x :: x in Earlier(key, out[k]) ==> x in out[..k]
  {
    var id := out[k];
    forall x | x in Earlier(key, id) ensures x in out[..k] {
      BeforeIrreflexive(key, id);
      if x !in out {
        BeforeTransitive(key, id, x, id);
      } else {
        var i :| 0 <= i < |out| && out[i] == x;
        if i > k { BeforeTransitive(key, id, x, id); }
        assert out[..k][i] == x;
      }
    }
  }

  /** A matching row is in the answer exactly when fewer than `limit` matching rows come before
      it. */
  lemma ListedIffRankBelowLimit(key: map<Id, int>, limit: nat, out: seq<Id>, id: Id)
    requires IsAnswer(key, limit, out) && id in key
    ensures id in out <==> |Earlier(key, id)| < limit
  {
    AnswerDistinct(key, limit, out);
    if id in out {
      var k :| 0 <= k < |out| && out[k] == id;
      ElementsOfDistinct(out[..k]);
      EarlierAreListed(key, limit, out, k);
      SubsetSize(Earlier(key, id), (set x | x in out[..k]));
    } else {
      ElementsOfDistinct(out);
      SubsetSize((set x | x in out), Earlier(key, id));
    }
  }

  /** With room for every row the answer is complete. */
  lemma UnlimitedListsAll(key: map<Id, int>, limit: nat, out: seq<Id>, id: Id)
    requires IsAnswer(key, limit, out) && id in key && |key| <= limit
    ensures id in out
  {
    BeforeIrreflexive(key, id);
    assert Earlier(key, id) <= key.Keys - {id};
    SubsetSize(Earlier(key, id), key.Keys - {id});
    ListedIffRankBelowLimit(key, limit, out, id);
  }

  ghost predicate Ordered(key: map<Id, int>, s: seq<Id>) {
    && (forall i :: 0 <= i < |s| ==> s[i] in key)
    && (forall i, j :: 0 <= i < j < |s| ==> Before(key, s[i], s[j]))
  }

  function InsertOrdered(key: map<Id, int>, id: Id, s: seq<Id>): (r: seq<Id>)
    requires id in key && id !in s && Ordered(key, s)
    ensures Ordered(key, r) && forall x :: x in r <==> x == id || x in s
  {
    if s == [] then [id]
    else if Before(key, id, s[0]) then
      InsertFront(key, id, s);
      [id] + s
    else
      var rest := InsertOrdered(key, id, s[1..]);
      InsertBehind(key, id, s, rest);
      [s[0]] + rest
  }

  lemma InsertFront(key: map<Id, int>, id: Id, s: seq<Id>)
    requires s != [] && id in key && Ordered(key, s) && Before(key, id, s[0])
    ensures forall j :: 0 <= j < |s| ==> Before(key, id, s[j])
  {
    forall j | 0 <= j < |s| ensures Before(key, id, s[j]) {
      if j > 0 { BeforeTransitive(key, id, s[0], s[j]); }
    }
  }

  lemma InsertBehind(key: map<Id, int>, id: Id, s: seq<Id>, rest: seq<Id>)
    requires s != [] && id in key && id !in s && Ordered(key, s) && !Before(key, id, s[0])
    requires forall x :: x in rest <==> x == id || x in s[1..]
    ensures forall j :: 0 <= j < |rest| ==> rest[j] in key && Before(key, s[0], rest[j])
  {
    forall j | 0 <= j < |rest| ensures rest[j] in key && Before(key, s[0], rest[j]) {
      assert rest[j] in rest;
      StrLtTotal(id, s[0]);
      if rest[j] != id {
        var i :| 0 <= i < |s[1..]| && s[1..][i] == rest[j];
        assert s[i + 1] == rest[j];
      }
    }
  }

  /** An answer always exists; the database's choice is unique but its plan is not modelled. */
  method Answer(key: map<Id, int>, limit: nat) returns (out: seq<Id>)
    ensures IsAnswer(key, limit, out)
  {
    var all: seq<Id> := [];
    var left := key.Keys;
    while left != {}
      invariant left <= key.Keys && Ordered(key, all)
      invariant forall id :: id in key ==> (id in all <==> id !in left)
      decreases |left|
    {
      var id :| id in left;
      all := InsertOrdered(key, id, all);
      left := left - {id};
    }
    out := if |all| <= limit then all else all[..limit];
    forall id | id in key && id !in out
      ensures |out| == limit && forall k :: 0 <= k < |out| ==> Before(key, out[k], id)
    {
      var j :| 0 <= j < |all| && all[j] == id;
      assert j >= |out|;
    }
  }
}
