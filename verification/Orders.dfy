/** Orders on strings and sorting by a comparison: what Rust's `str::cmp`,
    `sort_by` and `sort` promise, as far as the other modules rely on it. */
module Orders {

  /** Rust's `a < b` on `str`: lexicographic by scalar value. */
  predicate StrLt(a: string, b: string) {
    b != [] && (a == [] || a[0] < b[0] || (a[0] == b[0] && StrLt(a[1..], b[1..])))
  }

  lemma {:induction false} StrLtIrreflexive(a: string)
    ensures !StrLt(a, a)
  {
    if a != [] { StrLtIrreflexive(a[1..]); }
  }

  /** The texts agree up to `i`, where `a` ends or has the smaller character. */
  predicate DiffersAt(a: string, b: string, i: nat) {
    i < |b| && i <= |a| && a[..i] == b[..i] && (i == |a| || a[i] < b[i])
  }

  lemma {:induction false} StrLtIff(a: string, b: string)
    ensures StrLt(a, b) <==> exists i: nat :: DiffersAt(a, b, i)
  {
    if a == [] || b == [] || a[0] < b[0] {
      if b != [] { assert DiffersAt(a, b, 0); }
    } else {
      StrLtIff(a[1..], b[1..]);
      if a[0] == b[0] {
        forall i: nat | DiffersAt(a[1..], b[1..], i) ensures DiffersAt(a, b, i + 1) {
          assert a[..i + 1] == [a[0]] + a[1..][..i] && b[..i + 1] == [b[0]] + b[1..][..i];
        }
        forall i: nat | DiffersAt(a, b, i) ensures i > 0 && DiffersAt(a[1..], b[1..], i - 1) {
          assert a[1..][..i - 1] == a[..i][1..] && b[1..][..i - 1] == b[..i][1..];
        }
      } else {
        forall i: nat | 0 < i <= |a| && i <= |b| ensures a[..i] != b[..i] {
          assert a[..i][0] == a[0] && b[..i][0] == b[0];
        }
      }
    }
  }

  lemma {:induction false} StrLtTotal(a: string, b: string)
    ensures a == b || StrLt(a, b) || StrLt(b, a)
  {
    if a != [] && b != [] && a[0] == b[0] {
      StrLtTotal(a[1..], b[1..]);
      assert a == [a[0]] + a[1..] && b == [b[0]] + b[1..];
    }
  }

  lemma {:induction false} StrLtTransitive(a: string, b: string, c: string)
    requires StrLt(a, b) && StrLt(b, c)
    ensures StrLt(a, c)
  {
    if a != [] && a[0] == b[0] && b[0] == c[0] {
      StrLtTransitive(a[1..], b[1..], c[1..]);
    }
  }

  lemma {:induction false} LengthsBounded(names: set<string>) returns (n: nat)
    ensures forall s :: s in names ==> |s| <= n
  {
    n := 0;
    if names != {} {
      var s :| s in names;
      n := LengthsBounded(names - {s});
      if n < |s| { n := |s|; }
    }
  }

  /** There is always another name. */
  lemma FreshName(names: set<string>) returns (s: string)
    ensures s !in names
  {
    var n := LengthsBounded(names);
    s := seq(n + 1, i => 'x');
  }

  /** What a comparison handed to `sort_by` has to satisfy. */
  ghost predicate WeakOrder<T(!new)>(lt: (T, T) -> bool) {
    && (forall x, y :: lt(x, y) ==> !lt(y, x))
    && (forall x, y, z :: lt(x, z) ==> lt(x, y) || lt(y, z))
  }

  lemma StrLtWeakOrder()
    ensures WeakOrder(StrLt)
  {
    forall x, y | StrLt(x, y) ensures !StrLt(y, x) {
      if StrLt(y, x) { StrLtTransitive(x, y, x); StrLtIrreflexive(x); }
    }
    forall x, y, z | StrLt(x, z) ensures StrLt(x, y) || StrLt(y, z) {
      StrLtTotal(x, y);
      if StrLt(y, x) { StrLtTransitive(y, x, z); }
    }
  }

  ghost predicate Sorted<T>(lt: (T, T) -> bool, s: seq<T>) {
    forall i, j :: 0 <= i < j < |s| ==> !lt(s[j], s[i])
  }

  function InsertBy<T>(lt: (T, T) -> bool, x: T, s: seq<T>): (r: seq<T>)
    ensures multiset(r) == multiset{x} + multiset(s)
  {
    if s == [] || !lt(s[0], x) then [x] + s
    else
      assert s == [s[0]] + s[1..];
      [s[0]] + InsertBy(lt, x, s[1..])
  }

  /** A stable sort, standing for Rust's `sort_by` (and `sort`). */
  function SortBy<T>(lt: (T, T) -> bool, s: seq<T>): (r: seq<T>)
    ensures multiset(r) == multiset(s)
  {
    if s == [] then []
    else
      assert s == [s[0]] + s[1..];
      InsertBy(lt, s[0], SortBy(lt, s[1..]))
  }

  lemma {:induction false} InsertBySorted<T(!new)>(lt: (T, T) -> bool, x: T, s: seq<T>)
    requires WeakOrder(lt) && Sorted(lt, s)
    ensures Sorted(lt, InsertBy(lt, x, s))
  {
    if s != [] {
      if !lt(s[0], x) {
        forall j | 0 <= j < |s| ensures !lt(s[j], x) {
          assert j == 0 || !lt(s[j], s[0]);
        }
      } else {
        InsertBySorted(lt, x, s[1..]);
        var r := InsertBy(lt, x, s[1..]);
        forall j | 0 <= j < |r| ensures !lt(r[j], s[0]) {
          assert r[j] in multiset(r);
          assert r[j] == x || r[j] in s[1..];
        }
      }
    }
  }

  lemma {:induction false} SortBySorted<T(!new)>(lt: (T, T) -> bool, s: seq<T>)
    requires WeakOrder(lt)
    ensures Sorted(lt, SortBy(lt, s))
  {
    if s != [] {
      SortBySorted(lt, s[1..]);
      InsertBySorted(lt, s[0], SortBy(lt, s[1..]));
    }
  }

  /** Sorted strictly by a text key. */
  ghost predicate StrictBy<T>(key: T -> string, s: seq<T>) {
    forall i, j :: 0 <= i < j < |s| ==> StrLt(key(s[i]), key(s[j]))
  }

  lemma StrictHead<T>(key: T -> string, s: seq<T>)
    requires s != [] && StrictBy(key, s)
    ensures forall x :: x in s[1..] <==> x in s && x != s[0]
  {
    StrLtIrreflexive(key(s[0]));
    assert s == [s[0]] + s[1..];
  }

  /** Two sequences strictly sorted by the same key and with the same members are equal: whatever
      order the members arrived in does not matter. */
  lemma {:induction false} StrictUnique<T>(key: T -> string, a: seq<T>, b: seq<T>)
    requires StrictBy(key, a) && StrictBy(key, b) && forall x :: x in a <==> x in b
    ensures a == b
  {
    if a == [] {
      if b != [] { HasMember(b); }
    } else {
      HasMember(a);
      assert a[0] in b && b[0] in a;
      StrLtWeakOrder();
      assert a[0] == b[0];
      StrictHead(key, a);
      StrictHead(key, b);
      StrictUnique(key, a[1..], b[1..]);
      assert a == [a[0]] + a[1..] && b == [b[0]] + b[1..];
    }
  }

  lemma RepeatedElement<T>(s: seq<T>, i: nat, j: nat)
    requires i < j < |s| && s[i] == s[j]
    ensures multiset(s)[s[i]] >= 2
  {
    assert s == s[..j] + [s[j]] + s[j + 1..];
    assert s[i] in s[..j];
  }

  lemma HasMember<T>(s: seq<T>)
    requires s != []
    ensures exists x :: x in s
  {
    assert s[0] in s;
  }

  lemma SortByMembers<T>(lt: (T, T) -> bool, s: seq<T>)
    ensures forall x :: x in SortBy(lt, s) <==> x in s
    ensures |SortBy(lt, s)| == |s|
  {
    var r := SortBy(lt, s);
    assert |multiset(r)| == |multiset(s)|;
    forall x ensures x in r <==> x in s {
      assert x in r <==> x in multiset(r);
      assert x in s <==> x in multiset(s);
    }
  }

  /** The first element after sorting is one that nothing comes before. */
  lemma FirstIsLeast<T(!new)>(lt: (T, T) -> bool, s: seq<T>)
    requires WeakOrder(lt) && s != []
    ensures SortBy(lt, s) != [] && SortBy(lt, s)[0] in s
    ensures forall y :: y in s ==> !lt(y, SortBy(lt, s)[0])
  {
    var r := SortBy(lt, s);
    SortByMembers(lt, s);
    SortBySorted(lt, s);
    forall y | y in s ensures !lt(y, r[0]) {
      var j :| 0 <= j < |r| && r[j] == y;
      assert j == 0 || !lt(r[j], r[0]);
    }
  }
}
