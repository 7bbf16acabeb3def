/** Canonical tool ids: one id per family of a bundle
    (crates/agentium/src/tool_catalog.rs:182-238). */
module ToolCatalog {
  import opened Options
  import opened Orders

  function IndexOfSlash(id: string): (i: nat)
    ensures i <= |id|
    ensures i < |id| ==> id[i] == '/'
    ensures forall k :: 0 <= k < i ==> id[k] != '/'
  {
    if id == [] || id[0] == '/' then 0 else 1 + IndexOfSlash(id[1..])
  }

  /** `split_tool_id`: the parts around the first slash, if both are there. */
  function Split(id: string): Option<(string, string)> {
    var i := IndexOfSlash(id);
    if i == |id| || i == 0 || i == |id| - 1 then None else Some((id[..i], id[i + 1..]))
  }

  /** Splitting loses nothing and finds the first slash. */
  lemma SplitExact(id: string, bundle: string, rest: string)
    ensures Split(id) == Some((bundle, rest))
       <==> bundle != "" && rest != "" && '/' !in bundle && id == bundle + "/" + rest
  {
    var i := IndexOfSlash(id);
    if id == bundle + "/" + rest && '/' !in bundle {
      assert id[|bundle|] == '/';
      assert forall k :: 0 <= k < |bundle| ==> id[k] == bundle[k] && bundle[k] in bundle;
      assert i == |bundle|;
      assert id[..i] == bundle && id[i + 1..] == rest;
    }
    if Split(id).Some? {
      assert id == id[..i] + "/" + id[i + 1..];
    }
  }

  /** `family_root`: up to the first ASCII capital. */
  function FamilyRoot(name: string): (root: string)
    ensures root <= name
    ensures forall k :: 0 <= k < |root| ==> !('A' <= root[k] <= 'Z')
    ensures root == name || 'A' <= name[|root|] <= 'Z'
  {
    if name == [] || 'A' <= name[0] <= 'Z' then []
    else [name[0]] + FamilyRoot(name[1..])
  }

  /** How many bits a UTF-8 sequence of `n` bytes carries, two to the power of it: 7, 11, 16 or 21. */
  function Utf8Limit(n: nat): int {
    if n == 0 then 0 else if n == 1 then 0x80 else if n == 2 then 0x800 else 0x20 * Utf8Limit(n - 1)
  }

  /** The shortest sequence that can hold the character. */
  function Utf8Width(c: char): (n: nat)
    ensures 1 <= n <= 4 && Utf8Limit(n - 1) <= c as int < Utf8Limit(n)
  {
    if c as int < 0x80 then 1 else if c as int < 0x800 then 2 else if c as int < 0x1_0000 then 3 else 4
  }

  /** Rust's `str::len` counts bytes. */
  function ByteLen(s: string): (n: nat)
    ensures |s| <= n <= 4 * |s|
  {
    if s == [] then 0 else Utf8Width(s[0]) + ByteLen(s[1..])
  }

  type Family = (string, string)

  function FamilyOf(id: string): Option<Family> {
    match Split(id) case Some((bundle, name)) => Some((bundle, FamilyRoot(name))) case None => None
  }

  function LocalName(id: string): string {
    match Split(id) case Some((_, name)) => name case None => ""
  }

  /** The order a family is sorted by: the root itself first, then shorter names, then text. */
  predicate Preferred(root: string, a: string, b: string) {
    var la, lb := LocalName(a), LocalName(b);
    if (la == root) != (lb == root) then la == root
    else if ByteLen(la) != ByteLen(lb) then ByteLen(la) < ByteLen(lb)
    else StrLt(a, b)
  }

  lemma PreferredWeakOrder(root: string)
    ensures WeakOrder((a, b) => Preferred(root, a, b))
    ensures forall a, b :: a != b ==> Preferred(root, a, b) || Preferred(root, b, a)
  {
    StrLtWeakOrder();
    forall a: string, b: string | a != b ensures Preferred(root, a, b) || Preferred(root, b, a) {
      StrLtTotal(a, b);
    }
  }

  /** The member of its family that survives. */
  ghost predicate IsBest(ids: seq<string>, id: string) {
    && id in ids
    && forall y :: y in ids && FamilyOf(id).Some? && FamilyOf(y) == FamilyOf(id) ==>
         !Preferred(FamilyOf(id).value.1, y, id)
  }

  /** What canonicalisation must deliver: strictly sorted, and holding exactly the unsplittable
      ids and the best id of every family. */
  ghost predicate IsCanonical(ids: seq<string>, out: seq<string>) {
    && (forall i, j :: 0 <= i < j < |out| ==> StrLt(out[i], out[j]))
    && (forall id :: id in out <==> IsBest(ids, id))
  }

  /** `Vec::dedup`. */
  function Dedup(s: seq<string>): seq<string> {
    if |s| <= 1 then s
    else if s[0] == s[1] then Dedup(s[1..])
    else [s[0]] + Dedup(s[1..])
  }

  lemma {:induction false} DedupMembers(s: seq<string>)
    ensures forall x :: x in Dedup(s) <==> x in s
    ensures s != [] ==> Dedup(s) != [] && Dedup(s)[0] == s[0]
  {
    if |s| > 1 {
      DedupMembers(s[1..]);
      assert s == [s[0]] + s[1..];
    }
  }

  lemma {:induction false} DedupStrict(s: seq<string>)
    requires Sorted(StrLt, s)
    ensures forall i, j :: 0 <= i < j < |Dedup(s)| ==> StrLt(Dedup(s)[i], Dedup(s)[j])
  {
    if |s| > 1 {
      DedupStrict(s[1..]);
      if s[0] != s[1] {
        var rest := Dedup(s[1..]);
        forall j | 0 <= j < |rest| ensures StrLt(s[0], rest[j]) {
          DedupMembers(s[1..]);
          assert rest[j] in rest;
          var k :| 1 <= k < |s| && s[k] == rest[j];
          StrLtTotal(s[0], s[1]);
          StrLtTotal(s[1], s[k]);
          if k > 1 && StrLt(s[1], s[k]) { StrLtTransitive(s[0], s[1], s[k]); }
        }
      }
    }
  }

  /** The ids of one family, in order of appearance. */
  function Members(ids: seq<string>, f: Option<Family>): seq<string> {
    if ids == [] then []
    else Members(ids[..|ids| - 1], f) + if FamilyOf(ids[|ids| - 1]) == f then [ids[|ids| - 1]] else []
  }

  lemma {:induction false} MembersOf(ids: seq<string>, f: Option<Family>)
    ensures forall x :: x in Members(ids, f) <==> x in ids && FamilyOf(x) == f
  {
    if ids != [] {
      MembersOf(ids[..|ids| - 1], f);
      assert ids == ids[..|ids| - 1] + [ids[|ids| - 1]];
    }
  }

  method GroupByFamily(ids: seq<string>) returns (groups: map<Family, seq<string>>, passthrough: seq<string>)
    ensures passthrough == Members(ids, None)
    ensures forall f :: f in groups ==> groups[f] == Members(ids, Some(f)) && groups[f] != []
    ensures forall f :: f !in groups ==> Members(ids, Some(f)) == []
  {
    groups, passthrough := map[], [];
    for k := 0 to |ids|
      invariant passthrough == Members(ids[..k], None)
      invariant forall f :: f in groups ==> groups[f] == Members(ids[..k], Some(f)) && groups[f] != []
      invariant forall f :: f !in groups ==> Members(ids[..k], Some(f)) == []
    {
      var id := ids[k];
      assert ids[..k + 1][..k] == ids[..k];
      if FamilyOf(id).Some? {
        var f := FamilyOf(id).value;
        groups := groups[f := (if f in groups then groups[f] else []) + [id]];
      } else {
        passthrough := passthrough + [id];
      }
    }
    assert ids[..|ids|] == ids;
  }

  /** The survivor of one family: `sort_by` and `remove(0)`. */
  method BestOf(root: string, group: seq<string>) returns (best: string)
    requires group != []
    ensures best in group && forall y :: y in group ==> !Preferred(root, y, best)
  {
    if |group| == 1 {
      best := group[0];
      StrLtIrreflexive(best);
      return;
    }
    var lt := (a, b) => Preferred(root, a, b);
    PreferredWeakOrder(root);
    FirstIsLeast(lt, group);
    best := SortBy(lt, group)[0];
  }

  /** A family has one survivor. */
  lemma BestIsUnique(ids: seq<string>, f: Family, best: string)
    requires best in Members(ids, Some(f)) && forall y :: y in Members(ids, Some(f)) ==> !Preferred(f.1, y, best)
    ensures forall x :: IsBest(ids, x) && FamilyOf(x) == Some(f) <==> x == best
  {
    MembersOf(ids, Some(f));
    PreferredWeakOrder(f.1);
  }

  lemma PassthroughIsBest(ids: seq<string>, groups: map<Family, seq<string>>)
    requires forall f :: f !in groups ==> Members(ids, Some(f)) == []
    ensures forall x :: x in Members(ids, None) <==> IsBest(ids, x) && (FamilyOf(x).Some? ==> FamilyOf(x).value !in groups.Keys)
  {
    MembersOf(ids, None);
    forall x | x in ids && FamilyOf(x).Some? ensures FamilyOf(x).value in groups.Keys {
      MembersOf(ids, FamilyOf(x));
    }
  }

  lemma SortDedup(s: seq<string>)
    ensures forall x :: x in Dedup(SortBy(StrLt, s)) <==> x in s
    ensures forall i, j :: 0 <= i < j < |Dedup(SortBy(StrLt, s))| ==>
              StrLt(Dedup(SortBy(StrLt, s))[i], Dedup(SortBy(StrLt, s))[j])
  {
    var sorted := SortBy(StrLt, s);
    StrLtWeakOrder();
    SortBySorted(StrLt, s);
    SortByMembers(StrLt, s);
    DedupMembers(sorted);
    DedupStrict(sorted);
  }

  /** `canonicalize_tool_ids`; the map is walked in any order. */
  method CanonicalizeToolIds(ids: seq<string>) returns (out: seq<string>)
    ensures IsCanonical(ids, out)
  {
    var groups, passthrough := GroupByFamily(ids);
    PassthroughIsBest(ids, groups);
    var all := passthrough;
    var remaining := groups.Keys;
    while remaining != {}
      invariant remaining <= groups.Keys
      invariant forall x :: x in all <==> IsBest(ids, x) && (FamilyOf(x).Some? ==> FamilyOf(x).value !in remaining)
      decreases |remaining|
    {
      var f :| f in remaining;
      var best := BestOf(f.1, groups[f]);
      BestIsUnique(ids, f, best);
      all := all + [best];
      remaining := remaining - {f};
    }
    out := Dedup(SortBy(StrLt, all));
    SortDedup(all);
  }

  /** Every unsplittable id is kept, and every family of the input has exactly one id in the
      output: one that no member of the family is preferred to. */
  lemma OnePerFamily(ids: seq<string>, out: seq<string>, id: string)
    requires IsCanonical(ids, out) && id in ids
    ensures FamilyOf(id) == None ==> id in out
    ensures FamilyOf(id).Some? ==> exists x ::
              && x in out && FamilyOf(x) == FamilyOf(id)
              && forall y :: y in out && FamilyOf(y) == FamilyOf(id) ==> y == x
  {
    if FamilyOf(id) == None {
      assert IsBest(ids, id);
    } else {
      var f := FamilyOf(id).value;
      MembersOf(ids, Some(f));
      var lt := (a, b) => Preferred(f.1, a, b);
      PreferredWeakOrder(f.1);
      FirstIsLeast(lt, Members(ids, Some(f)));
      var x := SortBy(lt, Members(ids, Some(f)))[0];
      BestIsUnique(ids, f, x);
      assert IsBest(ids, x) && FamilyOf(x) == Some(f);
    }
  }

  lemma {:induction false} RootOfRoot(name: string)
    ensures FamilyRoot(FamilyRoot(name)) == FamilyRoot(name)
  {
    if name != [] && !('A' <= name[0] <= 'Z') {
      RootOfRoot(name[1..]);
      assert FamilyRoot(name)[1..] == FamilyRoot(name[1..]);
    }
  }

  /** `name` is a local name of the bundle, and both belong to one family: the same text up to the
      first capital. */
  ghost predicate Sibling(ids: seq<string>, bundle: string, local: string, name: string) {
    name != "" && bundle + "/" + name in ids && FamilyRoot(name) == FamilyRoot(local)
  }

  lemma SiblingIs(ids: seq<string>, bundle: string, local: string, y: string)
    requires bundle != "" && local != "" && '/' !in bundle
    ensures FamilyOf(bundle + "/" + local) == Some((bundle, FamilyRoot(local))) && LocalName(bundle + "/" + local) == local
    ensures y in ids && FamilyOf(y) == FamilyOf(bundle + "/" + local)
       <==> exists name :: Sibling(ids, bundle, local, name) && y == bundle + "/" + name
  {
    SplitExact(bundle + "/" + local, bundle, local);
    if y in ids && FamilyOf(y) == FamilyOf(bundle + "/" + local) {
      var (b, name) := Split(y).value;
      SplitExact(y, b, name);
      assert Sibling(ids, bundle, local, name) && y == bundle + "/" + name;
    }
    if name :| Sibling(ids, bundle, local, name) && y == bundle + "/" + name {
      SplitExact(y, bundle, name);
    }
  }

  /** Which id of a family survives: its root if that is given, else the one whose name has the fewest
      bytes, and among those the least text. */
  ghost predicate Survives(ids: seq<string>, bundle: string, local: string) {
    if FamilyRoot(local) != "" && bundle + "/" + FamilyRoot(local) in ids then local == FamilyRoot(local)
    else forall name :: Sibling(ids, bundle, local, name) ==>
           || ByteLen(local) < ByteLen(name)
           || (ByteLen(local) == ByteLen(name) && (name == local || StrLt(bundle + "/" + local, bundle + "/" + name)))
  }

  lemma SameText(bundle: string, a: string, b: string)
    requires bundle + "/" + a == bundle + "/" + b
    ensures a == b
  {
    assert a == (bundle + "/" + a)[|bundle| + 1..] && b == (bundle + "/" + b)[|bundle| + 1..];
  }

  lemma BestSurvives(ids: seq<string>, bundle: string, local: string)
    requires bundle != "" && local != "" && '/' !in bundle && IsBest(ids, bundle + "/" + local)
    ensures Survives(ids, bundle, local)
  {
    var x, root := bundle + "/" + local, FamilyRoot(local);
    SiblingIs(ids, bundle, local, x);
    RootOfRoot(local);
    if root != "" && bundle + "/" + root in ids {
      assert Sibling(ids, bundle, local, root);
      SiblingIs(ids, bundle, local, bundle + "/" + root);
      SiblingIs(ids, bundle, root, x);
    } else {
      forall name | Sibling(ids, bundle, local, name)
        ensures ByteLen(local) < ByteLen(name)
             || (ByteLen(local) == ByteLen(name) && (name == local || StrLt(x, bundle + "/" + name)))
      {
        var y := bundle + "/" + name;
        SiblingIs(ids, bundle, local, y);
        SiblingIs(ids, bundle, name, x);
        StrLtTotal(x, y);
        if x == y { SameText(bundle, local, name); }
      }
    }
  }

  lemma SurvivorIsBest(ids: seq<string>, bundle: string, local: string)
    requires bundle != "" && local != "" && '/' !in bundle && bundle + "/" + local in ids && Survives(ids, bundle, local)
    ensures IsBest(ids, bundle + "/" + local)
  {
    var x, root := bundle + "/" + local, FamilyRoot(local);
    SiblingIs(ids, bundle, local, x);
    forall y | y in ids && FamilyOf(y) == FamilyOf(x) ensures !Preferred(root, y, x) {
      SiblingIs(ids, bundle, local, y);
      var name :| Sibling(ids, bundle, local, name) && y == bundle + "/" + name;
      SiblingIs(ids, bundle, name, x);
      StrLtIrreflexive(x);
      StrLtWeakOrder();
    }
  }

  /** Exactly which ids canonicalisation keeps: those without bundle or name, and of every family the
      survivor. */
  lemma KeptIff(ids: seq<string>, out: seq<string>, bundle: string, local: string)
    requires IsCanonical(ids, out) && bundle != "" && local != "" && '/' !in bundle
    ensures bundle + "/" + local in out <==> bundle + "/" + local in ids && Survives(ids, bundle, local)
  {
    if bundle + "/" + local in out { BestSurvives(ids, bundle, local); }
    if bundle + "/" + local in ids && Survives(ids, bundle, local) { SurvivorIsBest(ids, bundle, local); }
  }

  /** For instance the root of a family is kept whatever longer names there are. */
  lemma RootIsKept(ids: seq<string>, out: seq<string>, bundle: string, local: string)
    requires IsCanonical(ids, out) && bundle != "" && '/' !in bundle && FamilyRoot(local) != "" && bundle + "/" + FamilyRoot(local) in ids
    ensures bundle + "/" + FamilyRoot(local) in out && (local != FamilyRoot(local) ==> bundle + "/" + local !in out)
  {
    RootOfRoot(local);
    KeptIff(ids, out, bundle, FamilyRoot(local));
    KeptIff(ids, out, bundle, local);
  }

  /** The result depends only on which ids are given, not on their order or repetition. */
  lemma CanonicalOrderIndependent(ids: seq<string>, ids': seq<string>, out: seq<string>, out': seq<string>)
    requires forall x :: x in ids <==> x in ids'
    requires IsCanonical(ids, out) && IsCanonical(ids', out')
    ensures out == out'
  {
    forall x ensures x in out <==> x in out' {
      assert IsBest(ids, x) <==> IsBest(ids', x);
    }
    StrictUnique((x: string) => x, out, out');
  }

  /** Canonicalising twice is canonicalising once. */
  lemma CanonicalIdempotent(ids: seq<string>, out: seq<string>, again: seq<string>)
    requires IsCanonical(ids, out) && IsCanonical(out, again)
    ensures again == out
  {
    forall x ensures x in out <==> x in again {
      assert IsBest(ids, x) ==> IsBest(out, x) by {
        if IsBest(ids, x) {
          forall y | y in out && FamilyOf(x).Some? && FamilyOf(y) == FamilyOf(x) ensures !Preferred(FamilyOf(x).value.1, y, x) {
            assert IsBest(ids, y);
          }
        }
      }
    }
    StrictUnique((x: string) => x, out, again);
  }
}
