/** Startup restore: one persisted deployment per agent package
    (crates/baml-agent-runner/src/deployment_restore.rs). */
module RestoreDedupe {
  import opened Orders
  import opened Options

  type Hash = string

  datatype Status = Active | Failed

  datatype Record = Record(
    hash: Hash,
    agentName: string,
    deployedAt: string,
    status: Status,
    lastError: Option<string>,
    lastAttemptAt: Option<string>,
    failureCount: nat)

  /** `better_for_restore`: should `a` be restored rather than `b`? */
  predicate Better(a: Record, b: Record) {
    match (a.status, b.status)
    case (Active, Failed) => true
    case (Failed, Active) => false
    case _ =>
      if a.deployedAt != b.deployedAt then StrLt(b.deployedAt, a.deployedAt)
      else StrLt(b.hash, a.hash)
  }

  /** `Better` is a strict order without ties between different hashes, so "the best of
      a group" is well defined. */
  lemma BetterIsStrictTotal()
    ensures WeakOrder(Better)
    ensures forall a: Record, b: Record :: a.hash != b.hash ==> Better(a, b) || Better(b, a)
    ensures forall a: Record, b: Record, c: Record :: Better(a, b) && Better(b, c) ==> Better(a, c)
  {
    StrLtWeakOrder();
    forall a: Record, b: Record | a.hash != b.hash ensures Better(a, b) || Better(b, a) {
      StrLtTotal(a.hash, b.hash);
      StrLtTotal(a.deployedAt, b.deployedAt);
    }
    forall a: Record, b: Record, c: Record | Better(a, c) ensures Better(a, b) || Better(b, c) {
      StrLtTotal(a.deployedAt, b.deployedAt);
      StrLtTotal(b.deployedAt, c.deployedAt);
    }
  }

  /** On the columns: an active record beats a failed one; among equals the later time wins, and then the
      greater hash. */
  lemma BetterMeans(a: Record, b: Record)
    ensures Better(a, b) <==>
              || (a.status == Active && b.status == Failed)
              || (a.status == b.status && exists n: nat :: DiffersAt(b.deployedAt, a.deployedAt, n))
              || (a.status == b.status && a.deployedAt == b.deployedAt && exists n: nat :: DiffersAt(b.hash, a.hash, n))
  {
    StrLtIff(b.deployedAt, a.deployedAt);
    StrLtIff(b.hash, a.hash);
    StrLtIrreflexive(a.deployedAt);
  }

  lemma BetterTransitive(a: Record, b: Record, c: Record)
    requires Better(a, b) && Better(b, c)
    ensures Better(a, c)
  {
    BetterIsStrictTotal();
  }

  predicate ByNameThenHash(a: Record, b: Record) {
    StrLt(a.agentName, b.agentName) || (a.agentName == b.agentName && StrLt(a.hash, b.hash))
  }

  lemma ByNameThenHashWeakOrder()
    ensures WeakOrder(ByNameThenHash)
  {
    StrLtWeakOrder();
    forall a: Record, b: Record, c: Record | ByNameThenHash(a, c)
      ensures ByNameThenHash(a, b) || ByNameThenHash(b, c)
    {
      StrLtTotal(a.agentName, b.agentName);
      StrLtTotal(b.agentName, c.agentName);
    }
  }

  function Hashes(records: seq<Record>): seq<Hash> {
    seq(|records|, i requires 0 <= i < |records| => records[i].hash)
  }

  lemma HashesAppend(a: seq<Record>, b: seq<Record>)
    ensures Hashes(a + b) == Hashes(a) + Hashes(b)
  {
  }

  lemma {:induction false} HashesPermute(a: seq<Record>, b: seq<Record>)
    requires multiset(a) == multiset(b)
    ensures multiset(Hashes(a)) == multiset(Hashes(b))
    decreases |a|
  {
    if a == [] {
      assert |multiset(b)| == 0;
    } else {
      assert a[0] in multiset(b);
      var i :| 0 <= i < |b| && b[i] == a[0];
      var rest := b[..i] + b[i + 1..];
      assert a == [a[0]] + a[1..];
      assert b == b[..i] + [b[i]] + b[i + 1..];
      assert multiset(rest) == multiset(b) - multiset{b[i]};
      assert multiset(a[1..]) == multiset(a) - multiset{a[0]};
      HashesPermute(a[1..], rest);
      HashesAppend([a[0]], a[1..]);
      HashesAppend(b[..i] + [b[i]], b[i + 1..]);
      HashesAppend(b[..i], [b[i]]);
      HashesAppend(b[..i], b[i + 1..]);
    }
  }

  /** The records whose agent name satisfies membership in `names`, in order. */
  function RowsOf(records: seq<Record>, names: set<string>): seq<Record> {
    if records == [] then []
    else if records[0].agentName in names then [records[0]] + RowsOf(records[1..], names)
    else RowsOf(records[1..], names)
  }

  lemma {:induction false} RowsOfMembers(records: seq<Record>, names: set<string>)
    ensures forall r :: r in RowsOf(records, names) <==> r in records && r.agentName in names
  {
    if records != [] {
      RowsOfMembers(records[1..], names);
      assert records == [records[0]] + records[1..];
    }
  }

  lemma {:induction false} RowsOfSplit(records: seq<Record>, names: set<string>, n: string)
    requires n in names
    ensures multiset(Hashes(RowsOf(records, names)))
         == multiset(Hashes(RowsOf(records, {n}))) + multiset(Hashes(RowsOf(records, names - {n})))
  {
    if records != [] {
      RowsOfSplit(records[1..], names, n);
      HashesAppend([records[0]], RowsOf(records[1..], names));
      HashesAppend([records[0]], RowsOf(records[1..], {n}));
      HashesAppend([records[0]], RowsOf(records[1..], names - {n}));
    }
  }

  lemma {:induction false} RowsOfAll(records: seq<Record>, names: set<string>)
    requires forall r :: r in records ==> r.agentName in names
    ensures RowsOf(records, names) == records
  {
    if records != [] {
      RowsOfAll(records[1..], names);
    }
  }

  lemma {:induction false} RowsOfSnoc(records: seq<Record>, r: Record, names: set<string>)
    ensures RowsOf(records + [r], names)
         == RowsOf(records, names) + (if r.agentName in names then [r] else [])
  {
    if records == [] {
      assert RowsOf([r][1..], names) == [];
    } else {
      RowsOfSnoc(records[1..], r, names);
      assert (records + [r])[1..] == records[1..] + [r];
    }
  }

  /** What a deduplication must deliver: the restore list holds, sorted by agent name, exactly
      one record per agent name of the input, a best one of its group; and the hashes of the
      restored records together with the removal list are the input's hashes, none lost and
      none invented. */
  ghost predicate IsDedupe(records: seq<Record>, restore: seq<Record>, remove: seq<Hash>) {
    && (forall i :: 0 <= i < |restore| ==> restore[i] in records)
    && (forall r :: r in records ==> Keeper(restore, r.agentName))
    && (forall i, j :: 0 <= i < j < |restore| ==> StrLt(restore[i].agentName, restore[j].agentName))
    && (forall i, r :: 0 <= i < |restore| && r in records && r.agentName == restore[i].agentName
          ==> !Better(r, restore[i]))
    && multiset(remove) + multiset(Hashes(restore)) == multiset(Hashes(records))
  }

  ghost predicate Keeper(restore: seq<Record>, name: string) {
    exists i :: 0 <= i < |restore| && restore[i].agentName == name
  }

  ghost predicate DistinctHashes(records: seq<Record>) {
    forall i, j :: 0 <= i < j < |records| ==> records[i].hash != records[j].hash
  }

  /** Rust's `swap_remove`: drop element `i`, filling its place with the last one. */
  function SwapRemove<T>(s: seq<T>, i: nat): (r: seq<T>)
    requires i < |s|
    ensures multiset{s[i]} + multiset(r) == multiset(s)
  {
    var last := |s| - 1;
    assert s == s[..last] + [s[last]];
    if i == last then s[..last]
    else
      assert s[..last] == s[..i] + [s[i]] + s[i + 1..last];
      assert s[i := s[last]][..last] == s[..i] + [s[last]] + s[i + 1..last];
      s[i := s[last]][..last]
  }

  lemma NewWinner(group: seq<Record>, i: nat, best: nat)
    requires best < i < |group| && Better(group[i], group[best])
    requires forall j :: 0 <= j < i ==> !Better(group[j], group[best])
    ensures forall j :: 0 <= j <= i ==> !Better(group[j], group[i])
  {
    forall j | 0 <= j <= i ensures !Better(group[j], group[i]) {
      StrLtIrreflexive(group[i].hash);
      if Better(group[j], group[i]) { BetterTransitive(group[j], group[i], group[best]); }
    }
  }

  /** The inner loop and the `swap_remove` on one group. */
  method PickWinner(group: seq<Record>) returns (winner: Record, losers: seq<Record>)
    requires group != []
    ensures multiset{winner} + multiset(losers) == multiset(group)
    ensures forall r :: r in group ==> !Better(r, winner)
  {
    var winnerIdx := 0;
    StrLtIrreflexive(group[0].hash);
    for i := 1 to |group|
      invariant winnerIdx < i
      invariant forall j :: 0 <= j < i ==> !Better(group[j], group[winnerIdx])
    {
      if Better(group[i], group[winnerIdx]) {
        NewWinner(group, i, winnerIdx);
        winnerIdx := i;
      }
    }
    winner := group[winnerIdx];
    losers := SwapRemove(group, winnerIdx);
  }

  method SplitGroup(group: seq<Record>) returns (winner: Record, losers: seq<Record>)
    requires group != []
    ensures multiset{winner} + multiset(losers) == multiset(group)
    ensures forall r :: r in group ==> !Better(r, winner)
  {
    if |group| == 1 {
      winner, losers := group[0], [];
      assert group == [winner];
      StrLtIrreflexive(winner.hash);
    } else {
      winner, losers := PickWinner(group);
    }
  }

  /** The state of the deduplication when the groups named in `left` are still to do. */
  ghost predicate Progress(records: seq<Record>, left: set<string>, restore: seq<Record>, remove: seq<Hash>) {
    && (forall r :: r in records && r.agentName !in left ==> Keeper(restore, r.agentName))
    && (forall i :: 0 <= i < |restore| ==> restore[i] in records && restore[i].agentName !in left)
    && (forall i, j :: 0 <= i < j < |restore| ==> restore[i].agentName != restore[j].agentName)
    && (forall i, r :: 0 <= i < |restore| && r in records && r.agentName == restore[i].agentName
          ==> !Better(r, restore[i]))
    && multiset(remove) + multiset(Hashes(restore)) + multiset(Hashes(RowsOf(records, left)))
         == multiset(Hashes(records))
  }

  lemma ProgressBegins(records: seq<Record>, names: set<string>)
    requires forall r :: r in records ==> r.agentName in names
    ensures Progress(records, names, [], [])
  {
    RowsOfAll(records, names);
    assert Hashes([]) == [];
  }

  lemma ProgressStep(records: seq<Record>, left: set<string>, restore: seq<Record>, remove: seq<Hash>,
                     n: string, winner: Record, losers: seq<Record>)
    requires Progress(records, left, restore, remove) && n in left
    requires multiset{winner} + multiset(losers) == multiset(RowsOf(records, {n}))
    requires forall r :: r in RowsOf(records, {n}) ==> !Better(r, winner)
    ensures Progress(records, left - {n}, restore + [winner], remove + Hashes(losers))
  {
    var group := RowsOf(records, {n});
    RowsOfMembers(records, {n});
    assert winner in multiset(group);
    KeeperGrows(restore, winner);
    ProgressCounts(records, left, restore, remove, n, winner, losers);
  }

  lemma ProgressCounts(records: seq<Record>, left: set<string>, restore: seq<Record>, remove: seq<Hash>,
                       n: string, winner: Record, losers: seq<Record>)
    requires multiset(remove) + multiset(Hashes(restore)) + multiset(Hashes(RowsOf(records, left))) == multiset(Hashes(records))
    requires n in left && multiset{winner} + multiset(losers) == multiset(RowsOf(records, {n}))
    ensures multiset(remove + Hashes(losers)) + multiset(Hashes(restore + [winner]))
          + multiset(Hashes(RowsOf(records, left - {n}))) == multiset(Hashes(records))
  {
    RowsOfSplit(records, left, n);
    HashesPermute([winner] + losers, RowsOf(records, {n}));
    HashesAppend([winner], losers);
    HashesAppend(restore, [winner]);
  }

  lemma ProgressEnds(records: seq<Record>, restore: seq<Record>, remove: seq<Hash>)
    requires Progress(records, {}, restore, remove)
    ensures multiset(remove) + multiset(Hashes(restore)) == multiset(Hashes(records))
  {
    RowsOfMembers(records, {});
    var none := RowsOf(records, {});
    assert forall r :: r !in none;
  }

  /** `dedupe_deployments_for_restore`; the hash map's iteration order is the arbitrary
      choice of the next group. */
  method Dedupe(records: seq<Record>) returns (restore: seq<Record>, remove: seq<Hash>)
    ensures IsDedupe(records, restore, remove)
  {
    var groups := GroupByName(records);
    ProgressBegins(records, groups.Keys);
    var remaining := groups;
    restore, remove := [], [];
    while remaining.Keys != {}
      invariant remaining.Keys <= groups.Keys
      invariant forall n :: n in remaining ==> remaining[n] == RowsOf(records, {n}) && remaining[n] != []
      invariant Progress(records, remaining.Keys, restore, remove)
      decreases |remaining.Keys|
    {
      var n :| n in remaining.Keys;
      var winner, losers := SplitGroup(remaining[n]);
      ProgressStep(records, remaining.Keys, restore, remove, n, winner, losers);
      remove := remove + Hashes(losers);
      restore := restore + [winner];
      assert (remaining - {n}).Keys == remaining.Keys - {n};
      remaining := remaining - {n};
    }
    restore := SortRestored(records, restore, remove);
  }

  lemma KeeperGrows(restore: seq<Record>, r: Record)
    ensures forall n :: Keeper(restore, n) ==> Keeper(restore + [r], n)
    ensures Keeper(restore + [r], r.agentName)
  {
    forall n | Keeper(restore, n) ensures Keeper(restore + [r], n) {
      var i :| 0 <= i < |restore| && restore[i].agentName == n;
      assert (restore + [r])[i] == restore[i];
    }
    assert (restore + [r])[|restore|] == r;
  }

  method GroupByName(records: seq<Record>) returns (groups: map<string, seq<Record>>)
    ensures forall r :: r in records ==> r.agentName in groups
    ensures forall n :: n in groups ==> groups[n] == RowsOf(records, {n}) && groups[n] != []
  {
    groups := map[];
    for k := 0 to |records|
      invariant forall r :: r in records[..k] ==> r.agentName in groups
      invariant forall n :: n in groups ==> groups[n] == RowsOf(records[..k], {n}) && groups[n] != []
      invariant forall n :: n !in groups ==> RowsOf(records[..k], {n}) == []
    {
      var r := records[k];
      assert records[..k + 1] == records[..k] + [r];
      forall n ensures RowsOf(records[..k + 1], {n}) == RowsOf(records[..k], {n}) + (if r.agentName == n then [r] else []) {
        RowsOfSnoc(records[..k], r, {n});
      }
      groups := groups[r.agentName := (if r.agentName in groups then groups[r.agentName] else []) + [r]];
    }
    assert records[..|records|] == records;
  }

  /** The final in-place sort keeps everything but the order, and with one record per name
      sorts strictly by name. */
  method SortRestored(records: seq<Record>, unsorted: seq<Record>, ghost remove: seq<Hash>) returns (restore: seq<Record>)
    requires Progress(records, {}, unsorted, remove)
    ensures IsDedupe(records, restore, remove)
    ensures multiset(restore) == multiset(unsorted)
  {
    ProgressEnds(records, unsorted, remove);
    restore := SortBy(ByNameThenHash, unsorted);
    SortByMembers(ByNameThenHash, unsorted);
    HashesPermute(restore, unsorted);
    SortedByNameStrictly(unsorted);
    ReorderedIsDedupe(records, unsorted, restore, remove);
  }

  lemma ReorderedIsDedupe(records: seq<Record>, unsorted: seq<Record>, restore: seq<Record>, remove: seq<Hash>)
    requires Progress(records, {}, unsorted, remove) && forall r :: r in restore <==> r in unsorted
    requires forall i, j :: 0 <= i < j < |restore| ==> StrLt(restore[i].agentName, restore[j].agentName)
    requires multiset(remove) + multiset(Hashes(restore)) == multiset(Hashes(records))
    ensures IsDedupe(records, restore, remove)
  {
    KeepersStay(unsorted, restore);
    forall i | 0 <= i < |restore| ensures restore[i] in unsorted {
      assert restore[i] in restore;
    }
  }

  lemma KeepersStay(a: seq<Record>, b: seq<Record>)
    requires forall r :: r in a <==> r in b
    ensures forall n :: Keeper(a, n) ==> Keeper(b, n)
  {
    forall n | Keeper(a, n) ensures Keeper(b, n) {
      var i :| 0 <= i < |a| && a[i].agentName == n;
      assert a[i] in b;
    }
  }

  /** With one record per name, sorting by name and hash sorts strictly by name. */
  lemma SortedByNameStrictly(unsorted: seq<Record>)
    requires forall i, j :: 0 <= i < j < |unsorted| ==> unsorted[i].agentName != unsorted[j].agentName
    ensures var s := SortBy(ByNameThenHash, unsorted);
            forall i, j :: 0 <= i < j < |s| ==> StrLt(s[i].agentName, s[j].agentName)
  {
    var s := SortBy(ByNameThenHash, unsorted);
    ByNameThenHashWeakOrder();
    SortBySorted(ByNameThenHash, unsorted);
    SortByMembers(ByNameThenHash, unsorted);
    forall i, j | 0 <= i < j < |s| ensures StrLt(s[i].agentName, s[j].agentName) {
      NamesStayDistinct(unsorted, s, i, j);
      StrLtTotal(s[i].agentName, s[j].agentName);
    }
  }

  lemma NamesStayDistinct(unsorted: seq<Record>, s: seq<Record>, i: nat, j: nat)
    requires forall a, b :: 0 <= a < b < |unsorted| ==> unsorted[a].agentName != unsorted[b].agentName
    requires multiset(s) == multiset(unsorted) && i < j < |s|
    requires s[i] in unsorted && s[j] in unsorted
    ensures s[i].agentName != s[j].agentName
  {
    if s[i] == s[j] {
      RepeatedElement(s, i, j);
      OccursOnce(unsorted, s[i]);
    }
  }

  lemma {:induction false} OccursOnce(s: seq<Record>, r: Record)
    requires forall i, j :: 0 <= i < j < |s| ==> s[i].agentName != s[j].agentName
    ensures multiset(s)[r] <= 1
  {
    if s != [] {
      OccursOnce(s[1..], r);
      assert s == [s[0]] + s[1..];
      if r == s[0] {
        assert r !in s[1..];
      }
    }
  }

  /** With distinct hashes (the store's unique index) every record is either kept or has its
      hash removed, never both. */
  lemma DedupePartitions(records: seq<Record>, restore: seq<Record>, remove: seq<Hash>)
    requires DistinctHashes(records) && IsDedupe(records, restore, remove)
    ensures forall r :: r in records ==> (r in restore <==> r.hash !in remove)
    ensures forall h :: h in remove ==> exists r :: r in records && r.hash == h && r !in restore
  {
    forall r | r in records ensures r in restore <==> r.hash !in remove {
      HashCountOne(records, r.hash);
      assert multiset(Hashes(records))[r.hash] == 1 by { HashCounted(records, r); }
      if r in restore {
        HashCounted(restore, r);
      }
      if r.hash !in remove {
        assert r.hash in multiset(Hashes(restore));
        var i :| 0 <= i < |Hashes(restore)| && Hashes(restore)[i] == r.hash;
        SameHashSameRecord(records, restore[i], r);
      }
    }
    forall h | h in remove ensures exists r :: r in records && r.hash == h && r !in restore {
      assert h in multiset(Hashes(records));
      var i :| 0 <= i < |Hashes(records)| && Hashes(records)[i] == h;
      assert records[i] in records;
    }
  }

  lemma SameHashSameRecord(records: seq<Record>, a: Record, b: Record)
    requires DistinctHashes(records) && a in records && b in records && a.hash == b.hash
    ensures a == b
  {
  }

  lemma HashCounted(records: seq<Record>, r: Record)
    requires r in records
    ensures multiset(Hashes(records))[r.hash] >= 1
  {
    var i :| 0 <= i < |records| && records[i] == r;
    assert Hashes(records)[i] == r.hash;
    assert r.hash in Hashes(records);
  }

  lemma {:induction false} HashCountOne(records: seq<Record>, h: Hash)
    requires DistinctHashes(records)
    ensures multiset(Hashes(records))[h] <= 1
  {
    if records != [] {
      HashCountOne(records[1..], h);
      assert records == [records[0]] + records[1..];
      HashesAppend([records[0]], records[1..]);
      if h == records[0].hash {
        assert h !in Hashes(records[1..]);
      }
    }
  }

  /** The restore list is a function of the set of rows: neither the order in which the store
      lists them nor the map's iteration order shows. */
  lemma DedupeOrderIndependent(
      records: seq<Record>, restore: seq<Record>, remove: seq<Hash>,
      records': seq<Record>, restore': seq<Record>, remove': seq<Hash>)
    requires DistinctHashes(records) && multiset(records) == multiset(records')
    requires IsDedupe(records, restore, remove) && IsDedupe(records', restore', remove')
    ensures restore == restore'
    ensures multiset(remove) == multiset(remove')
  {
    SameMembers(records, records');
    DistinctPermute(records, records');
    SortedNamesSame(records, restore, remove, records', restore', remove');
    SortedNamesSame(records', restore', remove', records, restore, remove);
    StrictUnique((r: Record) => r.agentName, restore, restore');
    RemovedDetermined(records, restore, remove, records', remove');
  }

  lemma RemovedDetermined(records: seq<Record>, restore: seq<Record>, remove: seq<Hash>,
                          records': seq<Record>, remove': seq<Hash>)
    requires multiset(records) == multiset(records')
    requires multiset(remove) + multiset(Hashes(restore)) == multiset(Hashes(records))
    requires multiset(remove') + multiset(Hashes(restore)) == multiset(Hashes(records'))
    ensures multiset(remove) == multiset(remove')
  {
    HashesPermute(records, records');
    assert multiset(remove) == multiset(Hashes(records)) - multiset(Hashes(restore));
    assert multiset(remove') == multiset(Hashes(records')) - multiset(Hashes(restore));
  }

  lemma SameMembers<T>(a: seq<T>, b: seq<T>)
    requires multiset(a) == multiset(b)
    ensures forall x :: x in a <==> x in b
  {
    forall x ensures x in a <==> x in b {
      assert x in a <==> x in multiset(a);
      assert x in b <==> x in multiset(b);
    }
  }

  lemma DistinctPermute(a: seq<Record>, b: seq<Record>)
    requires DistinctHashes(a) && multiset(a) == multiset(b)
    ensures DistinctHashes(b)
  {
    forall i, j | 0 <= i < j < |b| ensures b[i].hash != b[j].hash {
      if b[i].hash == b[j].hash {
        SameMembers(a, b);
        SameHashSameRecord(a, b[i], b[j]);
        RepeatedElement(b, i, j);
        HashCountOne(a, b[i].hash);
        HashesPermute(a, b);
        RepeatedElement(Hashes(b), i, j);
      }
    }
  }

  lemma SortedNamesSame(
      records: seq<Record>, restore: seq<Record>, remove: seq<Hash>,
      records': seq<Record>, restore': seq<Record>, remove': seq<Hash>)
    requires DistinctHashes(records)
    requires forall r :: r in records <==> r in records'
    requires IsDedupe(records, restore, remove) && IsDedupe(records', restore', remove')
    ensures forall r :: r in restore ==> r in restore'
  {
    forall r | r in restore ensures r in restore' {
      assert Keeper(restore', r.agentName);
      var j :| 0 <= j < |restore'| && restore'[j].agentName == r.agentName;
      BetterIsStrictTotal();
      assert restore'[j] in records && r in records;
      if restore'[j].hash == r.hash { SameHashSameRecord(records, restore'[j], r); }
    }
  }

  lemma SameNameSameRecord(restore: seq<Record>, a: Record, b: Record)
    requires forall i, j :: 0 <= i < j < |restore| ==> StrLt(restore[i].agentName, restore[j].agentName)
    requires a in restore && b in restore && a.agentName == b.agentName
    ensures a == b
  {
    StrLtIrreflexive(a.agentName);
  }

  lemma NothingLeft(removed: seq<Hash>, kept: multiset<Hash>)
    requires multiset(removed) + kept == kept
    ensures removed == []
  {
    assert |multiset(removed) + kept| == |multiset(removed)| + |kept|;
    assert |removed| == |multiset(removed)|;
  }

  /** Applying the deduplication to its own output changes nothing. */
  lemma DedupeIdempotent(records: seq<Record>, restore: seq<Record>, remove: seq<Hash>,
                         again: seq<Record>, removedAgain: seq<Hash>)
    requires IsDedupe(records, restore, remove) && IsDedupe(restore, again, removedAgain)
    ensures again == restore && removedAgain == []
  {
    forall r | r in restore ensures r in again {
      assert Keeper(again, r.agentName);
      var j :| 0 <= j < |again| && again[j].agentName == r.agentName;
      SameNameSameRecord(restore, again[j], r);
    }
    StrictUnique((r: Record) => r.agentName, restore, again);
    NothingLeft(removedAgain, multiset(Hashes(restore)));
  }
}
