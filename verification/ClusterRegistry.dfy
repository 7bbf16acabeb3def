/** The shared cluster tables: which runner hosts which agent, and which runners are alive
    (crates/baml-agent-runner/src/cluster.rs:134-460). */
module ClusterRegistry {
  import opened Options
  import opened Routes
  import opened Orders

  datatype Place = Place(package: string, instance: string, hash: string, runner: string, endpoint: string,
                         active: bool, updatedAt: int)

  datatype RunnerRow = RunnerRow(endpoint: string, serviceId: string, heartbeat: int)

  datatype Registry = Registry(placements: map<string, Place>, runners: map<string, RunnerRow>)

  datatype Identity = Identity(runner: string, endpoint: string, serviceId: string)

  /** The record id written by `record_placement`. */
  function PlacementKey(package: string, instance: string, runner: string): string {
    package + "/" + instance + "/" + runner
  }

  // The statements.

  function Register(reg: Registry, me: Identity, now: int): Registry {
    reg.(runners := reg.runners[me.runner := RunnerRow(me.endpoint, me.serviceId, now)])
  }

  /** An UPDATE of one record: nothing happens when the record is not there. */
  function Heartbeat(reg: Registry, runner: string, now: int): Registry {
    if runner in reg.runners then reg.(runners := reg.runners[runner := reg.runners[runner].(heartbeat := now)]) else reg
  }

  function Record(reg: Registry, me: Identity, key: RouteKey, hash: string, now: int): Registry {
    reg.(placements := reg.placements[PlacementKey(key.package, key.instance, me.runner) :=
      Place(key.package, key.instance, hash, me.runner, me.endpoint, true, now)])
  }

  predicate IsPlaceOf(p: Place, key: RouteKey, runner: string) {
    p.package == key.package && p.instance == key.instance && p.runner == runner
  }

  function Remove(reg: Registry, runner: string, key: RouteKey): Registry {
    reg.(placements := map id | id in reg.placements && !IsPlaceOf(reg.placements[id], key, runner) :: reg.placements[id])
  }

  function Sweep(reg: Registry, now: int, ttl: int): Registry {
    reg.(runners := map r | r in reg.runners && !(reg.runners[r].heartbeat < now - ttl) :: reg.runners[r])
  }

  // Record ids.

  function Segments(s: string): (parts: seq<string>)
    ensures parts != []
  {
    if s == [] then [""]
    else
      var rest := Segments(s[1..]);
      if s[0] == '/' then [""] + rest else [[s[0]] + rest[0]] + rest[1..]
  }

  /** The regular expression `^[^/]+/[^/]+/[^/]+$`. */
  predicate ThreeSegments(s: string) {
    var parts := Segments(s);
    |parts| == 3 && parts[0] != "" && parts[1] != "" && parts[2] != ""
  }

  function DeleteLegacy(reg: Registry): Registry {
    reg.(placements := map id | id in reg.placements && ThreeSegments(id) :: reg.placements[id])
  }

  lemma {:induction false} SegmentsOfPlain(a: string)
    requires '/' !in a
    ensures Segments(a) == [a]
  {
    if a != [] {
      SegmentsOfPlain(a[1..]);
      assert a == [a[0]] + a[1..];
    }
  }

  lemma {:induction false} SegmentsOfJoin(a: string, rest: string)
    requires '/' !in a
    ensures Segments(a + "/" + rest) == [a] + Segments(rest)
  {
    var s := a + "/" + rest;
    if a == [] {
      assert s[0] == '/' && s[1..] == rest;
    } else {
      SegmentsOfJoin(a[1..], rest);
      assert s[0] == a[0] && s[1..] == a[1..] + "/" + rest;
      assert a == [a[0]] + a[1..];
    }
  }

  lemma PlacementKeySegments(package: string, instance: string, runner: string)
    requires '/' !in package && '/' !in instance && '/' !in runner
    ensures Segments(PlacementKey(package, instance, runner)) == [package, instance, runner]
  {
    SegmentsOfPlain(runner);
    SegmentsOfJoin(instance, runner);
    SegmentsOfJoin(package, instance + "/" + runner);
    assert PlacementKey(package, instance, runner) == package + "/" + (instance + "/" + runner);
  }

  /** Record ids tell package, instance and runner apart. */
  lemma PlacementKeyInjective(p: string, i: string, r: string, p': string, i': string, r': string)
    requires '/' !in p && '/' !in i && '/' !in r && '/' !in p' && '/' !in i' && '/' !in r'
    requires PlacementKey(p, i, r) == PlacementKey(p', i', r')
    ensures p == p' && i == i' && r == r'
  {
    PlacementKeySegments(p, i, r);
    PlacementKeySegments(p', i', r');
    assert [p, i, r][0] == [p', i', r'][0] && [p, i, r][1] == [p', i', r'][1] && [p, i, r][2] == [p', i', r'][2];
  }

  /** The boot-time deletion keeps every id of the new shape and drops every id of the old one. */
  lemma LegacyDeletionIsExact(package: string, instance: string, runner: string)
    requires '/' !in package && '/' !in instance && '/' !in runner
    requires package != "" && instance != "" && runner != ""
    ensures ThreeSegments(PlacementKey(package, instance, runner))
    ensures !ThreeSegments(package + "/" + instance)
  {
    PlacementKeySegments(package, instance, runner);
    SegmentsOfPlain(instance);
    SegmentsOfJoin(package, instance);
  }

  /** `a`, `b` and `c` are the segments of `id`. */
  predicate IsTriple(id: string, a: string, b: string, c: string) {
    && a != "" && b != "" && c != "" && '/' !in a && '/' !in b && '/' !in c
    && id == a + "/" + b + "/" + c
  }

  function Joined(parts: seq<string>): string
    requires parts != []
  {
    if |parts| == 1 then parts[0] else parts[0] + "/" + Joined(parts[1..])
  }

  lemma {:induction false} SegmentsJoin(s: string)
    ensures Joined(Segments(s)) == s && forall i :: 0 <= i < |Segments(s)| ==> '/' !in Segments(s)[i]
  {
    if s != [] {
      SegmentsJoin(s[1..]);
      var rest := Segments(s[1..]);
      if s[0] == '/' {
        assert ([""] + rest)[1..] == rest;
      } else {
        var parts := [[s[0]] + rest[0]] + rest[1..];
        assert parts[1..] == rest[1..];
        assert Joined(parts) == [s[0]] + Joined(rest);
      }
    }
  }

  lemma ThreeSegmentsIff(id: string)
    ensures ThreeSegments(id) <==> exists a, b, c :: IsTriple(id, a, b, c)
  {
    if ThreeSegments(id) {
      SegmentsJoin(id);
      var parts := Segments(id);
      assert parts == [parts[0], parts[1], parts[2]];
      assert Joined([parts[1], parts[2]]) == parts[1] + "/" + parts[2];
      assert Joined(parts) == parts[0] + "/" + (parts[1] + "/" + parts[2]);
      assert IsTriple(id, parts[0], parts[1], parts[2]);
    }
    if a, b, c :| IsTriple(id, a, b, c) {
      PlacementKeySegments(a, b, c);
    }
  }

  /** The boot-time deletion leaves a row as it was exactly when its id has three segments. */
  lemma LegacyDeletionKeeps(reg: Registry, id: string)
    ensures id in DeleteLegacy(reg).placements <==> id in reg.placements && exists a, b, c :: IsTriple(id, a, b, c)
    ensures id in DeleteLegacy(reg).placements ==> DeleteLegacy(reg).placements[id] == reg.placements[id]
    ensures DeleteLegacy(reg).runners == reg.runners
  {
    ThreeSegmentsIff(id);
  }

  // Lookup.

  predicate Fresh(reg: Registry, runner: string, now: int, ttl: int) {
    runner in reg.runners && reg.runners[runner].heartbeat > now - ttl
  }

  /** The WHERE clause of `PlacementResolver::resolve`. */
  predicate Candidate(reg: Registry, now: int, ttl: int, key: RouteKey, p: Place) {
    p.package == key.package && p.instance == key.instance && p.active && Fresh(reg, p.runner, now, ttl)
  }

  /** `ORDER BY updated_at_ms DESC, runner_endpoint ASC`. */
  predicate Precedes(a: Place, b: Place) {
    a.updatedAt > b.updatedAt || (a.updatedAt == b.updatedAt && StrLt(a.endpoint, b.endpoint))
  }

  /** `id` is a row the query may return first. */
  ghost predicate IsTop(reg: Registry, now: int, ttl: int, key: RouteKey, id: string) {
    && id in reg.placements && Candidate(reg, now, ttl, key, reg.placements[id])
    && forall x :: x in reg.placements && Candidate(reg, now, ttl, key, reg.placements[x]) ==>
         !Precedes(reg.placements[x], reg.placements[id])
  }

  /** Where a runner whose id is `local` sends a request for `key`: nowhere, or to the runner of
      a top row that is not its own. */
  ghost predicate Resolves(reg: Registry, now: int, ttl: int, key: RouteKey, local: string, answer: Option<Place>) {
    if exists id :: IsTop(reg, now, ttl, key, id)
    then exists id :: IsTop(reg, now, ttl, key, id)
           && answer == (if reg.placements[id].runner == local then None else Some(reg.placements[id]))
    else answer == None
  }

  /** An active row of the agent whose runner gave a sign of life within the limit. */
  ghost predicate Live(reg: Registry, now: int, ttl: int, key: RouteKey, id: string) {
    && id in reg.placements
    && var p := reg.placements[id];
       && p.package == key.package && p.instance == key.instance && p.active
       && p.runner in reg.runners && reg.runners[p.runner].heartbeat > now - ttl
  }

  /** A live row with the latest time, and among those with the first endpoint. */
  ghost predicate Latest(reg: Registry, now: int, ttl: int, key: RouteKey, id: string) {
    && Live(reg, now, ttl, key, id)
    && forall x :: Live(reg, now, ttl, key, x) ==>
         var p, q := reg.placements[id], reg.placements[x];
         q.updatedAt < p.updatedAt || (q.updatedAt == p.updatedAt && !StrLt(q.endpoint, p.endpoint))
  }

  /** Read off the rows: a lookup returns a latest live row of another runner, or nothing if such a row
      is the asker's own or there is none. */
  lemma ResolvesIff(reg: Registry, now: int, ttl: int, key: RouteKey, local: string, answer: Option<Place>)
    ensures Resolves(reg, now, ttl, key, local, answer) <==>
              || (answer == None && forall id :: !Latest(reg, now, ttl, key, id))
              || exists id ::
                   && Latest(reg, now, ttl, key, id)
                   && (if reg.placements[id].runner == local then answer == None else answer == Some(reg.placements[id]))
  {
    forall id ensures IsTop(reg, now, ttl, key, id) <==> Latest(reg, now, ttl, key, id) {
      assert forall x :: x in reg.placements ==> (Candidate(reg, now, ttl, key, reg.placements[x]) <==> Live(reg, now, ttl, key, x));
    }
  }

  /** No two candidate rows tie on timestamp and endpoint. */
  ghost predicate NoTies(reg: Registry, now: int, ttl: int, key: RouteKey) {
    forall a, b ::
      && a in reg.placements && Candidate(reg, now, ttl, key, reg.placements[a])
      && b in reg.placements && Candidate(reg, now, ttl, key, reg.placements[b])
      && reg.placements[a].updatedAt == reg.placements[b].updatedAt
      && reg.placements[a].endpoint == reg.placements[b].endpoint
      ==> a == b
  }

  lemma TopIsUnique(reg: Registry, now: int, ttl: int, key: RouteKey, a: string, b: string)
    requires NoTies(reg, now, ttl, key) && IsTop(reg, now, ttl, key, a) && IsTop(reg, now, ttl, key, b)
    ensures a == b
  {
    StrLtTotal(reg.placements[a].endpoint, reg.placements[b].endpoint);
  }

  /** `t` is after every candidate row was written. */
  ghost predicate NewerThanAll(reg: Registry, now: int, ttl: int, key: RouteKey, t: int) {
    forall id :: id in reg.placements && Candidate(reg, now, ttl, key, reg.placements[id]) ==> reg.placements[id].updatedAt < t
  }

  /** The placement `me` wrote at `t`, as seen by runner `local`: nobody is sent to itself. */
  function Elsewhere(me: Identity, key: RouteKey, hash: string, t: int, local: string): Option<Place> {
    if local == me.runner then None else Some(Place(key.package, key.instance, hash, me.runner, me.endpoint, true, t))
  }

  /** The newest write wins: a placement recorded later than every other row of the agent, by a
      runner that is alive, is where every other runner sends the request, and its own runner
      sends it nowhere. */
  lemma NewestPlacementWins(reg: Registry, me: Identity, key: RouteKey, hash: string, t: int, now: int, ttl: int, local: string)
    requires Fresh(reg, me.runner, now, ttl) && NewerThanAll(reg, now, ttl, key, t)
    ensures Resolves(Record(reg, me, key, hash, t), now, ttl, key, local, Elsewhere(me, key, hash, t, local))
  {
    var reg', id := Record(reg, me, key, hash, t), PlacementKey(key.package, key.instance, me.runner);
    StrLtIrreflexive(me.endpoint);
    assert IsTop(reg', now, ttl, key, id);
  }

  /** Once removed, a runner's placement is not returned to anybody. */
  lemma RemovedIsNotResolved(reg: Registry, runner: string, key: RouteKey, now: int, ttl: int, local: string, p: Place)
    requires Resolves(Remove(reg, runner, key), now, ttl, key, local, Some(p))
    ensures p.runner != runner && p.runner != local && Candidate(reg, now, ttl, key, p)
  {
  }

  /** A removal does not disturb lookups of any other agent. */
  lemma RemovalLeavesOthers(reg: Registry, runner: string, key: RouteKey, other: RouteKey, now: int, ttl: int, local: string, answer: Option<Place>)
    requires other != key
    ensures Resolves(Remove(reg, runner, key), now, ttl, other, local, answer) <==> Resolves(reg, now, ttl, other, local, answer)
  {
    var reg' := Remove(reg, runner, key);
    forall id ensures IsTop(reg', now, ttl, other, id) <==> IsTop(reg, now, ttl, other, id) {
      assert forall x :: x in reg.placements && Candidate(reg, now, ttl, other, reg.placements[x]) ==> x in reg'.placements;
    }
  }

  /** Of the agent itself, exactly the other runners' rows stay candidates. */
  lemma RemovalKeepsOtherRunners(reg: Registry, runner: string, key: RouteKey, now: int, ttl: int, id: string)
    ensures (id in Remove(reg, runner, key).placements
             && Candidate(Remove(reg, runner, key), now, ttl, key, Remove(reg, runner, key).placements[id]))
       <==> id in reg.placements && Candidate(reg, now, ttl, key, reg.placements[id]) && reg.placements[id].runner != runner
    ensures id in Remove(reg, runner, key).placements ==> Remove(reg, runner, key).placements[id] == reg.placements[id]
  {
  }

  lemma PrecedesTransitive(a: Place, b: Place, c: Place)
    requires !Precedes(a, b) && !Precedes(b, c)
    ensures !Precedes(a, c)
  {
    StrLtWeakOrder();
  }

  class SharedRegistry {
    var reg: Registry

    constructor ()
      ensures reg == Registry(map[], map[])
    {
      reg := Registry(map[], map[]);
    }

    /** `ClusterManager::new`: schema clean-up, sweep, registration. */
    method Join(me: Identity, now: int, ttl: int)
      modifies this
      ensures reg == Register(Sweep(DeleteLegacy(old(reg)), now, ttl), me, now)
      ensures me.runner in reg.runners && reg.runners[me.runner] == RunnerRow(me.endpoint, me.serviceId, now)
      ensures forall r :: r != me.runner ==>
        && (r in reg.runners <==> r in old(reg).runners && old(reg).runners[r].heartbeat >= now - ttl)
        && (r in reg.runners ==> reg.runners[r] == old(reg).runners[r])
      ensures reg.placements == DeleteLegacy(old(reg)).placements
      ensures forall now', ttl' :: Fresh(reg, me.runner, now', ttl') <==> now > now' - ttl'
      ensures forall r, ttl' :: r != me.runner && ttl' <= ttl ==> (Fresh(reg, r, now, ttl') <==> Fresh(old(reg), r, now, ttl'))
    {
      reg := DeleteLegacy(reg);
      SweepStaleRunners(now, ttl);
      reg := Register(reg, me, now);
    }

    method SweepStaleRunners(now: int, ttl: int)
      modifies this
      ensures reg == Sweep(old(reg), now, ttl)
    {
      reg := Sweep(reg, now, ttl);
    }

    method RecordPlacement(me: Identity, key: RouteKey, hash: string, now: int)
      modifies this
      ensures reg == Record(old(reg), me, key, hash, now)
      ensures forall now', ttl, local ::
        Fresh(old(reg), me.runner, now', ttl) && NewerThanAll(old(reg), now', ttl, key, now) ==>
          Resolves(reg, now', ttl, key, local, Elsewhere(me, key, hash, now, local))
      ensures var id := key.package + "/" + key.instance + "/" + me.runner;
        && id in reg.placements && reg.placements[id] == Place(key.package, key.instance, hash, me.runner, me.endpoint, true, now)
        && reg.placements.Keys == old(reg).placements.Keys + {id} && reg.runners == old(reg).runners
        && forall x :: x in old(reg).placements && x != id ==> reg.placements[x] == old(reg).placements[x]
    {
      forall now', ttl, local | Fresh(reg, me.runner, now', ttl) && NewerThanAll(reg, now', ttl, key, now)
        ensures Resolves(Record(reg, me, key, hash, now), now', ttl, key, local, Elsewhere(me, key, hash, now, local))
      {
        NewestPlacementWins(reg, me, key, hash, now, now', ttl, local);
      }
      reg := Record(reg, me, key, hash, now);
    }

    method RemovePlacement(me: Identity, key: RouteKey)
      modifies this
      ensures reg == Remove(old(reg), me.runner, key)
      ensures reg.runners == old(reg).runners
      ensures forall id :: id in reg.placements <==>
        && id in old(reg).placements
        && var p := old(reg).placements[id]; p.package != key.package || p.instance != key.instance || p.runner != me.runner
      ensures forall id :: id in reg.placements ==> reg.placements[id] == old(reg).placements[id]
    {
      reg := Remove(reg, me.runner, key);
    }

    method Beat(me: Identity, now: int)
      modifies this
      ensures reg == Heartbeat(old(reg), me.runner, now)
      ensures reg.placements == old(reg).placements && reg.runners.Keys == old(reg).runners.Keys
      ensures forall r :: r in reg.runners ==>
        && reg.runners[r].endpoint == old(reg).runners[r].endpoint && reg.runners[r].serviceId == old(reg).runners[r].serviceId
        && reg.runners[r].heartbeat == (if r == me.runner then now else old(reg).runners[r].heartbeat)
      ensures forall now', ttl :: Fresh(reg, me.runner, now', ttl) <==> me.runner in old(reg).runners && now > now' - ttl
      ensures forall r, now', ttl :: r != me.runner ==> (Fresh(reg, r, now', ttl) <==> Fresh(old(reg), r, now', ttl))
    {
      reg := Heartbeat(reg, me.runner, now);
    }

    method Resolve(key: RouteKey, local: string, now: int, ttl: int) returns (answer: Option<Place>)
      ensures Resolves(reg, now, ttl, key, local, answer)
      ensures answer.Some? ==> exists id :: Latest(reg, now, ttl, key, id) && answer.value == reg.placements[id] && answer.value.runner != local
      ensures answer == None ==> forall id :: Latest(reg, now, ttl, key, id) ==>
        exists own :: Latest(reg, now, ttl, key, own) && reg.placements[own].runner == local
    {
      var best: Option<string> := None;
      var left := reg.placements.Keys;
      while left != {}
        invariant left <= reg.placements.Keys
        invariant best == None ==> forall x :: x in reg.placements && x !in left ==> !Candidate(reg, now, ttl, key, reg.placements[x])
        invariant best.Some? ==> best.value in reg.placements && Candidate(reg, now, ttl, key, reg.placements[best.value])
        invariant best.Some? ==> forall x :: x in reg.placements && x !in left && Candidate(reg, now, ttl, key, reg.placements[x]) ==>
                    !Precedes(reg.placements[x], reg.placements[best.value])
        decreases |left|
      {
        var id :| id in left;
        left := left - {id};
        if Candidate(reg, now, ttl, key, reg.placements[id]) {
          StrLtIrreflexive(reg.placements[id].endpoint);
          if best == None {
            best := Some(id);
          } else if Precedes(reg.placements[id], reg.placements[best.value]) {
            NewBest(reg, now, ttl, key, reg.placements.Keys - left - {id}, best.value, id);
            best := Some(id);
          }
        }
      }
      if best == None {
        ResolvesIff(reg, now, ttl, key, local, None);
        return None;
      }
      assert IsTop(reg, now, ttl, key, best.value);
      LatestIsTop(reg, now, ttl, key, best.value);
      var p := reg.placements[best.value];
      if p.runner == local { return None; }
      answer := Some(p);
    }
  }

  lemma LatestIsTop(reg: Registry, now: int, ttl: int, key: RouteKey, id: string)
    requires IsTop(reg, now, ttl, key, id)
    ensures Latest(reg, now, ttl, key, id)
  {
    assert forall x :: x in reg.placements ==> (Candidate(reg, now, ttl, key, reg.placements[x]) <==> Live(reg, now, ttl, key, x));
  }

  lemma NewBest(reg: Registry, now: int, ttl: int, key: RouteKey, seen: set<string>, best: string, id: string)
    requires best in reg.placements && id in reg.placements && seen <= reg.placements.Keys
    requires Precedes(reg.placements[id], reg.placements[best])
    requires forall x :: x in seen && Candidate(reg, now, ttl, key, reg.placements[x]) ==> !Precedes(reg.placements[x], reg.placements[best])
    ensures forall x :: x in seen && Candidate(reg, now, ttl, key, reg.placements[x]) ==> !Precedes(reg.placements[x], reg.placements[id])
  {
    forall x | x in seen && Candidate(reg, now, ttl, key, reg.placements[x])
      ensures !Precedes(reg.placements[x], reg.placements[id])
    {
      assert !Precedes(reg.placements[best], reg.placements[id]) by { StrLtWeakOrder(); }
      PrecedesTransitive(reg.placements[x], reg.placements[best], reg.placements[id]);
    }
  }
}
