/** Requests travelling between runners (crates/baml-agent-runner/src/runner.rs:553-615,
    crates/baml-agent-runner/src/routing.rs:165-243, crates/baml-agent-runner/src/cluster.rs:160-251). */
module ClusterForwarding {
  import opened Options
  import opened Orders
  import opened Routes
  import opened ClusterRegistry

  /** The cluster at one instant: the tables, the database clock, and the route keys each runner
      handles (or refuses as draining) itself. */
  datatype Snapshot = Snapshot(reg: Registry, now: int, hosts: map<string, set<RouteKey>>)

  predicate Hosts(s: Snapshot, runner: string, key: RouteKey) {
    runner in s.hosts && key in s.hosts[runner]
  }

  /** Runner `from` passes a request for `key` on to runner `to`: it does not host the agent, the
      lookup names another runner's row, and `serves` says who answers at that row's endpoint. */
  ghost predicate Forwards(s: Snapshot, ttl: int, serves: string -> string, key: RouteKey, from: string, to: string) {
    && !Hosts(s, from, key)
    && exists p :: Resolves(s.reg, s.now, ttl, key, from, Some(p)) && to == serves(p.endpoint)
  }

  /** A runner passes a request on exactly when it does not handle the agent itself and the lookup gives
      it another runner's row. */
  lemma ForwardsIff(s: Snapshot, ttl: int, serves: string -> string, key: RouteKey, from: string, to: string)
    ensures Forwards(s, ttl, serves, key, from, to) <==>
              && (from in s.hosts ==> key !in s.hosts[from])
              && exists id :: Latest(s.reg, s.now, ttl, key, id) && s.reg.placements[id].runner != from && to == serves(s.reg.placements[id].endpoint)
  {
    forall p { ResolvesIff(s.reg, s.now, ttl, key, from, Some(p)); }
  }

  /** A request seen by `runners[i]` while the cluster is in state `history[at[i]]`. */
  ghost predicate IsTrip(history: seq<Snapshot>, ttl: int, serves: string -> string, key: RouteKey,
                         at: seq<nat>, runners: seq<string>) {
    && |at| == |runners| > 0
    && (forall i :: 0 <= i < |at| ==> at[i] < |history|)
    && (forall i :: 0 <= i < |at| - 1 ==>
          at[i] <= at[i + 1] && Forwards(history[at[i]], ttl, serves, key, runners[i], runners[i + 1]))
  }

  /** The runner of the row every resolver sees first. */
  ghost function TopRunner(s: Snapshot, ttl: int, key: RouteKey): Option<string> {
    if exists id :: IsTop(s.reg, s.now, ttl, key, id)
    then
      var id :| IsTop(s.reg, s.now, ttl, key, id);
      Some(s.reg.placements[id].runner)
    else None
  }

  /** Rows are told apart by timestamp and endpoint, and a row's endpoint is answered by the
      runner the row belongs to. */
  ghost predicate WellPlaced(s: Snapshot, ttl: int, serves: string -> string, key: RouteKey) {
    && NoTies(s.reg, s.now, ttl, key)
    && forall id :: IsTop(s.reg, s.now, ttl, key, id) ==>
         serves(s.reg.placements[id].endpoint) == s.reg.placements[id].runner
  }

  /** A forward always goes to the top row's runner, and never starts there. */
  lemma ForwardGoesToTop(s: Snapshot, ttl: int, serves: string -> string, key: RouteKey, from: string, to: string)
    requires WellPlaced(s, ttl, serves, key) && Forwards(s, ttl, serves, key, from, to)
    ensures TopRunner(s, ttl, key) == Some(to) && from != to
  {
    var p :| Resolves(s.reg, s.now, ttl, key, from, Some(p)) && to == serves(p.endpoint);
    var id :| IsTop(s.reg, s.now, ttl, key, id)
      && Some(p) == (if s.reg.placements[id].runner == from then None else Some(s.reg.placements[id]));
    forall x | IsTop(s.reg, s.now, ttl, key, x) ensures x == id {
      TopIsUnique(s.reg, s.now, ttl, key, x, id);
    }
  }

  /** How often the top row's runner changed between two instants. */
  ghost function Changes(history: seq<Snapshot>, ttl: int, key: RouteKey, a: nat, b: nat): nat
    requires a <= b < |history|
  {
    if a == b then 0
    else Changes(history, ttl, key, a, b - 1)
         + if TopRunner(history[b - 1], ttl, key) != TopRunner(history[b], ttl, key) then 1 else 0
  }

  lemma {:induction false} NoChangesIff(history: seq<Snapshot>, ttl: int, key: RouteKey, a: nat, b: nat)
    requires a <= b < |history|
    ensures Changes(history, ttl, key, a, b) == 0 <==>
              forall i :: a <= i < b ==> TopRunner(history[i], ttl, key) == TopRunner(history[i + 1], ttl, key)
    ensures Changes(history, ttl, key, a, b) <= b - a
    decreases b
  {
    if a < b { NoChangesIff(history, ttl, key, a, b - 1); }
  }

  lemma {:induction false} ChangesAdd(history: seq<Snapshot>, ttl: int, key: RouteKey, a: nat, b: nat, c: nat)
    requires a <= b <= c < |history|
    ensures Changes(history, ttl, key, a, c) == Changes(history, ttl, key, a, b) + Changes(history, ttl, key, b, c)
    decreases c
  {
    if b < c { ChangesAdd(history, ttl, key, a, b, c - 1); }
  }

  lemma {:induction false} DifferentTopsChanged(history: seq<Snapshot>, ttl: int, key: RouteKey, a: nat, b: nat)
    requires a <= b < |history| && TopRunner(history[a], ttl, key) != TopRunner(history[b], ttl, key)
    ensures Changes(history, ttl, key, a, b) >= 1
    decreases b
  {
    if TopRunner(history[b - 1], ttl, key) == TopRunner(history[b], ttl, key) {
      DifferentTopsChanged(history, ttl, key, a, b - 1);
    }
  }

  /** Forwarding cannot loop: a request is forwarded at most once more than the top row's runner
      changed while it was under way. */
  lemma {:induction false} ForwardsBoundedByChanges(history: seq<Snapshot>, ttl: int, serves: string -> string, key: RouteKey,
                                                    at: seq<nat>, runners: seq<string>)
    requires IsTrip(history, ttl, serves, key, at, runners)
    requires forall i :: 0 <= i < |history| ==> WellPlaced(history[i], ttl, serves, key)
    ensures at[0] <= at[|at| - 1] && (|at| >= 2 ==> at[|at| - 2] < |history| && at[0] <= at[|at| - 2])
    ensures |at| >= 2 ==> |at| - 1 <= 1 + Changes(history, ttl, key, at[0], at[|at| - 2])
    decreases |at|
  {
    if |at| >= 2 {
      var n := |at| - 1;
      ForwardsBoundedByChanges(history, ttl, serves, key, at[..n], runners[..n]);
      assert at[n - 1] <= at[n];
      if n >= 2 {
        assert Forwards(history[at[n - 2]], ttl, serves, key, runners[n - 2], runners[n - 1]);
        assert Forwards(history[at[n - 1]], ttl, serves, key, runners[n - 1], runners[n]);
        ForwardGoesToTop(history[at[n - 2]], ttl, serves, key, runners[n - 2], runners[n - 1]);
        ForwardGoesToTop(history[at[n - 1]], ttl, serves, key, runners[n - 1], runners[n]);
        assert at[n - 2] <= at[n - 1];
        DifferentTopsChanged(history, ttl, key, at[n - 2], at[n - 1]);
        ChangesAdd(history, ttl, key, at[0], at[n - 2], at[n - 1]);
      }
    }
  }

  /** On an unchanged cluster a request is forwarded at most once. */
  lemma AtMostOneForward(s: Snapshot, ttl: int, serves: string -> string, key: RouteKey, at: seq<nat>, runners: seq<string>)
    requires IsTrip([s], ttl, serves, key, at, runners) && WellPlaced(s, ttl, serves, key)
    ensures |runners| <= 2
  {
    ForwardsBoundedByChanges([s], ttl, serves, key, at, runners);
  }

  /** Rows that may be returned first share time and endpoint. */
  lemma TopsShareEndpoint(s: Snapshot, ttl: int, key: RouteKey, a: string, b: string)
    requires IsTop(s.reg, s.now, ttl, key, a) && IsTop(s.reg, s.now, ttl, key, b)
    ensures s.reg.placements[a].endpoint == s.reg.placements[b].endpoint
  {
    StrLtTotal(s.reg.placements[a].endpoint, s.reg.placements[b].endpoint);
  }

  /** On an unchanged cluster some request is forwarded twice exactly when the endpoint of a top row
      is answered by a runner that neither hosts the agent nor owns the row, such as a process
      restarted under a new random id; and then it is forwarded without end. */
  lemma EndlessIffStrangerAtEndpoint(s: Snapshot, ttl: int, serves: string -> string, key: RouteKey)
    ensures (exists a, b, c :: Forwards(s, ttl, serves, key, a, b) && Forwards(s, ttl, serves, key, b, c))
       <==> (exists id :: IsTop(s.reg, s.now, ttl, key, id) && Stranger(s, serves, key, id))
  {
    if id :| IsTop(s.reg, s.now, ttl, key, id) && Stranger(s, serves, key, id) {
      StrangerForwardsToItself(s, ttl, serves, key, id);
    }
    if a, b, c :| Forwards(s, ttl, serves, key, a, b) && Forwards(s, ttl, serves, key, b, c) {
      var id := ForwardedByTop(s, ttl, serves, key, a, b);
      var id2 := ForwardedByTop(s, ttl, serves, key, b, c);
      TopsShareEndpoint(s, ttl, key, id, id2);
      assert Stranger(s, serves, key, id2);
    }
  }

  ghost predicate Stranger(s: Snapshot, serves: string -> string, key: RouteKey, id: string) {
    && id in s.reg.placements
    && var r := serves(s.reg.placements[id].endpoint);
       r != s.reg.placements[id].runner && !Hosts(s, r, key)
  }

  lemma ForwardedByTop(s: Snapshot, ttl: int, serves: string -> string, key: RouteKey, a: string, b: string) returns (id: string)
    requires Forwards(s, ttl, serves, key, a, b)
    ensures IsTop(s.reg, s.now, ttl, key, id)
    ensures b == serves(s.reg.placements[id].endpoint) && a != s.reg.placements[id].runner && !Hosts(s, a, key)
  {
    var p :| Resolves(s.reg, s.now, ttl, key, a, Some(p)) && b == serves(p.endpoint);
    id :| IsTop(s.reg, s.now, ttl, key, id)
      && Some(p) == (if s.reg.placements[id].runner == a then None else Some(s.reg.placements[id]));
  }

  lemma StrangerForwardsToItself(s: Snapshot, ttl: int, serves: string -> string, key: RouteKey, id: string)
    requires IsTop(s.reg, s.now, ttl, key, id) && Stranger(s, serves, key, id)
    ensures var r := serves(s.reg.placements[id].endpoint); Forwards(s, ttl, serves, key, r, r)
  {
    var p := s.reg.placements[id];
    assert Resolves(s.reg, s.now, ttl, key, serves(p.endpoint), Some(p));
  }

  lemma StrangerLoops(s: Snapshot, ttl: int, serves: string -> string, key: RouteKey, id: string, n: nat)
    requires IsTop(s.reg, s.now, ttl, key, id) && Stranger(s, serves, key, id)
    ensures exists at, runners :: IsTrip([s], ttl, serves, key, at, runners) && |runners| == n + 1
  {
    StrangerForwardsToItself(s, ttl, serves, key, id);
    var at := seq(n + 1, i => 0);
    var runners := seq(n + 1, i => serves(s.reg.placements[id].endpoint));
    assert IsTrip([s], ttl, serves, key, at, runners);
  }

  function AnsweredByNew(endpoint: string): string { "new" }

  /** A runner restarted under a new id behind its old endpoint, its old row still fresh: a request
      for the agent it no longer hosts can be forwarded any number of times. */
  lemma RestartedRunnerLoops(n: nat) returns (s: Snapshot, at: seq<nat>, runners: seq<string>)
    ensures s.reg == Registry(map["p/default/old" := Place("p", "default", "h", "old", "e", true, 1)], map["old" := RunnerRow("e", "s", 10)])
    ensures s.hosts == map[] && IsTrip([s], 5, AnsweredByNew, RouteKey("p", "default"), at, runners) && |runners| == n + 1
  {
    var row := Place("p", "default", "h", "old", "e", true, 1);
    s := Snapshot(Registry(map["p/default/old" := row], map["old" := RunnerRow("e", "s", 10)]), 11, map[]);
    StrLtIrreflexive("e");
    assert IsTop(s.reg, s.now, 5, RouteKey("p", "default"), "p/default/old");
    StrangerLoops(s, 5, AnsweredByNew, RouteKey("p", "default"), "p/default/old", n);
    at, runners :| IsTrip([s], 5, AnsweredByNew, RouteKey("p", "default"), at, runners) && |runners| == n + 1;
  }
}
