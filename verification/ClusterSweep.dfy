/** Sweeping stale runners is invisible to lookups: the tables with and without a sweep answer
    alike, however they go on, until a swept runner shows a sign of life
    (crates/baml-agent-runner/src/cluster.rs:176-194, 320-345, 347-520). */
module ClusterSweep {
  import opened Options
  import opened Routes
  import opened ClusterRegistry

  /** Anything that may happen to the shared tables. */
  datatype Op =
    | OpRegister(me: Identity, t: int)
    | OpHeartbeat(runner: string, t: int)
    | OpRecord(me: Identity, key: RouteKey, hash: string, t: int)
    | OpRemove(runner: string, key: RouteKey)
    | OpSweep(t: int, ttl: int)
    | OpDeleteLegacy

  function Apply(reg: Registry, op: Op): Registry {
    match op
    case OpRegister(me, t) => Register(reg, me, t)
    case OpHeartbeat(r, t) => Heartbeat(reg, r, t)
    case OpRecord(me, key, hash, t) => Record(reg, me, key, hash, t)
    case OpRemove(r, key) => Remove(reg, r, key)
    case OpSweep(t, ttl) => Sweep(reg, t, ttl)
    case OpDeleteLegacy => DeleteLegacy(reg)
  }

  function ApplyAll(reg: Registry, ops: seq<Op>): Registry {
    if ops == [] then reg else Apply(ApplyAll(reg, ops[..|ops| - 1]), ops[|ops| - 1])
  }

  /** `op` is a heartbeat or registration by one of `swept`. */
  predicate SignOfLife(op: Op, swept: set<string>) {
    (op.OpRegister? && op.me.runner in swept) || (op.OpHeartbeat? && op.runner in swept)
  }

  function Swept(reg: Registry, now: int, ttl: int): set<string> {
    set r | r in reg.runners && reg.runners[r].heartbeat < now - ttl
  }

  /** `b` is `a` without some runners, all silent since before `cut`. */
  ghost predicate Thinned(a: Registry, b: Registry, gone: set<string>, cut: int) {
    && a.placements == b.placements
    && (forall r :: r in b.runners ==> r in a.runners && a.runners[r] == b.runners[r])
    && (forall r :: r in a.runners && r !in b.runners ==> r in gone && a.runners[r].heartbeat < cut)
    && (forall r :: r in b.runners ==> r !in gone)
  }

  lemma SweepThins(reg: Registry, now: int, ttl: int)
    ensures Thinned(reg, Sweep(reg, now, ttl), Swept(reg, now, ttl), now - ttl)
  {
  }

  lemma OpKeepsThinned(a: Registry, b: Registry, gone: set<string>, cut: int, op: Op)
    requires Thinned(a, b, gone, cut) && !SignOfLife(op, gone)
    ensures Thinned(Apply(a, op), Apply(b, op), gone, cut)
  {
  }

  lemma {:induction false} OpsKeepThinned(a: Registry, b: Registry, gone: set<string>, cut: int, ops: seq<Op>)
    requires Thinned(a, b, gone, cut) && forall i :: 0 <= i < |ops| ==> !SignOfLife(ops[i], gone)
    ensures Thinned(ApplyAll(a, ops), ApplyAll(b, ops), gone, cut)
  {
    if ops != [] {
      OpsKeepThinned(a, b, gone, cut, ops[..|ops| - 1]);
      OpKeepsThinned(ApplyAll(a, ops[..|ops| - 1]), ApplyAll(b, ops[..|ops| - 1]), gone, cut, ops[|ops| - 1]);
    }
  }

  lemma SameCandidatesSameAnswers(a: Registry, b: Registry, now: int, ttl: int, key: RouteKey, local: string, answer: Option<Place>)
    requires a.placements == b.placements
    requires forall p :: Candidate(a, now, ttl, key, p) <==> Candidate(b, now, ttl, key, p)
    ensures Resolves(a, now, ttl, key, local, answer) <==> Resolves(b, now, ttl, key, local, answer)
  {
    forall id ensures IsTop(a, now, ttl, key, id) <==> IsTop(b, now, ttl, key, id) {
    }
  }

  /** A sweep never changes what a resolver returns, at the sweep or any time later, whatever else
      happens to the tables in between, as long as the resolver's freshness limit is not older
      than the sweep's and no swept runner gives a sign of life. */
  lemma SweepIsInvisible(reg: Registry, now: int, ttl: int, ops: seq<Op>, now': int, ttl': int,
                         key: RouteKey, local: string, answer: Option<Place>)
    requires forall i :: 0 <= i < |ops| ==> !SignOfLife(ops[i], Swept(reg, now, ttl))
    requires now' - ttl' >= now - ttl
    ensures Resolves(ApplyAll(Sweep(reg, now, ttl), ops), now', ttl', key, local, answer)
       <==> Resolves(ApplyAll(reg, ops), now', ttl', key, local, answer)
  {
    var gone := Swept(reg, now, ttl);
    SweepThins(reg, now, ttl);
    OpsKeepThinned(reg, Sweep(reg, now, ttl), gone, now - ttl, ops);
    SameCandidatesSameAnswers(ApplyAll(reg, ops), ApplyAll(Sweep(reg, now, ttl), ops), now', ttl', key, local, answer);
  }

  /** Right after a sweep, a resolver with its own clock and limit agrees on every conceivable row
      exactly when it finds no swept runner fresh; with one common limit that always holds. */
  lemma SweepVisibleIff(reg: Registry, now: int, ttl: int, now': int, ttl': int)
    ensures (forall key, p :: Candidate(reg, now', ttl', key, p) <==> Candidate(Sweep(reg, now, ttl), now', ttl', key, p))
       <==> (forall r :: r in Swept(reg, now, ttl) ==> !Fresh(reg, r, now', ttl'))
  {
    if r :| r in Swept(reg, now, ttl) && Fresh(reg, r, now', ttl') {
      var p := Place("", "", "", r, "", true, 0);
      assert Candidate(reg, now', ttl', RouteKey("", ""), p) && !Candidate(Sweep(reg, now, ttl), now', ttl', RouteKey("", ""), p);
    }
  }

  /** A heartbeat makes a runner routable exactly when it still has its row and the time is recent. */
  lemma HeartbeatRevivesIff(reg: Registry, r: string, t: int, now: int, ttl: int)
    ensures Fresh(Heartbeat(reg, r, t), r, now, ttl) <==> r in reg.runners && t > now - ttl
  {
  }

  /** A swept runner's heartbeat is where the two tables part: unswept it makes the runner
      routable again, swept it does not, until the runner registers anew. */
  lemma HeartbeatDoesNotReviveSwept(reg: Registry, now: int, ttl: int, r: string, t: int, now': int, ttl': int, me: Identity)
    requires r in Swept(reg, now, ttl) && me.runner == r
    ensures Fresh(Heartbeat(reg, r, t), r, now', ttl') <==> t > now' - ttl'
    ensures !Fresh(Heartbeat(Sweep(reg, now, ttl), r, t), r, now', ttl')
    ensures Fresh(Register(Sweep(reg, now, ttl), me, t), r, now', ttl') <==> t > now' - ttl'
  {
  }

  /** For instance a runner that was silent for longer than the limit and beats again after another
      one swept the table. */
  lemma SilentRunnerStaysOut()
    ensures var reg := Registry(map[], map["r" := RunnerRow("e", "s", 0)]);
            && Fresh(Heartbeat(reg, "r", 101), "r", 102, 50)
            && !Fresh(Heartbeat(Sweep(reg, 100, 50), "r", 101), "r", 102, 50)
  {
  }
}
