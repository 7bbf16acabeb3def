/** Any number of deploys, undeploys and requests running concurrently on one runner. Each
    lock-held section is one step; between steps every other operation may run. A request
    handler reads the lifecycle flag and the route in two steps while it keeps the read lock
    on `agents`, so flags may be stored in between but no map can be written
    (crates/baml-agent-runner/src/runner.rs:553-675, 856-1085). */
module RunnerProtocol {
  import opened Options
  import opened Routes
  import opened RestoreDedupe
  import opened RunnerState

  /** Where an operation is. `resume` is the hash a superseding deploy continues with. */
  datatype Pc =
    | Finished
    | DeployCheck(h: Hash)
    | DeployFetch(h: Hash)
    | DeployLookup(h: Hash, package: string)
    | DeployBoot(h: Hash)
    | DeployInstall(h: Hash, booted: Booted)
    | DeploySave(h: Hash, booted: Booted)
    | DeployRollback(booted: Booted)
    | UndeployFind(h: Hash, resume: Option<Hash>)
    | UndeployDrain(h: Hash, target: string, booted: Booted, resume: Option<Hash>)
    | UndeployRemove(h: Hash, target: string, booted: Booted, resume: Option<Hash>)
    | UndeployDelete(h: Hash, resume: Option<Hash>)
    | HandleRead(key: RouteKey)
    | HandleRoute(key: RouteKey, seen: Option<Booted>)
    | HandleServe(key: RouteKey, id: nat, seen: Option<Booted>)

  datatype System = System(runner: Runner, threads: map<nat, Pc>)

  /** Someone holds the read lock on `agents` across a step. */
  ghost predicate ReadLocked(s: System) {
    exists t :: t in s.threads && s.threads[t].HandleRoute?
  }

  function Lookup(r: Runner, package: string): Option<Booted> {
    if package in r.agents then Some(r.agents[package]) else None
  }

  function AfterUndeploy(resume: Option<Hash>): Pc {
    match resume case Some(h) => DeployBoot(h) case None => Finished
  }

  /** One step of one operation from `pc`; fetching, booting and database statements may fail,
      and names read from a fetched package are arbitrary. */
  ghost predicate ThreadStep(r: Runner, locked: bool, pc: Pc, r': Runner, pc': Pc) {
    match pc
    case Finished => false
    case DeployCheck(h) =>
      r' == r && pc' == (if HoldsHash(r, h) then Finished else DeployFetch(h))
    case DeployFetch(h) =>
      r' == r && (pc' == Finished || (pc'.DeployLookup? && pc'.h == h))
    case DeployLookup(h, package) =>
      && r' == r
      && pc' == (match Lookup(r, package)
                 case Some(Booted(_, _, Some(prior))) =>
                   if prior == h then Finished else UndeployFind(prior, Some(h))
                 case _ => DeployBoot(h))
    case DeployBoot(h) =>
      || (r' == r && pc' == Finished)
      || (pc'.DeployInstall? && pc'.h == h && (r', pc'.booted) == NewInstance(r, pc'.booted.name, h))
    case DeployInstall(h, b) =>
      && !locked
      && (if InstallCheck(r, b, h) == Installed then r' == Install(r, b) && pc' == DeploySave(h, b)
          else r' == r && pc' == Finished)
    case DeploySave(h, b) =>
      exists now, w :: r' == SaveRow(r, ActiveRow(h, b.name, now), w) && pc' == (if w == Applied then Finished else DeployRollback(b))
    case DeployRollback(b) =>
      !locked && r' == Unroute(r, b.name, b.name) && pc' == Finished
    case UndeployFind(h, resume) =>
      if HoldsHash(r, h) then
        && pc'.UndeployDrain? && pc'.h == h && pc'.resume == resume
        && pc'.target in r.agents && pc'.booted == r.agents[pc'.target] && pc'.booted.hash == Some(h)
        && r' == MarkDraining(r, pc'.booted)
      else r' == r && pc' == AfterUndeploy(resume)
    case UndeployDrain(h, target, b, resume) =>
      r' == r && (pc' == pc || pc' == UndeployRemove(h, target, b, resume))
    case UndeployRemove(h, target, b, resume) =>
      !locked && r' == Unroute(r, target, b.name) && pc' == UndeployDelete(h, resume)
    case UndeployDelete(h, resume) =>
      exists w :: r' == DeleteRow(r, h, w) && pc' == (if w == Applied then AfterUndeploy(resume) else Finished)
    case HandleRead(key) =>
      && r' == r
      && var seen := Lookup(r, key.package);
         pc' == (if seen.Some? && seen.value.id in r.draining then Finished else HandleRoute(key, seen))
    case HandleRoute(key, seen) =>
      r' == r && pc' == (if key in r.routed then HandleServe(key, r.routed[key], seen) else Finished)
    case HandleServe(key, id, seen) =>
      r' == r && pc' == Finished
  }

  predicate IsStart(pc: Pc) {
    pc.DeployCheck? || (pc.UndeployFind? && pc.resume == None) || pc.HandleRead?
  }

  /** Operation `t` begins, or makes one step. */
  ghost predicate Next(s: System, t: nat, s': System) {
    && t in s'.threads
    && s'.threads == s.threads[t := s'.threads[t]]
    && (if t !in s.threads || s.threads[t] == Finished then s'.runner == s.runner && IsStart(s'.threads[t])
        else ThreadStep(s.runner, ReadLocked(s), s.threads[t], s'.runner, s'.threads[t]))
  }

  /** Instances are numbered as they are booted: every one known is below the next number, and no
      two agents are the same instance. */
  ghost predicate Numbered(r: Runner) {
    && (forall n :: n in r.agents ==> r.agents[n].id < r.nextId)
    && (forall id :: id in r.draining ==> id < r.nextId)
    && (forall m, n :: m in r.agents && n in r.agents && r.agents[m].id == r.agents[n].id ==> m == n)
  }

  /** A run from any quiet, consistent runner. */
  ghost predicate IsRun(run: seq<System>, who: seq<nat>) {
    && |run| == |who| + 1
    && Consistent(run[0].runner) && Numbered(run[0].runner) && run[0].threads == map[]
    && forall i :: 0 <= i < |who| ==> Next(run[i], who[i], run[i + 1])
  }

  /** What an operation in flight still knows to be true. */
  ghost predicate PcOk(r: Runner, pc: Pc) {
    match pc
    case DeployInstall(h, b) => b.hash == Some(h)
    case UndeployDrain(h, target, b, _) => b.name == target && b.id in r.draining
    case UndeployRemove(h, target, b, _) => b.name == target && b.id in r.draining
    case HandleRoute(key, seen) => seen == Lookup(r, key.package)
    case HandleServe(key, id, seen) => key.instance == DEFAULT_INSTANCE && seen.Some? && seen.value.id == id
    case _ => true
  }

  ghost predicate Inv(s: System) {
    && Consistent(s.runner)
    && forall t :: t in s.threads ==> PcOk(s.runner, s.threads[t])
  }

  /** One step of one operation keeps the maps in agreement and its own knowledge true. */
  lemma StepOk(r: Runner, locked: bool, pc: Pc, r': Runner, pc': Pc)
    requires Consistent(r) && PcOk(r, pc) && ThreadStep(r, locked, pc, r', pc')
    ensures Consistent(r') && PcOk(r', pc')
  {
    match pc
    case DeployInstall(h, b) =>
      if InstallCheck(r, b, h) == Installed { InstallKeepsConsistent(r, b, h); }
    case DeployRollback(b) => UnrouteKeepsConsistent(r, b.name);
    case UndeployRemove(h, target, b, resume) => UnrouteKeepsConsistent(r, target);
    case _ =>
  }

  /** What a step can change for the others: flags only grow, and while the read lock is held
      the maps do not move. */
  lemma StepFrame(r: Runner, locked: bool, pc: Pc, r': Runner, pc': Pc)
    requires ThreadStep(r, locked, pc, r', pc')
    ensures r.draining <= r'.draining
    ensures locked ==> r'.agents == r.agents && r'.routed == r.routed
  {
  }

  lemma NextKeepsInv(s: System, t: nat, s': System)
    requires Inv(s) && Next(s, t, s')
    ensures Inv(s') && s.runner.draining <= s'.runner.draining
  {
    if t in s.threads && s.threads[t] != Finished {
      StepOk(s.runner, ReadLocked(s), s.threads[t], s'.runner, s'.threads[t]);
      StepFrame(s.runner, ReadLocked(s), s.threads[t], s'.runner, s'.threads[t]);
      forall u | u in s'.threads ensures PcOk(s'.runner, s'.threads[u]) {
        if u != t {
          assert u in s.threads && s'.threads[u] == s.threads[u];
        }
      }
    }
  }

  /** In every state of every run, whatever fails and however operations interleave, the two
      maps agree and no content hash runs twice. */
  lemma {:induction false} MapsAlwaysAgree(run: seq<System>, who: seq<nat>, i: nat)
    requires IsRun(run, who) && i < |run|
    ensures Inv(run[i]) && MapsAgree(run[i].runner) && HashesUnique(run[i].runner)
  {
    if i > 0 {
      MapsAlwaysAgree(run, who, i - 1);
      NextKeepsInv(run[i - 1], who[i - 1], run[i]);
    }
  }

  // Instances.

  predicate Holds(pc: Pc) {
    pc.DeployInstall? || pc.DeploySave? || pc.DeployRollback? || pc.UndeployDrain? || pc.UndeployRemove?
  }

  /** The instance a deploy has booted and not installed yet is active and nobody else's. */
  ghost predicate Unseen(s: System, t: nat)
    requires t in s.threads && s.threads[t].DeployInstall?
  {
    var b := s.threads[t].booted;
    && (forall n :: n in s.runner.agents ==> s.runner.agents[n].id != b.id)
    && b.id !in s.runner.draining
    && (forall u :: u in s.threads && u != t && Holds(s.threads[u]) ==> s.threads[u].booted.id != b.id)
  }

  ghost predicate Identities(s: System) {
    && Numbered(s.runner)
    && (forall t :: t in s.threads && Holds(s.threads[t]) ==> s.threads[t].booted.id < s.runner.nextId)
    && (forall t :: t in s.threads && s.threads[t].DeployInstall? ==> Unseen(s, t))
  }

  lemma StepAgents(r: Runner, locked: bool, pc: Pc, r': Runner, pc': Pc)
    requires ThreadStep(r, locked, pc, r', pc')
    ensures r.nextId <= r'.nextId
    ensures forall n :: n in r'.agents ==>
              || (n in r.agents && r'.agents[n] == r.agents[n])
              || (pc.DeployInstall? && n == pc.booted.name && r'.agents[n] == pc.booted)
  {
  }

  lemma StepFlags(r: Runner, locked: bool, pc: Pc, r': Runner, pc': Pc)
    requires ThreadStep(r, locked, pc, r', pc')
    ensures forall id :: id in r'.draining ==> id in r.draining || exists n :: n in r.agents && r.agents[n].id == id
  {
  }

  lemma StepHolds(r: Runner, locked: bool, pc: Pc, r': Runner, pc': Pc)
    requires ThreadStep(r, locked, pc, r', pc') && Holds(pc')
    ensures || (Holds(pc) && pc'.booted == pc.booted && !pc'.DeployInstall?)
            || (pc'.DeployInstall? && pc'.booted.id == r.nextId && r' == r.(nextId := r.nextId + 1))
            || (!pc'.DeployInstall? && exists n :: n in r.agents && r.agents[n] == pc'.booted)
  {
  }

  /** What a step can do to the instances: boot a new one, install the one it booted, or mark and
      remember a running one. */
  lemma StepInstances(r: Runner, locked: bool, pc: Pc, r': Runner, pc': Pc)
    requires ThreadStep(r, locked, pc, r', pc') && Numbered(r)
    requires pc.DeployInstall? ==> pc.booted.id < r.nextId && forall n :: n in r.agents ==> r.agents[n].id != pc.booted.id
    requires Holds(pc) ==> pc.booted.id < r.nextId
    ensures Numbered(r') && r.nextId <= r'.nextId
    ensures Holds(pc') ==> pc'.booted.id < r'.nextId
  {
    StepAgents(r, locked, pc, r', pc');
    StepFlags(r, locked, pc, r', pc');
    if Holds(pc') { StepHolds(r, locked, pc, r', pc'); }
  }

  lemma OtherStaysUnseen(s: System, t: nat, s': System, u: nat)
    requires Identities(s) && Next(s, t, s') && u != t && u in s.threads && s.threads[u].DeployInstall?
    ensures u in s'.threads && s'.threads[u] == s.threads[u] && Unseen(s', u)
  {
    assert Unseen(s, u);
    if t in s.threads && s.threads[t] != Finished {
      if s.threads[t].DeployInstall? { assert Unseen(s, t); }
      StepAgents(s.runner, ReadLocked(s), s.threads[t], s'.runner, s'.threads[t]);
      StepFlags(s.runner, ReadLocked(s), s.threads[t], s'.runner, s'.threads[t]);
      if Holds(s'.threads[t]) { StepHolds(s.runner, ReadLocked(s), s.threads[t], s'.runner, s'.threads[t]); }
    }
  }

  lemma NewIsUnseen(s: System, t: nat, s': System)
    requires Identities(s) && Next(s, t, s') && s'.threads[t].DeployInstall?
    ensures Unseen(s', t)
  {
    StepHolds(s.runner, ReadLocked(s), s.threads[t], s'.runner, s'.threads[t]);
  }

  lemma NextKeepsIdentities(s: System, t: nat, s': System)
    requires Identities(s) && Next(s, t, s')
    ensures Identities(s')
  {
    if t in s.threads && s.threads[t] != Finished {
      if s.threads[t].DeployInstall? { assert Unseen(s, t); }
      StepInstances(s.runner, ReadLocked(s), s.threads[t], s'.runner, s'.threads[t]);
    }
    forall u | u in s'.threads && s'.threads[u].DeployInstall? ensures Unseen(s', u) {
      if u == t { NewIsUnseen(s, t, s'); } else { OtherStaysUnseen(s, t, s', u); }
    }
  }

  /** In every state of every run instances are told apart by their numbers, and an instance waiting
      to be installed is active and known to its deploy alone. */
  lemma {:induction false} InstancesAreDistinct(run: seq<System>, who: seq<nat>, i: nat)
    requires IsRun(run, who) && i < |run|
    ensures Identities(run[i])
  {
    if i > 0 {
      InstancesAreDistinct(run, who, i - 1);
      NextKeepsIdentities(run[i - 1], who[i - 1], run[i]);
    }
  }

  lemma NextGrowsDraining(s: System, t: nat, s': System)
    requires Next(s, t, s')
    ensures s.runner.draining <= s'.runner.draining
  {
    if t in s.threads && s.threads[t] != Finished {
      StepFrame(s.runner, ReadLocked(s), s.threads[t], s'.runner, s'.threads[t]);
    }
  }

  /** A lifecycle flag once stored as draining stays so. */
  lemma {:induction false} DrainingIsForever(run: seq<System>, who: seq<nat>, i: nat, j: nat)
    requires IsRun(run, who) && i <= j < |run|
    ensures run[i].runner.draining <= run[j].runner.draining
    decreases j
  {
    if i < j {
      DrainingIsForever(run, who, i, j - 1);
      NextGrowsDraining(run[j - 1], who[j - 1], run[j]);
    }
  }

  /** Step `i` of the run is operation `t` reading the lifecycle of `seen` and finding it active. */
  ghost predicate AdmittingRead(run: seq<System>, who: seq<nat>, i: nat, t: nat, key: RouteKey, seen: Option<Booted>) {
    && i < |who| && i + 1 < |run| && who[i] == t
    && t in run[i].threads && run[i].threads[t] == HandleRead(key)
    && seen == Lookup(run[i].runner, key.package)
    && (seen.Some? ==> seen.value.id !in run[i].runner.draining)
  }

  /** Whoever is past the lifecycle check has made it, in this run, and saw that agent. */
  lemma {:induction false} PassedTheCheck(run: seq<System>, who: seq<nat>, j: nat, t: nat, key: RouteKey, seen: Option<Booted>) returns (i: nat)
    requires IsRun(run, who) && j < |run| && t in run[j].threads
    requires run[j].threads[t] == HandleRoute(key, seen)
          || (run[j].threads[t].HandleServe? && run[j].threads[t].key == key && run[j].threads[t].seen == seen)
    ensures i < j && AdmittingRead(run, who, i, t, key, seen)
  {
    assert j > 0;
    assert Next(run[j - 1], who[j - 1], run[j]);
    if who[j - 1] == t && run[j].threads[t].HandleRoute? {
      i := j - 1;
    } else {
      i := PassedTheCheck(run, who, j - 1, t, key, seen);
    }
  }

  /** A request dispatched by `handle_a2a_by_key` or `handle_dispatch_by_key` goes to the very
      instance whose lifecycle this request read, that read saw it active, and it happened
      before any operation marked the instance as draining. */
  lemma DispatchReachesTheAdmittedInstance(run: seq<System>, who: seq<nat>, j: nat, t: nat) returns (i: nat)
    requires IsRun(run, who) && j < |run| && t in run[j].threads && run[j].threads[t].HandleServe?
    ensures i < j && AdmittingRead(run, who, i, t, run[j].threads[t].key, run[j].threads[t].seen)
    ensures run[j].threads[t].seen.Some? && run[j].threads[t].seen.value.id == run[j].threads[t].id
    ensures run[j].threads[t].key.instance == "default"
    ensures forall m :: 0 <= m < |run| && run[j].threads[t].id in run[m].runner.draining ==> i < m
  {
    var pc := run[j].threads[t];
    i := PassedTheCheck(run, who, j, t, pc.key, pc.seen);
    MapsAlwaysAgree(run, who, j);
    forall m | 0 <= m < |run| && pc.id in run[m].runner.draining ensures i < m {
      if m <= i { DrainingIsForever(run, who, m, i); }
    }
  }

  /** The operation is going to take the agent called `name` out of the maps, or may have to. */
  predicate Claims(pc: Pc, name: string) {
    || ((pc.UndeployDrain? || pc.UndeployRemove?) && pc.target == name)
    || ((pc.DeploySave? || pc.DeployRollback?) && pc.booted.name == name)
  }

  /** Its next step does. */
  predicate Removes(pc: Pc, name: string) {
    (pc.UndeployRemove? && pc.target == name) || (pc.DeployRollback? && pc.booted.name == name)
  }

  /** Operation `t` is about to remove a package that another operation has a claim on. */
  ghost predicate Clash(s: System, t: nat) {
    exists u, name :: u != t && u in s.threads && t in s.threads && Removes(s.threads[t], name) && Claims(s.threads[u], name)
  }

  /** Whoever is going to take an agent out of the maps will take out the instance it means. */
  ghost predicate OwnTarget(s: System) {
    forall t :: t in s.threads ==> forall name :: Claims(s.threads[t], name) ==>
      Lookup(s.runner, name) == Some(s.threads[t].booted)
  }

  /** A step that does not remove `name` leaves a running agent of that name in place. */
  lemma OthersTargetStays(r: Runner, locked: bool, pc: Pc, r': Runner, pc': Pc, name: string, b: Booted)
    requires Consistent(r) && PcOk(r, pc) && ThreadStep(r, locked, pc, r', pc')
    requires Lookup(r, name) == Some(b) && !Removes(pc, name)
    ensures Lookup(r', name) == Some(b)
  {
  }

  lemma OwnTargetFollows(r: Runner, locked: bool, pc: Pc, r': Runner, pc': Pc, name: string)
    requires Consistent(r) && PcOk(r, pc) && ThreadStep(r, locked, pc, r', pc')
    requires forall n :: Claims(pc, n) ==> Lookup(r, n) == Some(pc.booted)
    requires Claims(pc', name)
    ensures Lookup(r', name) == Some(pc'.booted)
  {
    if Claims(pc, name) {
      assert pc.booted == pc'.booted;
    }
  }

  lemma NextKeepsOwnTarget(s: System, t: nat, s': System)
    requires Inv(s) && OwnTarget(s) && !Clash(s, t) && Next(s, t, s')
    ensures OwnTarget(s')
  {
    forall u, name | u in s'.threads && Claims(s'.threads[u], name)
      ensures Lookup(s'.runner, name) == Some(s'.threads[u].booted)
    {
      if t !in s.threads || s.threads[t] == Finished {
        assert u != t;
      } else if u != t {
        OthersTargetStays(s.runner, ReadLocked(s), s.threads[t], s'.runner, s'.threads[t], name, s.threads[u].booted);
      } else {
        OwnTargetFollows(s.runner, ReadLocked(s), s.threads[t], s'.runner, s'.threads[t], name);
      }
    }
  }

  /** A clash always leaves the other operation without its target. */
  lemma ClashLosesTarget(s: System, t: nat, s': System)
    requires Inv(s) && Clash(s, t) && Next(s, t, s')
    ensures !OwnTarget(s')
  {
    var u, name :| u != t && u in s.threads && t in s.threads && Removes(s.threads[t], name) && Claims(s.threads[u], name);
    assert s'.threads[u] == s.threads[u] && Lookup(s'.runner, name) == None;
  }

  lemma {:induction false} RemovalsHitTheirTarget(run: seq<System>, who: seq<nat>, i: nat)
    requires IsRun(run, who) && i < |run|
    requires forall k :: 0 <= k < i ==> !Clash(run[k], who[k])
    ensures OwnTarget(run[i])
  {
    if i > 0 {
      RemovalsHitTheirTarget(run, who, i - 1);
      MapsAlwaysAgree(run, who, i - 1);
      NextKeepsOwnTarget(run[i - 1], who[i - 1], run[i]);
    }
  }

  /** Along a run, every operation set to remove a package, an undeploy or a failed deploy's
      rollback, keeps finding there the very instance it drained or installed, exactly as long as
      no removal happens while another operation has a claim on the same package. */
  lemma RemovalsHitTheirTargetIff(run: seq<System>, who: seq<nat>, i: nat)
    requires IsRun(run, who) && i < |run|
    ensures (forall m :: 0 <= m <= i ==> OwnTarget(run[m])) <==> (forall k :: 0 <= k < i ==> !Clash(run[k], who[k]))
  {
    if k :| 0 <= k < i && Clash(run[k], who[k]) {
      MapsAlwaysAgree(run, who, k);
      ClashLosesTarget(run[k], who[k], run[k + 1]);
    } else {
      forall m | 0 <= m <= i ensures OwnTarget(run[m]) {
        RemovalsHitTheirTarget(run, who, m);
      }
    }
  }

  // Removing somebody else's instance.

  /** Step `k` of the run takes the package `name` out of the maps. */
  ghost predicate RemovalAt(run: seq<System>, who: seq<nat>, k: nat, name: string) {
    k < |who| && k < |run| && who[k] in run[k].threads && Removes(run[k].threads[who[k]], name)
  }

  /** Step `k` installs an instance of the package. */
  ghost predicate InstallAt(run: seq<System>, who: seq<nat>, k: nat, name: string) {
    && k < |who| && k + 1 < |run| && who[k] in run[k].threads && who[k] in run[k + 1].threads
    && run[k].threads[who[k]].DeployInstall? && run[k].threads[who[k]].booted.name == name
    && run[k + 1].threads[who[k]].DeploySave?
  }

  /** From step `c` on, up to state `k`, operation `t` has its claim on `name` for instance `b`. */
  ghost predicate ClaimedSince(run: seq<System>, c: nat, k: nat, t: nat, name: string, b: Booted) {
    && c < k < |run|
    && Lookup(run[c + 1].runner, name) == Some(b)
    && forall m :: c < m <= k ==> t in run[m].threads && Claims(run[m].threads[t], name) && run[m].threads[t].booted == b
  }

  lemma ClaimStep(s: System, t: nat, s': System, u: nat, name: string)
    requires Next(s, t, s') && u in s'.threads && Claims(s'.threads[u], name)
    ensures || (u in s.threads && Claims(s.threads[u], name) && s'.threads[u].booted == s.threads[u].booted)
            || (u == t && Lookup(s'.runner, name) == Some(s'.threads[u].booted))
  {
  }

  /** Every claim began in this run with the instance that was running then. */
  lemma {:induction false} ClaimBegan(run: seq<System>, who: seq<nat>, k: nat, t: nat, name: string) returns (c: nat)
    requires IsRun(run, who) && k < |run| && t in run[k].threads && Claims(run[k].threads[t], name)
    ensures ClaimedSince(run, c, k, t, name, run[k].threads[t].booted)
  {
    assert k > 0 && Next(run[k - 1], who[k - 1], run[k]);
    ClaimStep(run[k - 1], who[k - 1], run[k], t, name);
    if Lookup(run[k].runner, name) == Some(run[k].threads[t].booted) && who[k - 1] == t {
      c := k - 1;
    } else {
      c := ClaimBegan(run, who, k - 1, t, name);
    }
  }

  /** How one step changes what runs under a name. */
  lemma LookupStep(run: seq<System>, who: seq<nat>, m: nat, name: string)
    requires IsRun(run, who) && m < |who|
    ensures RemovalAt(run, who, m, name) ==> Lookup(run[m + 1].runner, name) == None
    ensures InstallAt(run, who, m, name) ==>
              && Lookup(run[m].runner, name) == None
              && Lookup(run[m + 1].runner, name) == Some(run[m].threads[who[m]].booted)
    ensures !RemovalAt(run, who, m, name) && !InstallAt(run, who, m, name) ==>
              Lookup(run[m + 1].runner, name) == Lookup(run[m].runner, name)
  {
    MapsAlwaysAgree(run, who, m);
    assert Next(run[m], who[m], run[m + 1]);
  }

  ghost predicate Changes(run: seq<System>, who: seq<nat>, m: nat, name: string) {
    RemovalAt(run, who, m, name) || InstallAt(run, who, m, name)
  }

  ghost predicate Quiet(run: seq<System>, who: seq<nat>, a: nat, k: nat, name: string) {
    forall m :: a <= m < k ==> !Changes(run, who, m, name)
  }

  lemma {:induction false} LookupStays(run: seq<System>, who: seq<nat>, a: nat, k: nat, name: string)
    requires IsRun(run, who) && a <= k < |run| && Quiet(run, who, a, k, name)
    ensures Lookup(run[k].runner, name) == Lookup(run[a].runner, name)
    decreases k
  {
    if a < k {
      LookupStays(run, who, a, k - 1, name);
      assert !Changes(run, who, k - 1, name);
      LookupStep(run, who, k - 1, name);
    }
  }

  /** The last step from `a` on that changed what runs under the name. */
  lemma {:induction false} LastChange(run: seq<System>, who: seq<nat>, a: nat, k: nat, name: string) returns (m: nat)
    requires a <= k && !Quiet(run, who, a, k, name)
    ensures a <= m < k && Changes(run, who, m, name) && Quiet(run, who, m + 1, k, name)
    decreases k
  {
    if Changes(run, who, k - 1, name) {
      m := k - 1;
    } else {
      m := LastChange(run, who, a, k - 1, name);
    }
  }

  /** After a removal and then an installation, with no removal since, a different instance runs. */
  ghost predicate Succeeded(run: seq<System>, who: seq<nat>, c: nat, k: nat, name: string) {
    exists gone, came ::
      && c < gone < came < k && RemovalAt(run, who, gone, name) && InstallAt(run, who, came, name)
      && forall m :: came < m < k ==> !RemovalAt(run, who, m, name)
  }

  lemma InstalledIsAnother(run: seq<System>, who: seq<nat>, c: nat, k: nat, t: nat, name: string, b: Booted, m: nat)
    requires IsRun(run, who) && ClaimedSince(run, c, k, t, name, b) && c < m < k && InstallAt(run, who, m, name)
    ensures run[m].threads[who[m]].booted.id != b.id
  {
    InstancesAreDistinct(run, who, m);
    assert Claims(run[m].threads[t], name) && Unseen(run[m], who[m]);
  }

  /** Whatever runs now and did not at the start of a stretch was installed in it. */
  lemma LastWasInstall(run: seq<System>, who: seq<nat>, a: nat, k: nat, name: string) returns (m: nat)
    requires IsRun(run, who) && a <= k < |run|
    requires Lookup(run[k].runner, name).Some? && Lookup(run[k].runner, name) != Lookup(run[a].runner, name)
    ensures a <= m < k && InstallAt(run, who, m, name) && Quiet(run, who, m + 1, k, name)
  {
    if Quiet(run, who, a, k, name) { LookupStays(run, who, a, k, name); }
    m := LastChange(run, who, a, k, name);
    LookupStep(run, who, m, name);
    LookupStays(run, who, m + 1, k, name);
  }

  /** Whatever ran at the start and does not run now was removed in between. */
  lemma LastWasRemoval(run: seq<System>, who: seq<nat>, a: nat, k: nat, name: string) returns (m: nat)
    requires IsRun(run, who) && a <= k < |run|
    requires Lookup(run[k].runner, name) == None && Lookup(run[a].runner, name).Some?
    ensures a <= m < k && RemovalAt(run, who, m, name)
  {
    if Quiet(run, who, a, k, name) { LookupStays(run, who, a, k, name); }
    m := LastChange(run, who, a, k, name);
    LookupStep(run, who, m, name);
    LookupStays(run, who, m + 1, k, name);
  }

  lemma ReplacedMeansSucceeded(run: seq<System>, who: seq<nat>, c: nat, k: nat, t: nat, name: string, b: Booted)
    requires IsRun(run, who) && ClaimedSince(run, c, k, t, name, b)
    requires Lookup(run[k].runner, name).Some? && Lookup(run[k].runner, name) != Some(b)
    ensures Succeeded(run, who, c, k, name)
  {
    var came := LastWasInstall(run, who, c + 1, k, name);
    LookupStep(run, who, came, name);
    var gone := LastWasRemoval(run, who, c + 1, came, name);
    forall m | came < m < k ensures !RemovalAt(run, who, m, name) {
      assert !Changes(run, who, m, name);
    }
  }

  lemma LastStaysInstall(run: seq<System>, who: seq<nat>, came: nat, k: nat, name: string) returns (m: nat)
    requires IsRun(run, who) && came < k < |run| && InstallAt(run, who, came, name)
    requires forall m :: came < m < k ==> !RemovalAt(run, who, m, name)
    ensures came <= m < k && InstallAt(run, who, m, name) && Quiet(run, who, m + 1, k, name)
  {
    assert Changes(run, who, came, name);
    m := LastChange(run, who, came, k, name);
  }

  lemma CameMeansReplaced(run: seq<System>, who: seq<nat>, c: nat, k: nat, t: nat, name: string, b: Booted, came: nat)
    requires IsRun(run, who) && ClaimedSince(run, c, k, t, name, b) && c < came < k && InstallAt(run, who, came, name)
    requires forall m :: came < m < k ==> !RemovalAt(run, who, m, name)
    ensures Lookup(run[k].runner, name).Some? && Lookup(run[k].runner, name).value.id != b.id
  {
    var m := LastStaysInstall(run, who, came, k, name);
    LookupStep(run, who, m, name);
    LookupStays(run, who, m + 1, k, name);
    InstalledIsAnother(run, who, c, k, t, name, b, m);
  }

  lemma SucceededMeansReplaced(run: seq<System>, who: seq<nat>, c: nat, k: nat, t: nat, name: string, b: Booted)
    requires IsRun(run, who) && ClaimedSince(run, c, k, t, name, b) && Succeeded(run, who, c, k, name)
    ensures Lookup(run[k].runner, name).Some? && Lookup(run[k].runner, name).value.id != b.id
  {
    var gone, came :|
      && c < gone < came < k && RemovalAt(run, who, gone, name) && InstallAt(run, who, came, name)
      && forall m :: came < m < k ==> !RemovalAt(run, who, m, name);
    CameMeansReplaced(run, who, c, k, t, name, b, came);
  }

  /** A removal, by an undeploy or by a failed deploy's rollback, takes out an instance other than the
      one its operation drained or installed exactly when, since the operation claimed it, another
      operation removed the package and an instance installed afterwards was not removed again. */
  lemma WrongRemovalIff(run: seq<System>, who: seq<nat>, k: nat, name: string) returns (c: nat)
    requires IsRun(run, who) && RemovalAt(run, who, k, name)
    ensures ClaimedSince(run, c, k, who[k], name, run[k].threads[who[k]].booted)
    ensures (Lookup(run[k].runner, name).Some? && Lookup(run[k].runner, name) != Some(run[k].threads[who[k]].booted))
       <==> Succeeded(run, who, c, k, name)
    ensures Lookup(run[k + 1].runner, name) == None
  {
    var t, b := who[k], run[k].threads[who[k]].booted;
    c := ClaimBegan(run, who, k, t, name);
    if Lookup(run[k].runner, name).Some? && Lookup(run[k].runner, name) != Some(b) {
      ReplacedMeansSucceeded(run, who, c, k, t, name, b);
    }
    if Succeeded(run, who, c, k, name) { SucceededMeansReplaced(run, who, c, k, t, name, b); }
    LookupStep(run, who, k, name);
  }

  ghost predicate Reachable(s: System) {
    exists run, who :: IsRun(run, who) && run[|run| - 1] == s
  }

  lemma ReachStart(s: System)
    requires Consistent(s.runner) && Numbered(s.runner) && s.threads == map[]
    ensures Reachable(s)
  {
    var who: seq<nat> := [];
    assert IsRun([s], who);
  }

  lemma ReachNext(s: System, t: nat, s': System)
    requires Reachable(s) && Next(s, t, s')
    ensures Reachable(s')
  {
    var run, who :| IsRun(run, who) && run[|run| - 1] == s;
    var run', who' := run + [s'], who + [t];
    forall i | 0 <= i < |who'| ensures Next(run'[i], who'[i], run'[i + 1]) {
      assert i < |who| ==> run'[i] == run[i] && run'[i + 1] == run[i + 1];
    }
    assert IsRun(run', who') && run'[|run'| - 1] == s';
  }

  /** The successor state when `t` moves to `pc` and the runner becomes `r`. */
  function Moved(s: System, t: nat, r: Runner, pc: Pc): System {
    System(r, s.threads[t := pc])
  }

  lemma Begin(s: System, t: nat, pc: Pc)
    requires Reachable(s) && t !in s.threads && IsStart(pc)
    ensures Reachable(Moved(s, t, s.runner, pc))
  {
    ReachNext(s, t, Moved(s, t, s.runner, pc));
  }

  ghost predicate NoReader(s: System) {
    forall t :: t in s.threads ==> !s.threads[t].HandleRoute?
  }

  lemma Go(s: System, t: nat, r: Runner, pc: Pc)
    requires Reachable(s) && NoReader(s)
    requires t in s.threads && s.threads[t] != Finished && ThreadStep(s.runner, false, s.threads[t], r, pc)
    ensures Reachable(Moved(s, t, r, pc))
  {
    ReachNext(s, t, Moved(s, t, r, pc));
  }

  /** A new undeploy can always reach its drain phase. */
  lemma UndeployReachesDrain(s: System, t: nat, b: Booted, h: Hash) returns (s': System)
    requires Reachable(s) && NoReader(s) && t !in s.threads
    requires Lookup(s.runner, b.name) == Some(b) && b.hash == Some(h)
    ensures Reachable(s') && NoReader(s')
    ensures s' == Moved(s, t, MarkDraining(s.runner, b), UndeployDrain(h, b.name, b, None))
  {
    assert HoldsHash(s.runner, h) by { assert s.runner.agents[b.name].hash == Some(h); }
    var s1 := Moved(s, t, s.runner, UndeployFind(h, None));
    Begin(s, t, UndeployFind(h, None));
    Go(s1, t, MarkDraining(s.runner, b), UndeployDrain(h, b.name, b, None));
    s' := Moved(s1, t, MarkDraining(s.runner, b), UndeployDrain(h, b.name, b, None));
    assert s'.threads == s.threads[t := UndeployDrain(h, b.name, b, None)];
  }

  /** ... then finish waiting ... */
  lemma UndeployReady(s: System, t: nat, b: Booted, h: Hash) returns (s': System)
    requires Reachable(s) && NoReader(s) && t in s.threads && s.threads[t] == UndeployDrain(h, b.name, b, None)
    ensures Reachable(s') && NoReader(s') && s' == Moved(s, t, s.runner, UndeployRemove(h, b.name, b, None))
  {
    s' := Moved(s, t, s.runner, UndeployRemove(h, b.name, b, None));
    Go(s, t, s.runner, UndeployRemove(h, b.name, b, None));
  }

  lemma RemovalRuns(s: System, t: nat, b: Booted, h: Hash) returns (s': System)
    requires Reachable(s) && NoReader(s) && t in s.threads && s.threads[t] == UndeployRemove(h, b.name, b, None)
    ensures Reachable(s') && NoReader(s')
    ensures s' == Moved(s, t, Unroute(s.runner, b.name, b.name), UndeployDelete(h, None))
  {
    s' := Moved(s, t, Unroute(s.runner, b.name, b.name), UndeployDelete(h, None));
    Go(s, t, Unroute(s.runner, b.name, b.name), UndeployDelete(h, None));
  }

  /** ... and take its target out of the maps. */
  lemma UndeployRemoves(s: System, t: nat, b: Booted, h: Hash) returns (s': System)
    requires Reachable(s) && NoReader(s) && t in s.threads && s.threads[t] == UndeployDrain(h, b.name, b, None)
    ensures Reachable(s') && NoReader(s')
    ensures s' == Moved(s, t, Unroute(s.runner, b.name, b.name), UndeployDelete(h, None))
  {
    s' := UndeployReady(s, t, b, h);
    s' := RemovalRuns(s', t, b, h);
    assert s'.threads == s.threads[t := UndeployDelete(h, None)];
  }

  /** A new deploy of a package that is not running can run to completion. */
  lemma DeployReachesBoot(s: System, t: nat, h: Hash, name: string) returns (s': System)
    requires Reachable(s) && NoReader(s) && t !in s.threads
    requires name !in s.runner.agents && !HoldsHash(s.runner, h)
    ensures Reachable(s') && NoReader(s') && s' == Moved(s, t, s.runner, DeployBoot(h))
  {
    var r := s.runner;
    Begin(s, t, DeployCheck(h));
    var s1 := Moved(s, t, r, DeployCheck(h));
    Go(s1, t, r, DeployFetch(h));
    var s2 := Moved(s1, t, r, DeployFetch(h));
    Go(s2, t, r, DeployLookup(h, name));
    var s3 := Moved(s2, t, r, DeployLookup(h, name));
    Go(s3, t, r, DeployBoot(h));
    s' := Moved(s3, t, r, DeployBoot(h));
    assert s'.threads == s.threads[t := DeployBoot(h)];
  }

  lemma DeployBoots(s: System, t: nat, h: Hash, b: Booted) returns (s': System)
    requires Reachable(s) && NoReader(s) && t in s.threads && s.threads[t] == DeployBoot(h)
    requires b.id == s.runner.nextId && b.hash == Some(h)
    ensures Reachable(s') && NoReader(s')
    ensures s' == Moved(s, t, s.runner.(nextId := b.id + 1), DeployInstall(h, b))
  {
    Go(s, t, s.runner.(nextId := b.id + 1), DeployInstall(h, b));
    s' := Moved(s, t, s.runner.(nextId := b.id + 1), DeployInstall(h, b));
  }

  lemma DeployInstalls(s: System, t: nat, h: Hash, b: Booted) returns (s': System)
    requires Reachable(s) && NoReader(s) && t in s.threads && s.threads[t] == DeployInstall(h, b)
    requires b.name !in s.runner.agents && !HoldsHash(s.runner, h)
    ensures Reachable(s') && NoReader(s')
    ensures s' == Moved(s, t, Install(s.runner, b), DeploySave(h, b))
  {
    Go(s, t, Install(s.runner, b), DeploySave(h, b));
    s' := Moved(s, t, Install(s.runner, b), DeploySave(h, b));
  }

  lemma DeploySaves(s: System, t: nat, h: Hash, b: Booted) returns (s': System)
    requires Reachable(s) && NoReader(s) && t in s.threads && s.threads[t] == DeploySave(h, b)
    ensures Reachable(s') && NoReader(s') && s'.threads == s.threads[t := Finished]
    ensures s'.runner.agents == s.runner.agents && s'.runner.draining == s.runner.draining && h in s'.runner.rows
  {
    var r := SaveRow(s.runner, ActiveRow(h, b.name, "100"), Applied);
    Go(s, t, r, Finished);
    s' := Moved(s, t, r, Finished);
  }

  /** A runner on which agent "p" runs from hash "a", and two undeploys of it past their
      first step. */
  lemma TwoUndeploysInFlight() returns (s: System)
    ensures Reachable(s) && NoReader(s)
    ensures s.runner == Runner(map["p" := Booted(0, "p", Some("a"))], map[DefaultKey("p") := 0], {0}, map[], 1)
    ensures s.threads == map[1 := UndeployDrain("a", "p", Booted(0, "p", Some("a")), None),
                             2 := UndeployDrain("a", "p", Booted(0, "p", Some("a")), None)]
  {
    var b := Booted(0, "p", Some("a"));
    s := System(Runner(map["p" := b], map[DefaultKey("p") := 0], {}, map[], 1), map[]);
    ReachStart(s);
    s := UndeployReachesDrain(s, 1, b, "a");
    s := UndeployReachesDrain(s, 2, b, "a");
  }

  lemma OneUndeployDone() returns (s: System)
    ensures Reachable(s) && NoReader(s)
    ensures s.runner == Runner(map[], map[], {0}, map[], 1)
    ensures s.threads == map[1 := UndeployDelete("a", None),
                             2 := UndeployDrain("a", "p", Booted(0, "p", Some("a")), None)]
  {
    s := TwoUndeploysInFlight();
    s := UndeployRemoves(s, 1, Booted(0, "p", Some("a")), "a");
  }

  /** One of the two undeploys finishes and hash "b" is deployed for "p". */
  lemma SuccessorDeployed() returns (s: System)
    ensures Reachable(s) && NoReader(s)
    ensures s.runner.agents == map["p" := Booted(1, "p", Some("b"))] && s.runner.draining == {0}
    ensures "b" in s.runner.rows
    ensures 2 in s.threads && s.threads[2] == UndeployDrain("a", "p", Booted(0, "p", Some("a")), None)
  {
    s := OneUndeployDone();
    s := DeployReachesBoot(s, 3, "b", "p");
    s := DeployBoots(s, 3, "b", Booted(1, "p", Some("b")));
    s := DeployInstalls(s, 3, "b", Booted(1, "p", Some("b")));
    s := DeploySaves(s, 3, "b", Booted(1, "p", Some("b")));
  }

  /** Such a clash makes an undeploy remove a successor it never drained: two undeploys
      of one hash overlap, a new revision is deployed in between, and the second undeploy takes
      the new, active, persisted agent out of the maps by its name. */
  lemma OverlappingUndeployRemovesSuccessor() returns (s: System, s': System, t: nat)
    ensures Reachable(s) && Next(s, t, s') && t in s.threads && s.threads[t].UndeployRemove?
    ensures exists b :: Lookup(s.runner, "p") == Some(b) && b != s.threads[t].booted
              && b.id !in s.runner.draining && b.hash == Some("b") && "b" in s.runner.rows
    ensures "p" !in s'.runner.agents && "b" in s'.runner.rows
  {
    var b0 := Booted(0, "p", Some("a"));
    var s0 := SuccessorDeployed();
    t, s := 2, Moved(s0, 2, s0.runner, UndeployRemove("a", "p", b0, None));
    Go(s0, 2, s0.runner, UndeployRemove("a", "p", b0, None));
    s' := Moved(s, 2, Unroute(s.runner, "p", "p"), UndeployDelete("a", None));
    assert Lookup(s.runner, "p") == Some(Booted(1, "p", Some("b")));
  }

  /** The local branch of `InternalA2aRouter::route_from`: the route alone decides. */
  function RouteFromLocal(r: Runner, key: RouteKey): Option<nat> {
    if key in r.routed then Some(r.routed[key]) else None
  }

  /** Agent-to-agent routing does not consult the lifecycle: on a consistent runner it reaches a
      draining instance exactly when a handler reading now would refuse the request. */
  lemma InternalRouteAdmitsDraining(r: Runner, key: RouteKey)
    requires Consistent(r) && key.instance == DEFAULT_INSTANCE
    ensures (RouteFromLocal(r, key).Some? && RouteFromLocal(r, key).value in r.draining)
       <==> ThreadStep(r, false, HandleRead(key), r, Finished)
  {
    if key in r.routed { assert key == DefaultKey(key.package); }
    if key.package in r.agents { assert DefaultKey(key.package) == key; }
  }

  /** And that does happen. */
  lemma InternalRouteReachesDraining() returns (s: System)
    ensures Reachable(s)
    ensures RouteFromLocal(s.runner, DefaultKey("p")) == Some(0) && 0 in s.runner.draining
  {
    s := TwoUndeploysInFlight();
  }
}
