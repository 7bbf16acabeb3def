/** The state an agent runner keeps about its deployed agents, and the sections of
    `deploy_by_hash`, `undeploy_by_hash` and the request handlers that run while a lock is
    held (crates/baml-agent-runner/src/runner.rs). */
module RunnerState {
  import opened Options
  import opened Routes
  import opened RestoreDedupe

  const DEFAULT_INSTANCE := "default"

  /** Every deployed agent is routed under the default instance of its package name. */
  function DefaultKey(name: string): RouteKey {
    RouteKey(name, DEFAULT_INSTANCE)
  }

  /** A booted agent. `id` stands for the running instance, which owns the lifecycle flag;
      `hash` is absent for agents that did not come from the repository. */
  datatype Booted = Booted(id: nat, name: string, hash: Option<Hash>)

  /** `agents` and `routed_agents`, the instances whose flag was stored as draining, the
      persisted deployment table, and the next instance to be booted. */
  datatype Runner = Runner(
    agents: map<string, Booted>,
    routed: map<RouteKey, nat>,
    draining: set<nat>,
    rows: map<Hash, Record>,
    nextId: nat)

  predicate HoldsHash(r: Runner, h: Hash) {
    exists n :: n in r.agents && r.agents[n].hash == Some(h)
  }

  /** A database statement succeeds, or fails before or after taking effect. */
  datatype Write = Applied | FailedBefore | FailedAfter

  function MarkDraining(r: Runner, b: Booted): Runner {
    r.(draining := r.draining + {b.id})
  }

  /** Remove `target` and the route of the manifest's name, both locks held. */
  function Unroute(r: Runner, target: string, manifest: string): Runner {
    r.(agents := r.agents - {target}, routed := r.routed - {DefaultKey(manifest)})
  }

  function NewInstance(r: Runner, name: string, h: Hash): (Runner, Booted) {
    (r.(nextId := r.nextId + 1), Booted(r.nextId, name, Some(h)))
  }

  datatype InstallResult = Installed | HashTaken | NameTaken

  /** The check made under the write locks just before installing `b` for hash `h`. */
  function InstallCheck(r: Runner, b: Booted, h: Hash): InstallResult {
    if HoldsHash(r, h) then HashTaken
    else if b.name in r.agents && r.agents[b.name].hash != Some(h) then NameTaken
    else Installed
  }

  function Install(r: Runner, b: Booted): Runner {
    r.(agents := r.agents[b.name := b], routed := r.routed[DefaultKey(b.name) := b.id])
  }

  /** The row of a deployment made at `now`. */
  function ActiveRow(h: Hash, name: string, now: string): Record {
    Record(h, name, now, Active, None, Some(now), 0)
  }

  function SaveRow(r: Runner, rec: Record, w: Write): Runner {
    if w == FailedBefore then r else r.(rows := r.rows[rec.hash := rec])
  }

  function DeleteRow(r: Runner, h: Hash, w: Write): Runner {
    if w == FailedBefore then r else r.(rows := r.rows - {h})
  }

  /** The two maps describe the same deployments: a route is present exactly for each agent,
      both name the same instance, and each agent sits under its own manifest name. */
  ghost predicate MapsAgree(r: Runner) {
    && (forall n :: n in r.agents ==>
          r.agents[n].name == n && DefaultKey(n) in r.routed && r.routed[DefaultKey(n)] == r.agents[n].id)
    && (forall k :: k in r.routed ==> k.instance == DEFAULT_INSTANCE && k.package in r.agents)
  }

  /** No content hash is running twice. */
  ghost predicate HashesUnique(r: Runner) {
    forall m, n ::
      m in r.agents && n in r.agents && r.agents[m].hash.Some? && r.agents[m].hash == r.agents[n].hash
      ==> m == n
  }

  ghost predicate Consistent(r: Runner) {
    MapsAgree(r) && HashesUnique(r)
  }

  lemma UnrouteKeepsConsistent(r: Runner, name: string)
    requires Consistent(r)
    ensures Consistent(Unroute(r, name, name))
  {
  }

  lemma InstallKeepsConsistent(r: Runner, b: Booted, h: Hash)
    requires Consistent(r) && b.hash == Some(h)
    requires InstallCheck(r, b, h) == Installed
    ensures Consistent(Install(r, b))
  {
  }

  /** Rolling back an installation of a new name leaves the runner as it was. */
  lemma UnrouteUndoesInstall(r: Runner, b: Booted)
    requires MapsAgree(r) && b.name !in r.agents
    ensures Unroute(Install(r, b), b.name, b.name) == r
  {
    assert DefaultKey(b.name) !in r.routed;
    assert r.agents[b.name := b] - {b.name} == r.agents;
    assert r.routed[DefaultKey(b.name) := b.id] - {DefaultKey(b.name)} == r.routed;
  }
}
