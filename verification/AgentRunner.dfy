/** `deploy_by_hash`, `undeploy_by_hash` and the startup restore loop run one at a time, with
    any fetch, boot or database statement allowed to fail
    (crates/baml-agent-runner/src/runner.rs:856-1085, crates/baml-agent-runner/src/lib.rs:279-307,
    434-472). The class below has the runner's mutable fields; the functions before it say
    what each operation makes of them. */
module AgentRunner {
  import opened Options
  import opened Routes
  import opened RestoreDedupe
  import opened RunnerState

  ghost function NameOfHash(r: Runner, h: Hash): (n: string)
    requires HoldsHash(r, h)
    ensures n in r.agents && r.agents[n].hash == Some(h)
  {
    var n :| n in r.agents && r.agents[n].hash == Some(h);
    n
  }

  /** Find the agent with hash `h`, mark it as draining and take it out of the maps. */
  ghost function TakeOut(r: Runner, h: Hash): Runner {
    if !HoldsHash(r, h) then r
    else
      var n := NameOfHash(r, h);
      Unroute(MarkDraining(r, r.agents[n]), n, r.agents[n].name)
  }

  /** `undeploy_by_hash`; `w` is what happens to the deletion of the row. */
  ghost function Undeploy(r: Runner, h: Hash, w: Write): Runner {
    if !HoldsHash(r, h) then r else DeleteRow(TakeOut(r, h), h, w)
  }

  /** Everything outside the runner that one deploy meets: the package name in the fetched
      artifact (or no artifact), the deletion of a superseded row, the name of the booted agent
      (or no boot), the saving of the new row, and the clock. */
  datatype DeployEnv = DeployEnv(package: Option<string>, supersede: Write, boots: Option<string>, save: Write, now: string)

  datatype Outcome = Deployed | AlreadyDeployed | Error

  /** The hash `deploy_by_hash` has to undeploy before it may boot `package`. */
  function Superseded(r: Runner, package: string): Option<Hash> {
    if package in r.agents then r.agents[package].hash else None
  }

  function BootAndInstall(r: Runner, h: Hash, env: DeployEnv): (Runner, Outcome) {
    match env.boots
    case None => (r, Error)
    case Some(name) =>
      var (r1, b) := NewInstance(r, name, h);
      match InstallCheck(r1, b, h)
      case HashTaken => (r1, AlreadyDeployed)
      case NameTaken => (r1, Error)
      case Installed =>
        var r2 := SaveRow(Install(r1, b), ActiveRow(h, name, env.now), env.save);
        if env.save == Applied then (r2, Deployed) else (Unroute(r2, name, name), Error)
  }

  /** What booting answers, wherever it starts from: a hash that runs by now is already deployed, a name
      that runs by now from another hash is a conflict, and neither changes anything; otherwise the save
      decides. */
  lemma BootAnswers(r: Runner, h: Hash, env: DeployEnv)
    requires env.boots.Some?
    ensures var (r', outcome) := BootAndInstall(r, h, env);
            && (outcome == AlreadyDeployed <==> HoldsHash(r, h))
            && (outcome == Deployed <==> !HoldsHash(r, h) && env.boots.value !in r.agents && env.save == Applied)
            && (HoldsHash(r, h) || env.boots.value in r.agents ==> r'.agents == r.agents && r'.routed == r.routed && r'.rows == r.rows)
  {
    var r1 := NewInstance(r, env.boots.value, h).0;
    assert HoldsHash(r1, h) <==> HoldsHash(r, h);
  }

  ghost function Deploy(r: Runner, h: Hash, env: DeployEnv): (Runner, Outcome) {
    if HoldsHash(r, h) then (r, AlreadyDeployed)
    else match env.package
      case None => (r, Error)
      case Some(package) =>
        match Superseded(r, package)
        case None => BootAndInstall(r, h, env)
        case Some(prior) =>
          var r1 := Undeploy(r, prior, env.supersede);
          if env.supersede != Applied then (r1, Error) else BootAndInstall(r1, h, env)
  }

  const U32_MAX := 0xFFFF_FFFF

  /** What the restore loop saves for a record it could not deploy. */
  function FailedRow(rec: Record, error: string, now: string): Record {
    rec.(status := Failed, lastError := Some(error), lastAttemptAt := Some(now),
         failureCount := if rec.failureCount < U32_MAX then rec.failureCount + 1 else U32_MAX)
  }

  /** What a restart meets, per content hash; `error` and `failedAt` are the message and the clock if the
      deploy fails. */
  datatype RestartEnv = RestartEnv(delete: Hash -> Write, deploy: Hash -> DeployEnv, saveFailed: Hash -> Write,
                                   error: Hash -> string, failedAt: Hash -> string)

  function DeleteAll(r: Runner, remove: seq<Hash>, env: RestartEnv): Runner {
    if remove == [] then r
    else
      var last := |remove| - 1;
      DeleteRow(DeleteAll(r, remove[..last], env), remove[last], env.delete(remove[last]))
  }

  ghost function RestoreOne(r: Runner, rec: Record, env: RestartEnv): Runner {
    var (r1, outcome) := Deploy(r, rec.hash, env.deploy(rec.hash));
    if outcome == Error
    then SaveRow(r1, FailedRow(rec, env.error(rec.hash), env.failedAt(rec.hash)), env.saveFailed(rec.hash))
    else r1
  }

  ghost function RestoreAll(r: Runner, restore: seq<Record>, env: RestartEnv): Runner {
    if restore == [] then r
    else
      var last := |restore| - 1;
      RestoreOne(RestoreAll(r, restore[..last], env), restore[last], env)
  }

  /** A new process: nothing runs, the table is what was persisted. */
  function Rebooted(r: Runner): Runner {
    r.(agents := map[], routed := map[], draining := {})
  }

  /** The whole startup, given what the deduplication answered. */
  ghost function Restart(r: Runner, restore: seq<Record>, remove: seq<Hash>, env: RestartEnv): Runner {
    RestoreAll(DeleteAll(Rebooted(r), remove, env), restore, env)
  }

  /** `records` is the table read in some order. */
  ghost predicate IsListing(records: seq<Record>, rows: map<Hash, Record>) {
    && DistinctHashes(records)
    && (forall rec :: rec in records ==> rec.hash in rows && rows[rec.hash] == rec)
    && (forall h :: h in rows ==> rows[h] in records)
  }

  ghost predicate RowsKeyed(rows: map<Hash, Record>) {
    forall h :: h in rows ==> rows[h].hash == h
  }

  /** What is taken out is the one agent that holds the hash. */
  lemma TakeOutOf(r: Runner, h: Hash, n: string)
    requires Consistent(r) && n in r.agents && r.agents[n].hash == Some(h)
    ensures HoldsHash(r, h) && TakeOut(r, h) == Unroute(MarkDraining(r, r.agents[n]), n, n)
    ensures Consistent(TakeOut(r, h))
  {
    assert NameOfHash(r, h) == n;
    UnrouteKeepsConsistent(MarkDraining(r, r.agents[n]), n);
  }

  class AgentRunner {
    var agents: map<string, Booted>
    var routed: map<RouteKey, nat>
    var draining: set<nat>
    var rows: map<Hash, Record>
    var nextId: nat

    function State(): Runner
      reads this
    {
      Runner(agents, routed, draining, rows, nextId)
    }

    ghost predicate Valid()
      reads this
    {
      Consistent(State()) && RowsKeyed(rows)
    }

    constructor ()
      ensures Valid() && State() == Runner(map[], map[], {}, map[], 0)
    {
      agents, routed, draining, rows, nextId := map[], map[], {}, map[], 0;
    }

    method FindHash(h: Hash) returns (found: bool)
      ensures found == HoldsHash(State(), h)
    {
      found := exists n :: n in agents && agents[n].hash == Some(h);
    }

    method SetDraining(booted: Booted)
      modifies this`draining
      ensures State() == MarkDraining(old(State()), booted)
    {
      draining := draining + {booted.id};
    }

    method InsertIntoMaps(booted: Booted)
      modifies this`agents, this`routed
      ensures State() == Install(old(State()), booted)
    {
      routed := routed[DefaultKey(booted.name) := booted.id];
      agents := agents[booted.name := booted];
    }

    method Boot(name: string, h: Hash) returns (booted: Booted)
      modifies this`nextId
      ensures (State(), booted) == NewInstance(old(State()), name, h)
    {
      booted := Booted(nextId, name, Some(h));
      nextId := nextId + 1;
    }

    method RemoveFromMaps(target: string, manifest: string)
      modifies this`agents, this`routed
      ensures State() == Unroute(old(State()), target, manifest)
    {
      agents := agents - {target};
      routed := routed - {DefaultKey(manifest)};
    }

    method SaveDeployment(rec: Record, w: Write) returns (ok: bool)
      modifies this`rows
      ensures State() == SaveRow(old(State()), rec, w) && ok == (w == Applied)
    {
      if w != FailedBefore { rows := rows[rec.hash := rec]; }
      ok := w == Applied;
    }

    method RemoveDeployment(h: Hash, w: Write) returns (ok: bool)
      modifies this`rows
      ensures State() == DeleteRow(old(State()), h, w) && ok == (w == Applied)
    {
      if w != FailedBefore { rows := rows - {h}; }
      ok := w == Applied;
    }

    method ListDeployments() returns (records: seq<Record>)
      requires RowsKeyed(rows)
      ensures IsListing(records, rows)
    {
      records := [];
      var left := rows.Keys;
      while left != {}
        invariant left <= rows.Keys && DistinctHashes(records)
        invariant forall rec :: rec in records ==> rec.hash in rows && rows[rec.hash] == rec && rec.hash !in left
        invariant forall h :: h in rows && h !in left ==> rows[h] in records
        decreases |left|
      {
        var h :| h in left;
        records := records + [rows[h]];
        left := left - {h};
      }
    }

    method DrainAndRemove(h: Hash) returns (found: bool)
      requires Consistent(State())
      modifies this`agents, this`routed, this`draining
      ensures found == HoldsHash(old(State()), h) && State() == TakeOut(old(State()), h)
      ensures Consistent(State())
    {
      found := FindHash(h);
      if found {
        var target :| target in agents && agents[target].hash == Some(h);
        TakeOutOf(State(), h, target);
        var booted := agents[target];
        SetDraining(booted);
        RemoveFromMaps(target, booted.name);
      }
    }

    method UndeployByHash(h: Hash, w: Write) returns (ok: bool, removed: bool)
      requires Valid()
      modifies this
      ensures Valid() && State() == Undeploy(old(State()), h, w)
      ensures ok == (!HoldsHash(old(State()), h) || w == Applied)
      ensures ok ==> removed == HoldsHash(old(State()), h)
    {
      removed := DrainAndRemove(h);
      ok := true;
      if removed { ok := RemoveDeployment(h, w); }
    }

    method DeployByHash(h: Hash, env: DeployEnv) returns (outcome: Outcome)
      requires Valid()
      modifies this
      ensures Valid() && (State(), outcome) == Deploy(old(State()), h, env)
    {
      var running := FindHash(h);
      if running { return AlreadyDeployed; }
      if env.package == None { return Error; }
      var prior := Superseded(State(), env.package.value);
      if prior.Some? {
        assert HoldsHash(State(), prior.value) by { assert agents[env.package.value].hash == prior; }
        var ok, _ := UndeployByHash(prior.value, env.supersede);
        if !ok { return Error; }
      }
      outcome := BootInstallSave(h, env);
    }

    method BootInstallSave(h: Hash, env: DeployEnv) returns (outcome: Outcome)
      requires Valid()
      modifies this
      ensures Valid() && (State(), outcome) == BootAndInstall(old(State()), h, env)
    {
      if env.boots == None { return Error; }
      var booted := Boot(env.boots.value, h);
      var check := TryInstall(booted, h);
      if check == HashTaken { return AlreadyDeployed; }
      if check == NameTaken { return Error; }
      outcome := SaveOrRollBack(booted, ActiveRow(h, booted.name, env.now), env.save);
    }

    /** A save that fails takes the agent out of the maps again. */
    method SaveOrRollBack(booted: Booted, rec: Record, w: Write) returns (outcome: Outcome)
      requires Valid()
      modifies this`agents, this`routed, this`rows
      ensures Valid() && outcome == (if w == Applied then Deployed else Error)
      ensures State() == (var saved := SaveRow(old(State()), rec, w);
                          if w == Applied then saved else Unroute(saved, booted.name, booted.name))
    {
      var ok := SaveDeployment(rec, w);
      if !ok {
        UnrouteKeepsConsistent(State(), booted.name);
        RemoveFromMaps(booted.name, booted.name);
        return Error;
      }
      outcome := Deployed;
    }

    /** The section under both write locks. */
    method TryInstall(booted: Booted, h: Hash) returns (check: InstallResult)
      requires Consistent(State()) && booted.hash == Some(h)
      modifies this`agents, this`routed
      ensures check == InstallCheck(old(State()), booted, h) && Consistent(State())
      ensures check == HashTaken <==> exists n :: n in old(agents) && old(agents)[n].hash == Some(h)
      ensures check == NameTaken <==> check != HashTaken && booted.name in old(agents)
      ensures State() == (if check == Installed then Install(old(State()), booted) else old(State()))
    {
      check := InstallCheck(State(), booted, h);
      if check == Installed {
        InstallKeepsConsistent(State(), booted, h);
        InsertIntoMaps(booted);
      }
    }

    method RemoveSuperseded(superseded: seq<Hash>, env: RestartEnv)
      requires Valid()
      modifies this`rows
      ensures Valid() && State() == DeleteAll(old(State()), superseded, env)
    {
      for i := 0 to |superseded|
        invariant Valid() && State() == DeleteAll(old(State()), superseded[..i], env)
      {
        assert superseded[..i + 1][..i] == superseded[..i];
        var _ := RemoveDeployment(superseded[i], env.delete(superseded[i]));
      }
      assert superseded[..|superseded|] == superseded;
    }

    method RestoreExisting(existing: seq<Record>, env: RestartEnv)
      requires Valid()
      modifies this
      ensures Valid() && State() == RestoreAll(old(State()), existing, env)
    {
      for i := 0 to |existing|
        invariant Valid() && State() == RestoreAll(old(State()), existing[..i], env)
      {
        assert existing[..i + 1][..i] == existing[..i];
        var rec := existing[i];
        var outcome := DeployByHash(rec.hash, env.deploy(rec.hash));
        if outcome == Error {
          var _ := SaveDeployment(FailedRow(rec, env.error(rec.hash), env.failedAt(rec.hash)), env.saveFailed(rec.hash));
        }
      }
      assert existing[..|existing|] == existing;
    }

    /** The process starts again on the persisted table. */
    method Startup(env: RestartEnv) returns (ghost restore: seq<Record>, ghost remove: seq<Hash>)
      requires Valid()
      modifies this
      ensures Valid() && State() == Restart(old(State()), restore, remove, env)
      ensures exists records :: IsListing(records, old(rows)) && IsDedupe(records, restore, remove)
    {
      agents, routed, draining := map[], map[], {};
      var records := ListDeployments();
      var existing, superseded := Dedupe(records);
      restore, remove := existing, superseded;
      RemoveSuperseded(superseded, env);
      RestoreExisting(existing, env);
    }
  }
}
