/** What the deployment table holds after a restart, row by row, whatever fails
    (crates/baml-agent-runner/src/lib.rs:279-307, 434-472). */
module RestartTable {
  import opened Options
  import opened Orders
  import opened RestoreDedupe
  import opened RunnerState
  import opened AgentRunner
  import opened RestartSafety

  function RowAt(r: Runner, h: Hash): Option<Record> {
    if h in r.rows then Some(r.rows[h]) else None
  }

  /** The row of a deployment that failed again at `now`: it keeps its name and time of deployment, and
      counts one failure more up to 2^32 - 1. */
  predicate FailedAgain(was: Record, row: Option<Record>, error: string, now: string) {
    && row.Some?
    && var rec := row.value;
       && rec.hash == was.hash && rec.agentName == was.agentName && rec.deployedAt == was.deployedAt
       && rec.status == Failed && rec.lastError == Some(error) && rec.lastAttemptAt == Some(now)
       && rec.failureCount == (if was.failureCount >= 0xFFFF_FFFF then 0xFFFF_FFFF else was.failureCount + 1)
  }

  /** The row of a deployment made at `now`. */
  predicate DeployedAt(h: Hash, name: string, row: Option<Record>, now: string) {
    && row.Some?
    && var rec := row.value;
       && rec.hash == h && rec.agentName == name && rec.deployedAt == now
       && rec.status == Active && rec.lastError == None && rec.lastAttemptAt == Some(now) && rec.failureCount == 0
  }

  /** The deploy gets as far as saving its row. */
  predicate ComesToSave(env: DeployEnv) {
    env.package.Some? && env.boots.Some?
  }

  /** What a deploy does for a package that is not running. */
  lemma FreshDeploy(r: Runner, h: Hash, env: DeployEnv, pkgOf: Hash -> string)
    requires Named(r, pkgOf) && pkgOf(h) !in r.agents && EnvFits(env, h, pkgOf)
    ensures var (r', outcome) := Deploy(r, h, env);
            && (outcome == Error <==> !Boots(env)) && outcome != AlreadyDeployed
            && Named(r', pkgOf) && (HoldsHash(r', h) <==> Boots(env))
            && (ComesToSave(env) && env.save != FailedBefore ==> DeployedAt(h, pkgOf(h), RowAt(r', h), env.now))
            && (!ComesToSave(env) || env.save == FailedBefore ==> RowAt(r', h) == RowAt(r, h))
            && (forall g :: g != h ==> RowAt(r', g) == RowAt(r, g) && (HoldsHash(r', g) <==> HoldsHash(r, g)))
  {
    HashRunsUnderItsName(r, h, pkgOf);
    if ComesToSave(env) {
      FreshBoot(r, h, env, pkgOf);
    }
  }

  lemma FreshBoot(r: Runner, h: Hash, env: DeployEnv, pkgOf: Hash -> string)
    requires Named(r, pkgOf) && pkgOf(h) !in r.agents && env.boots == Some(pkgOf(h))
    ensures var (r', outcome) := BootAndInstall(r, h, env);
            && outcome == (if env.save == Applied then Deployed else Error)
            && r'.agents == (if env.save == Applied then r.agents[pkgOf(h) := Booted(r.nextId, pkgOf(h), Some(h))] else r.agents)
            && r'.rows == (if env.save == FailedBefore then r.rows else r.rows[h := Record(h, pkgOf(h), env.now, Active, None, Some(env.now), 0)])
            && Named(r', pkgOf) && (forall g :: HoldsHash(r', g) <==> HoldsHash(r, g) || (g == h && env.save == Applied))
  {
    var (r1, b) := NewInstance(r, pkgOf(h), h);
    assert !HoldsHash(r1, h) by { HashRunsUnderItsName(r1, h, pkgOf); }
    var r' := BootAndInstall(r, h, env).0;
    if env.save != Applied { assert (r.agents[pkgOf(h) := b]) - {pkgOf(h)} == r.agents; }
    forall g ensures HoldsHash(r', g) <==> HoldsHash(r, g) || (g == h && env.save == Applied) {
      HashRunsUnderItsName(r, g, pkgOf);
      HashRunsUnderItsName(r', g, pkgOf);
    }
  }

  lemma TakenOutIsNamed(r: Runner, h: Hash, w: Write, pkgOf: Hash -> string)
    requires Consistent(r) && Named(r, pkgOf) && HoldsHash(r, h)
    ensures Named(Undeploy(r, h, w), pkgOf) && Undeploy(r, h, w).agents == r.agents - {pkgOf(h)}
  {
    HashRunsUnderItsName(r, h, pkgOf);
    TakeOutOf(r, h, pkgOf(h));
  }

  /** What a deploy answers: a hash that runs already is left alone; otherwise it succeeds exactly when
      nothing fails from the fetch to the save, nor the deletion of the revision it replaces. */
  lemma DeployOutcome(r: Runner, h: Hash, env: DeployEnv, pkgOf: Hash -> string)
    requires Consistent(r) && Named(r, pkgOf) && EnvFits(env, h, pkgOf)
    ensures var (r', outcome) := Deploy(r, h, env);
            && (outcome == AlreadyDeployed <==> HoldsHash(r, h)) && (HoldsHash(r, h) ==> r' == r)
            && (outcome == Deployed <==> !HoldsHash(r, h) && Boots(env) && (pkgOf(h) in r.agents ==> env.supersede == Applied))
  {
    if !HoldsHash(r, h) && env.package.Some? {
      match Superseded(r, pkgOf(h)) {
        case None => FreshDeploy(r, h, env, pkgOf);
        case Some(prior) =>
          HashRunsUnderItsName(r, prior, pkgOf);
          TakenOutIsNamed(r, prior, env.supersede, pkgOf);
          if env.boots.Some? { FreshBoot(Undeploy(r, prior, env.supersede), h, env, pkgOf); }
      }
    }
  }

  /** What becomes of the row of a restored record: a deploy that boots and is saved stands active; one
      that does not is recorded as failed, or, when that cannot be saved either, leaves the row as it
      was or as its own failing save left it. */
  ghost predicate Settled(was: Option<Record>, rec: Record, env: RestartEnv, row: Option<Record>) {
    var d := env.deploy(rec.hash);
    if Boots(d) then DeployedAt(rec.hash, rec.agentName, row, d.now)
    else if env.saveFailed(rec.hash) != FailedBefore then FailedAgain(rec, row, env.error(rec.hash), env.failedAt(rec.hash))
    else if ComesToSave(d) && d.save == FailedAfter then DeployedAt(rec.hash, rec.agentName, row, d.now)
    else row == was
  }

  lemma RestoreOneSettles(r: Runner, rec: Record, env: RestartEnv, pkgOf: Hash -> string)
    requires Named(r, pkgOf) && rec.agentName == pkgOf(rec.hash) && rec.agentName !in r.agents
    requires EnvFits(env.deploy(rec.hash), rec.hash, pkgOf)
    ensures var r' := RestoreOne(r, rec, env);
            && Named(r', pkgOf) && Settled(RowAt(r, rec.hash), rec, env, RowAt(r', rec.hash))
            && (HoldsHash(r', rec.hash) <==> Boots(env.deploy(rec.hash)))
            && (forall g :: g != rec.hash ==> RowAt(r', g) == RowAt(r, g) && (HoldsHash(r', g) <==> HoldsHash(r, g)))
  {
    var r1 := Deploy(r, rec.hash, env.deploy(rec.hash)).0;
    var r' := RestoreOne(r, rec, env);
    FreshDeploy(r, rec.hash, env.deploy(rec.hash), pkgOf);
    assert r'.agents == r1.agents;
    assert forall g :: HoldsHash(r', g) <==> HoldsHash(r1, g);
  }

  ghost predicate HashListed(restore: seq<Record>, h: Hash) {
    exists i :: 0 <= i < |restore| && restore[i].hash == h
  }

  /** Every listed record is settled and runs exactly if its deploy boots and is saved; every other row
      stays as it was. */
  lemma {:induction false} RestoreSettles(r: Runner, restore: seq<Record>, env: RestartEnv, pkgOf: Hash -> string)
    requires r.agents == map[] && WellListed(restore, pkgOf) && AllFit(restore, env, pkgOf)
    ensures Named(RestoreAll(r, restore, env), pkgOf)
    ensures forall i :: 0 <= i < |restore| ==>
              && Settled(RowAt(r, restore[i].hash), restore[i], env, RowAt(RestoreAll(r, restore, env), restore[i].hash))
              && (HoldsHash(RestoreAll(r, restore, env), restore[i].hash) <==> Boots(env.deploy(restore[i].hash)))
    ensures forall g :: !HashListed(restore, g) ==>
              RowAt(RestoreAll(r, restore, env), g) == RowAt(r, g) && !HoldsHash(RestoreAll(r, restore, env), g)
  {
    if restore != [] {
      var last := |restore| - 1;
      var rec, front := restore[last], restore[..last];
      FrontIsListed(restore, env, pkgOf);
      RestoreSettles(r, front, env, pkgOf);
      RestoreStartsOnlyListed(r, front, env, pkgOf);
      assert rec in restore && !Keeper(front, rec.agentName);
      RestoreOneSettles(RestoreAll(r, front, env), rec, env, pkgOf);
      ListedApart(restore, pkgOf);
      forall g | !HashListed(restore, g) ensures g != rec.hash && !HashListed(front, g) {
        assert restore[last].hash == rec.hash;
        assert forall i :: 0 <= i < |front| ==> front[i] == restore[i];
      }
    }
  }

  lemma ListedApart(restore: seq<Record>, pkgOf: Hash -> string)
    requires restore != [] && WellListed(restore, pkgOf)
    ensures !HashListed(restore[..|restore| - 1], restore[|restore| - 1].hash)
  {
    var last := |restore| - 1;
    forall i | 0 <= i < last ensures restore[i].hash != restore[last].hash {
      assert restore[i] in restore && restore[last] in restore;
    }
  }

  /** Deleting superseded rows takes out exactly those whose deletion takes effect. */
  lemma {:induction false} DeletedIff(r: Runner, remove: seq<Hash>, env: RestartEnv, h: Hash)
    ensures RowAt(DeleteAll(r, remove, env), h) == if h in remove && env.delete(h) != FailedBefore then None else RowAt(r, h)
    ensures DeleteAll(r, remove, env).agents == r.agents
  {
    if remove != [] {
      DeletedIff(r, remove[..|remove| - 1], env, h);
      assert remove == remove[..|remove| - 1] + [remove[|remove| - 1]];
    }
  }

  lemma {:induction false} HashesHas(records: seq<Record>, h: Hash)
    ensures h in Hashes(records) <==> HashListed(records, h)
  {
    if HashListed(records, h) {
      var i :| 0 <= i < |records| && records[i].hash == h;
      assert Hashes(records)[i] == h;
    }
  }

  lemma {:induction false} HashOnce(records: seq<Record>, h: Hash)
    requires DistinctHashes(records)
    ensures multiset(Hashes(records))[h] <= 1
  {
    if records != [] {
      var front, rec := records[..|records| - 1], records[|records| - 1];
      HashOnce(front, h);
      assert Hashes(records) == Hashes(front) + [rec.hash];
      if rec.hash == h {
        HashesHas(front, h);
        assert !HashListed(front, h);
      }
    }
  }

  /** A stored row is removed exactly when it is not restored. */
  lemma RemovedIff(r: Runner, records: seq<Record>, restore: seq<Record>, remove: seq<Hash>, h: Hash)
    requires RowsKeyed(r.rows) && IsListing(records, r.rows) && IsDedupe(records, restore, remove)
    ensures h in remove <==> h in r.rows && !HashListed(restore, h)
    ensures HashListed(restore, h) ==> h in r.rows && Listed(restore, r.rows[h].agentName, h)
  {
    HashOnce(records, h);
    HashesHas(records, h);
    HashesHas(restore, h);
    assert h in remove <==> multiset(remove)[h] > 0;
    assert multiset(remove)[h] + multiset(Hashes(restore))[h] == multiset(Hashes(records))[h];
    if h in r.rows { InListing(records, r.rows, h); }
    if HashListed(records, h) {
      var i :| 0 <= i < |records| && records[i].hash == h;
      assert records[i] in records;
    }
    if HashListed(restore, h) {
      var i :| 0 <= i < |restore| && restore[i].hash == h;
      assert restore[i] in records;
    }
  }

  lemma InListing(records: seq<Record>, rows: map<Hash, Record>, h: Hash)
    requires IsListing(records, rows) && h in rows && rows[h].hash == h
    ensures HashListed(records, h)
  {
    var i :| 0 <= i < |records| && records[i] == rows[h];
  }

  /** The whole table after a restart, whatever fails: the best row of each package is settled, a row
      with a better one of its package is gone unless its deletion failed, and there are no others. */
  lemma TableAfterRestart(r: Runner, records: seq<Record>, restore: seq<Record>, remove: seq<Hash>,
                          env: RestartEnv, pkgOf: Hash -> string, h: Hash)
    requires RowsOk(r.rows, pkgOf) && IsListing(records, r.rows) && IsDedupe(records, restore, remove) && AllFit(restore, env, pkgOf)
    ensures var row := RowAt(Restart(r, restore, remove, env), h);
            if h !in r.rows then row == None
            else if exists g :: g in r.rows && pkgOf(g) == pkgOf(h) && Better(r.rows[g], r.rows[h])
            then row == (if env.delete(h) == FailedBefore then Some(r.rows[h]) else None)
            else Settled(Some(r.rows[h]), r.rows[h], env, row)
    ensures HoldsHash(Restart(r, restore, remove, env), h) <==>
              && h in r.rows && Boots(env.deploy(h))
              && forall g :: g in r.rows && pkgOf(g) == pkgOf(h) ==> !Better(r.rows[g], r.rows[h])
  {
    var r1 := DeleteAll(Rebooted(r), remove, env);
    DeletedIff(Rebooted(r), remove, env, h);
    DedupeWellListed(r, records, restore, remove, pkgOf);
    RestoreSettles(r1, restore, env, pkgOf);
    RemovedIff(r, records, restore, remove, h);
    if h in r.rows {
      RestoredIffBest(r, records, restore, remove, h);
      if HashListed(restore, h) {
        ListedIsRow(r, records, restore, remove, h);
      }
    }
  }

  lemma ListedIsRow(r: Runner, records: seq<Record>, restore: seq<Record>, remove: seq<Hash>, h: Hash)
    requires IsListing(records, r.rows) && IsDedupe(records, restore, remove) && HashListed(restore, h)
    ensures h in r.rows && exists i :: 0 <= i < |restore| && restore[i].hash == h && restore[i] == r.rows[h]
  {
    var i :| 0 <= i < |restore| && restore[i].hash == h;
    assert restore[i] in records;
  }

  /** A deployment that failed at a restart gives way at the next one to any active row of its package,
      however old. */
  lemma FailedGivesWay(r: Runner, records: seq<Record>, restore: seq<Record>, remove: seq<Hash>, env: RestartEnv, pkgOf: Hash -> string,
                       h: Hash, g: Hash, records': seq<Record>, restore': seq<Record>, remove': seq<Hash>)
    requires RowsOk(r.rows, pkgOf) && IsListing(records, r.rows) && IsDedupe(records, restore, remove) && AllFit(restore, env, pkgOf)
    requires HashListed(restore, h) && !Boots(env.deploy(h)) && env.saveFailed(h) == Applied
    requires var after := Restart(r, restore, remove, env);
             && IsListing(records', after.rows) && IsDedupe(records', restore', remove')
             && g in after.rows && pkgOf(g) == pkgOf(h) && after.rows[g].status == Active
    ensures !HashListed(restore', h)
  {
    var after := Restart(r, restore, remove, env);
    ListedIsRow(r, records, restore, remove, h);
    TableAfterRestart(r, records, restore, remove, env, pkgOf, h);
    TableAfterRestart(r, records, restore, remove, env, pkgOf, g);
    RemovedIff(r, records, restore, remove, h);
    RestoredIffBest(r, records, restore, remove, h);
    assert FailedAgain(r.rows[h], RowAt(after, h), env.error(h), env.failedAt(h));
    assert after.rows[g] in records' && Better(after.rows[g], after.rows[h]);
    if HashListed(restore', h) { ListedIsRow(after, records', restore', remove', h); }
  }
}
