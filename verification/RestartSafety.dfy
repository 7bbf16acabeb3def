/** What survives a restart: over every sequence of deploys, undeploys and restarts, with any
    fetch, boot or database statement failing, the persisted table always lets a failure-free
    restart bring back what is running. `pkgOf` is the package name inside the artifact of a
    content hash, which the integrity check makes a function of the hash. */
module RestartSafety {
  import opened Options
  import opened Orders
  import opened Decimal
  import opened RestoreDedupe
  import opened RunnerState
  import opened AgentRunner

  /** The row of `h` is preferred over every other row of the same package. */
  ghost predicate Leads(rows: map<Hash, Record>, h: Hash)
    requires h in rows
  {
    forall g :: g in rows && g != h && rows[g].agentName == rows[h].agentName ==> Better(rows[h], rows[g])
  }

  ghost predicate RowsOk(rows: map<Hash, Record>, pkgOf: Hash -> string) {
    forall h :: h in rows ==> rows[h].hash == h && rows[h].agentName == pkgOf(h)
  }

  /** Every running agent has an active row that leads its package. */
  ghost predicate Persisted(r: Runner, pkgOf: Hash -> string) {
    forall n :: n in r.agents ==>
      && r.agents[n].hash.Some?
      && var h := r.agents[n].hash.value;
         pkgOf(h) == n && h in r.rows && r.rows[h].status == Active && Leads(r.rows, h)
  }

  ghost predicate Sound(r: Runner, pkgOf: Hash -> string) {
    Consistent(r) && RowsOk(r.rows, pkgOf) && Persisted(r, pkgOf)
  }

  /** Artifacts carry the name their hash stands for. */
  ghost predicate EnvFits(env: DeployEnv, h: Hash, pkgOf: Hash -> string) {
    && (env.package.Some? ==> env.package.value == pkgOf(h))
    && (env.boots.Some? ==> env.boots.value == pkgOf(h))
  }

  /** A row written now for `h` is better than every other active row of the package. */
  ghost predicate ClockOk(rows: map<Hash, Record>, h: Hash, now: string, pkgOf: Hash -> string) {
    forall g :: g in rows && g != h && rows[g].agentName == pkgOf(h) && rows[g].status == Active
      ==> Better(ActiveRow(h, pkgOf(h), now), rows[g])
  }

  /** Nothing fails between fetching the artifact and installing the agent. */
  predicate Boots(env: DeployEnv) {
    env.package.Some? && env.boots.Some? && env.save == Applied
  }

  /** If the deploy gets as far as installing, its row leads. */
  ghost predicate Timely(rows: map<Hash, Record>, h: Hash, env: DeployEnv, pkgOf: Hash -> string) {
    Boots(env) ==> ClockOk(rows, h, env.now, pkgOf)
  }

  /** Every running agent sits under the name its hash stands for. */
  ghost predicate Named(r: Runner, pkgOf: Hash -> string) {
    forall n :: n in r.agents ==> r.agents[n].hash.Some? && pkgOf(r.agents[n].hash.value) == n
  }

  lemma HashRunsUnderItsName(r: Runner, h: Hash, pkgOf: Hash -> string)
    requires Named(r, pkgOf)
    ensures HoldsHash(r, h) <==> pkgOf(h) in r.agents && r.agents[pkgOf(h)].hash == Some(h)
  {
  }

  lemma UndeployKeepsSound(r: Runner, h: Hash, w: Write, pkgOf: Hash -> string)
    requires Sound(r, pkgOf)
    ensures Sound(Undeploy(r, h, w), pkgOf)
    ensures !HoldsHash(Undeploy(r, h, w), h)
    ensures HoldsHash(r, h) ==> pkgOf(h) !in Undeploy(r, h, w).agents
  {
    if HoldsHash(r, h) {
      var n := NameOfHash(r, h);
      TakeOutOf(r, h, n);
      var r' := Undeploy(r, h, w);
      forall m | m in r'.agents ensures m != n && r'.agents[m] == r.agents[m] && r.agents[m].hash != Some(h) {
      }
    }
  }

  /** Adding an active row for a package that is not running disturbs no other package. */
  lemma OtherPackagesUndisturbed(r: Runner, rows: map<Hash, Record>, h: Hash, pkgOf: Hash -> string)
    requires Sound(r, pkgOf) && pkgOf(h) !in r.agents && RowsOk(rows, pkgOf)
    requires forall g :: g != h ==> (g in rows <==> g in r.rows) && (g in rows ==> rows[g] == r.rows[g])
    ensures Sound(r.(rows := rows), pkgOf)
  {
    var r' := r.(rows := rows);
    forall n | n in r'.agents ensures r'.agents[n].hash.value in rows && Leads(rows, r'.agents[n].hash.value) {
      var k := r.agents[n].hash.value;
      assert k != h && rows[k] == r.rows[k];
    }
  }

  lemma SaveKeepsSound(r: Runner, rec: Record, w: Write, pkgOf: Hash -> string)
    requires Sound(r, pkgOf) && rec.agentName == pkgOf(rec.hash) && rec.agentName !in r.agents
    ensures Sound(SaveRow(r, rec, w), pkgOf)
  {
    var r' := SaveRow(r, rec, w);
    OtherPackagesUndisturbed(r, r'.rows, rec.hash, pkgOf);
    assert r' == r.(rows := r'.rows);
  }

  /** What booting comes to for a package that is not running: the row is saved, and the agent
      is installed or the maps are back where they were. */
  lemma BootOfFreshPackage(r: Runner, h: Hash, env: DeployEnv, pkgOf: Hash -> string)
    requires Sound(r, pkgOf) && pkgOf(h) !in r.agents && env.boots == Some(pkgOf(h))
    ensures var b := Booted(r.nextId, pkgOf(h), Some(h));
            var saved := SaveRow(r.(nextId := r.nextId + 1), ActiveRow(h, pkgOf(h), env.now), env.save);
            && Consistent(Install(saved, b))
            && BootAndInstall(r, h, env) ==
                 (if env.save == Applied then (Install(saved, b), Deployed) else (saved, Error))
  {
    var name := pkgOf(h);
    var (r1, b) := NewInstance(r, name, h);
    var saved := SaveRow(r1, ActiveRow(h, name, env.now), env.save);
    assert !HoldsHash(r1, h) by { HashRunsUnderItsName(r, h, pkgOf); }
    assert !HoldsHash(saved, h);
    InstallKeepsConsistent(saved, b, h);
    assert SaveRow(Install(r1, b), ActiveRow(h, name, env.now), env.save) == Install(saved, b);
    UnrouteUndoesInstall(saved, b);
  }

  lemma SavedIsSound(r: Runner, h: Hash, env: DeployEnv, pkgOf: Hash -> string)
    requires Sound(r, pkgOf) && pkgOf(h) !in r.agents
    ensures Sound(SaveRow(r.(nextId := r.nextId + 1), ActiveRow(h, pkgOf(h), env.now), env.save), pkgOf)
  {
    assert Sound(r.(nextId := r.nextId + 1), pkgOf);
    SaveKeepsSound(r.(nextId := r.nextId + 1), ActiveRow(h, pkgOf(h), env.now), env.save, pkgOf);
  }

  lemma SavedAndInstalledIsSound(r: Runner, h: Hash, env: DeployEnv, pkgOf: Hash -> string)
    requires Sound(r, pkgOf) && pkgOf(h) !in r.agents && ClockOk(r.rows, h, env.now, pkgOf) && env.save == Applied
    requires var saved := SaveRow(r.(nextId := r.nextId + 1), ActiveRow(h, pkgOf(h), env.now), env.save);
             Sound(saved, pkgOf) && Consistent(Install(saved, Booted(r.nextId, pkgOf(h), Some(h))))
    ensures Sound(Install(SaveRow(r.(nextId := r.nextId + 1), ActiveRow(h, pkgOf(h), env.now), env.save),
                          Booted(r.nextId, pkgOf(h), Some(h))), pkgOf)
  {
    var saved := SaveRow(r.(nextId := r.nextId + 1), ActiveRow(h, pkgOf(h), env.now), env.save);
    assert ClockOk(saved.rows, h, env.now, pkgOf);
    InstalledIsSound(saved, Booted(r.nextId, pkgOf(h), Some(h)), h, env.now, pkgOf);
  }

  lemma BootKeepsSound(r: Runner, h: Hash, env: DeployEnv, pkgOf: Hash -> string)
    requires Sound(r, pkgOf) && pkgOf(h) !in r.agents
    requires EnvFits(env, h, pkgOf) && env.package.Some? && Timely(r.rows, h, env, pkgOf)
    ensures Sound(BootAndInstall(r, h, env).0, pkgOf)
    ensures BootAndInstall(r, h, env).1 == Error ==> BootAndInstall(r, h, env).0.agents == r.agents
  {
    if env.boots.Some? {
      BootOfFreshPackage(r, h, env, pkgOf);
      SavedIsSound(r, h, env, pkgOf);
      if env.save == Applied { SavedAndInstalledIsSound(r, h, env, pkgOf); }
    }
  }

  lemma InstalledIsSound(r: Runner, b: Booted, h: Hash, now: string, pkgOf: Hash -> string)
    requires Sound(r, pkgOf) && pkgOf(h) !in r.agents && Consistent(Install(r, b))
    requires b.name == pkgOf(h) && b.hash == Some(h)
    requires h in r.rows && r.rows[h] == ActiveRow(h, b.name, now)
    requires ClockOk(r.rows, h, now, pkgOf)
    ensures Sound(Install(r, b), pkgOf)
  {
    forall g | g in r.rows && g != h && r.rows[g].agentName == b.name ensures Better(r.rows[h], r.rows[g]) {
      StrLtIrreflexive(now);
    }
  }

  /** The rows left when a deploy of `h` comes to boot: a superseded revision's is gone. */
  ghost function RowsAtBoot(r: Runner, h: Hash, pkgOf: Hash -> string): map<Hash, Record> {
    match Superseded(r, pkgOf(h)) case Some(prior) => r.rows - {prior} case None => r.rows
  }

  /** The deploy of `h` does not end before it boots the artifact. */
  ghost predicate ComesToBoot(r: Runner, h: Hash, env: DeployEnv, pkgOf: Hash -> string) {
    !HoldsHash(r, h) && (Superseded(r, pkgOf(h)).Some? ==> env.supersede == Applied)
  }

  lemma DeployKeepsSound(r: Runner, h: Hash, env: DeployEnv, pkgOf: Hash -> string)
    requires Sound(r, pkgOf) && EnvFits(env, h, pkgOf)
    requires ComesToBoot(r, h, env, pkgOf) ==> Timely(RowsAtBoot(r, h, pkgOf), h, env, pkgOf)
    ensures Sound(Deploy(r, h, env).0, pkgOf)
    ensures Deploy(r, h, env).1 == Error ==> Deploy(r, h, env).0.agents.Keys <= r.agents.Keys
    ensures Deploy(r, h, env).1 == Error && pkgOf(h) !in r.agents ==> Deploy(r, h, env).0.agents == r.agents
  {
    if !HoldsHash(r, h) && env.package.Some? {
      HashRunsUnderItsName(r, h, pkgOf);
      match Superseded(r, pkgOf(h)) {
        case None => BootKeepsSound(r, h, env, pkgOf);
        case Some(prior) =>
          assert HoldsHash(r, prior);
          UndeployKeepsSound(r, prior, env.supersede, pkgOf);
          if env.supersede == Applied {
            assert Undeploy(r, prior, env.supersede).rows == RowsAtBoot(r, h, pkgOf);
            BootKeepsSound(Undeploy(r, prior, env.supersede), h, env, pkgOf);
          }
      }
    }
  }

  /** What a deploy comes to for a package that is not running. */
  lemma FreshDeployForm(r: Runner, h: Hash, env: DeployEnv, pkgOf: Hash -> string)
    requires Sound(r, pkgOf) && pkgOf(h) !in r.agents && EnvFits(env, h, pkgOf)
    ensures var r' := Deploy(r, h, env).0;
            || r' == r
            || r' == SaveRow(r.(nextId := r.nextId + 1), ActiveRow(h, pkgOf(h), env.now), env.save)
            || r' == Install(SaveRow(r.(nextId := r.nextId + 1), ActiveRow(h, pkgOf(h), env.now), env.save),
                             Booted(r.nextId, pkgOf(h), Some(h)))
  {
    if env.boots.Some? { BootOfFreshPackage(r, h, env, pkgOf); }
  }

  /** It touches only that package. */
  lemma FreshDeployFrame(r: Runner, h: Hash, env: DeployEnv, pkgOf: Hash -> string)
    requires Sound(r, pkgOf) && pkgOf(h) !in r.agents && EnvFits(env, h, pkgOf)
    ensures forall g :: g != h ==> (g in Deploy(r, h, env).0.rows <==> g in r.rows)
    ensures forall g :: g != h && g in r.rows ==> Deploy(r, h, env).0.rows[g] == r.rows[g]
    ensures Deploy(r, h, env).0.agents.Keys <= r.agents.Keys + {pkgOf(h)}
  {
    FreshDeployForm(r, h, env, pkgOf);
  }

  ghost predicate DistinctNames(restore: seq<Record>) {
    forall i, j :: 0 <= i < j < |restore| ==> restore[i].agentName != restore[j].agentName
  }

  /** What the restore loop can rely on before it starts. */
  ghost predicate Restorable(r: Runner, restore: seq<Record>, env: RestartEnv, pkgOf: Hash -> string) {
    && Sound(r, pkgOf) && DistinctNames(restore)
    && forall rec :: rec in restore ==>
         && rec.agentName == pkgOf(rec.hash) && rec.agentName !in r.agents
         && EnvFits(env.deploy(rec.hash), rec.hash, pkgOf)
         && Timely(r.rows, rec.hash, env.deploy(rec.hash), pkgOf)
  }

  /** Only rows of package `name` may differ. */
  ghost predicate RowsFramed(rows: map<Hash, Record>, rows': map<Hash, Record>, name: string, pkgOf: Hash -> string) {
    forall g :: pkgOf(g) != name ==> (g in rows' <==> g in rows) && (g in rows ==> rows'[g] == rows[g])
  }

  lemma RestoreOneKeepsSound(r: Runner, rec: Record, env: RestartEnv, pkgOf: Hash -> string)
    requires Sound(r, pkgOf) && rec.agentName == pkgOf(rec.hash) && rec.agentName !in r.agents
    requires EnvFits(env.deploy(rec.hash), rec.hash, pkgOf)
    requires Timely(r.rows, rec.hash, env.deploy(rec.hash), pkgOf)
    ensures Sound(RestoreOne(r, rec, env), pkgOf)
    ensures RestoreOne(r, rec, env).agents.Keys <= r.agents.Keys + {rec.agentName}
    ensures RowsFramed(r.rows, RestoreOne(r, rec, env).rows, rec.agentName, pkgOf)
  {
    var h := rec.hash;
    var (r1, outcome) := Deploy(r, h, env.deploy(h));
    DeployKeepsSound(r, h, env.deploy(h), pkgOf);
    FreshDeployFrame(r, h, env.deploy(h), pkgOf);
    if outcome == Error {
      SaveKeepsSound(r1, FailedRow(rec, env.error(h), env.failedAt(h)), env.saveFailed(h), pkgOf);
      SaveFramed(r1, FailedRow(rec, env.error(h), env.failedAt(h)), env.saveFailed(h), pkgOf);
    }
  }

  lemma SaveFramed(r: Runner, rec: Record, w: Write, pkgOf: Hash -> string)
    requires rec.agentName == pkgOf(rec.hash)
    ensures RowsFramed(r.rows, SaveRow(r, rec, w).rows, rec.agentName, pkgOf) && SaveRow(r, rec, w).agents == r.agents
  {
  }

  /** The restore loop keeps the table sound, starts only packages of its list, and leaves the
      rows of other packages alone. */
  lemma {:induction false} RestoreKeepsSound(r: Runner, restore: seq<Record>, env: RestartEnv, pkgOf: Hash -> string)
    requires Restorable(r, restore, env, pkgOf)
    ensures Sound(RestoreAll(r, restore, env), pkgOf)
    ensures forall n :: n in RestoreAll(r, restore, env).agents ==> n in r.agents || Keeper(restore, n)
    ensures forall g :: !Keeper(restore, pkgOf(g)) ==>
              (g in RestoreAll(r, restore, env).rows <==> g in r.rows)
              && (g in r.rows ==> RestoreAll(r, restore, env).rows[g] == r.rows[g])
  {
    if restore != [] {
      var last := |restore| - 1;
      var rec, front := restore[last], restore[..last];
      RestoreKeepsSound(r, front, env, pkgOf);
      var r1 := RestoreAll(r, front, env);
      assert rec in restore && !Keeper(front, rec.agentName);
      LastRestorable(r, restore, env, pkgOf, r1);
      assert rec in [rec];
      RestoreOneKeepsSound(r1, rec, env, pkgOf);
      assert restore == front + [rec];
      KeeperGrows(front, rec);
    }
  }

  lemma LastRestorable(r: Runner, restore: seq<Record>, env: RestartEnv, pkgOf: Hash -> string, r1: Runner)
    requires restore != [] && Restorable(r, restore, env, pkgOf) && Sound(r1, pkgOf)
    requires var front := restore[..|restore| - 1];
             && (forall n :: n in r1.agents ==> n in r.agents || Keeper(front, n))
             && (forall g :: !Keeper(front, pkgOf(g)) ==>
                   (g in r1.rows <==> g in r.rows) && (g in r.rows ==> r1.rows[g] == r.rows[g]))
    ensures Restorable(r1, [restore[|restore| - 1]], env, pkgOf)
  {
    var rec, front := restore[|restore| - 1], restore[..|restore| - 1];
    assert rec in restore && !Keeper(front, rec.agentName);
    forall g | g in r1.rows && g != rec.hash && r1.rows[g].agentName == rec.agentName
      ensures g in r.rows && r1.rows[g] == r.rows[g]
    {
      assert pkgOf(g) == rec.agentName;
    }
  }

  /** `restore` names each package once, by the name its hash stands for. */
  ghost predicate WellListed(restore: seq<Record>, pkgOf: Hash -> string) {
    DistinctNames(restore) && forall rec :: rec in restore ==> rec.agentName == pkgOf(rec.hash)
  }

  lemma RestoreOneStartsOnlyIt(r: Runner, rec: Record, env: RestartEnv, pkgOf: Hash -> string)
    requires rec.agentName == pkgOf(rec.hash) && rec.agentName !in r.agents
    requires EnvFits(env.deploy(rec.hash), rec.hash, pkgOf)
    ensures RestoreOne(r, rec, env).agents.Keys <= r.agents.Keys + {rec.agentName}
  {
  }

  lemma {:induction false} RestoreStartsOnlyListed(r: Runner, restore: seq<Record>, env: RestartEnv, pkgOf: Hash -> string)
    requires r.agents == map[] && WellListed(restore, pkgOf)
    requires forall rec :: rec in restore ==> EnvFits(env.deploy(rec.hash), rec.hash, pkgOf)
    ensures forall n :: n in RestoreAll(r, restore, env).agents ==> Keeper(restore, n)
  {
    if restore != [] {
      var last := |restore| - 1;
      var rec, front := restore[last], restore[..last];
      RestoreStartsOnlyListed(r, front, env, pkgOf);
      assert !Keeper(front, rec.agentName) && rec in restore;
      RestoreOneStartsOnlyIt(RestoreAll(r, front, env), rec, env, pkgOf);
      assert restore == front + [rec];
      KeeperGrows(front, rec);
    }
  }

  /** Restoring never meets a running revision of the package it is about to boot: no
      `undeploy_by_hash` is ever called by the restore loop, whatever fails. */
  lemma RestoreNeverSupersedes(r: Runner, restore: seq<Record>, env: RestartEnv, pkgOf: Hash -> string, i: nat)
    requires r.agents == map[] && WellListed(restore, pkgOf) && i < |restore|
    requires forall rec :: rec in restore ==> EnvFits(env.deploy(rec.hash), rec.hash, pkgOf)
    ensures Superseded(RestoreAll(r, restore[..i], env), pkgOf(restore[i].hash)) == None
  {
    RestoreStartsOnlyListed(r, restore[..i], env, pkgOf);
    assert restore[i] in restore && !Keeper(restore[..i], restore[i].agentName);
  }

  /** Nothing on the way fails. */
  ghost predicate Succeeds(env: DeployEnv, h: Hash, pkgOf: Hash -> string) {
    env.package == Some(pkgOf(h)) && env.boots == Some(pkgOf(h)) && env.save == Applied
  }

  lemma FreshDeployRuns(r: Runner, h: Hash, env: DeployEnv, pkgOf: Hash -> string)
    requires Consistent(r) && Named(r, pkgOf) && pkgOf(h) !in r.agents && Succeeds(env, h, pkgOf)
    ensures Deploy(r, h, env).1 == Deployed && Consistent(Deploy(r, h, env).0)
    ensures Deploy(r, h, env).0.agents == r.agents[pkgOf(h) := Booted(r.nextId, pkgOf(h), Some(h))]
  {
    HashRunsUnderItsName(r, h, pkgOf);
    var (r1, b) := NewInstance(r, pkgOf(h), h);
    assert !HoldsHash(r1, h) by { HashRunsUnderItsName(r1, h, pkgOf); }
    InstallKeepsConsistent(r1, b, h);
  }

  ghost predicate Runs(r: Runner, n: string, h: Hash) {
    n in r.agents && r.agents[n].hash == Some(h)
  }

  ghost predicate Listed(restore: seq<Record>, n: string, h: Hash) {
    exists i :: 0 <= i < |restore| && restore[i].agentName == n && restore[i].hash == h
  }

  lemma RestoreOneRuns(r: Runner, rec: Record, env: RestartEnv, pkgOf: Hash -> string)
    requires Consistent(r) && Named(r, pkgOf)
    requires rec.agentName == pkgOf(rec.hash) && rec.agentName !in r.agents
    requires Succeeds(env.deploy(rec.hash), rec.hash, pkgOf)
    ensures Consistent(RestoreOne(r, rec, env)) && Named(RestoreOne(r, rec, env), pkgOf)
    ensures forall n, h :: Runs(RestoreOne(r, rec, env), n, h)
              <==> Runs(r, n, h) || (rec.agentName == n && rec.hash == h)
  {
    FreshDeployRuns(r, rec.hash, env.deploy(rec.hash), pkgOf);
  }

  /** A failure-free restore loop runs exactly its list. */
  lemma {:induction false} RestoreRunsItsList(r: Runner, restore: seq<Record>, env: RestartEnv, pkgOf: Hash -> string)
    requires r.agents == map[] && r.routed == map[] && WellListed(restore, pkgOf)
    requires forall rec :: rec in restore ==> Succeeds(env.deploy(rec.hash), rec.hash, pkgOf)
    ensures Consistent(RestoreAll(r, restore, env)) && Named(RestoreAll(r, restore, env), pkgOf)
    ensures forall n, h :: Runs(RestoreAll(r, restore, env), n, h) <==> Listed(restore, n, h)
  {
    if restore != [] {
      var last := |restore| - 1;
      var rec, front := restore[last], restore[..last];
      var r1 := RestoreAll(r, front, env);
      RestoreRunsItsList(r, front, env, pkgOf);
      RestoreStartsOnlyListed(r, front, env, pkgOf);
      assert rec in restore && !Keeper(front, rec.agentName);
      RestoreOneRuns(r1, rec, env, pkgOf);
      assert restore == front + [rec];
      forall n, h { ListedSnoc(front, rec, n, h); }
    }
  }

  lemma ListedSnoc(front: seq<Record>, rec: Record, n: string, h: Hash)
    ensures Listed(front + [rec], n, h) <==> Listed(front, n, h) || (rec.agentName == n && rec.hash == h)
    ensures Listed(front, n, h) ==> Keeper(front, n)
  {
    if Listed(front, n, h) {
      var i :| 0 <= i < |front| && front[i].agentName == n && front[i].hash == h;
      assert (front + [rec])[i] == front[i];
    }
    assert (front + [rec])[|front|] == rec;
  }

  /** Deleting superseded rows, whichever deletions fail, only shrinks the table. */
  lemma {:induction false} DeleteAllShrinks(r: Runner, remove: seq<Hash>, env: RestartEnv)
    ensures DeleteAll(r, remove, env) == r.(rows := DeleteAll(r, remove, env).rows)
    ensures forall h :: h in DeleteAll(r, remove, env).rows ==> h in r.rows && DeleteAll(r, remove, env).rows[h] == r.rows[h]
  {
    if remove != [] {
      DeleteAllShrinks(r, remove[..|remove| - 1], env);
    }
  }

  /** What the deduplication keeps: the row of `h` is restored exactly when no row of its package
      is better. */
  lemma RestoredIffBest(r: Runner, records: seq<Record>, restore: seq<Record>, remove: seq<Hash>, h: Hash)
    requires RowsKeyed(r.rows) && IsListing(records, r.rows) && IsDedupe(records, restore, remove) && h in r.rows
    ensures Listed(restore, r.rows[h].agentName, h)
       <==> forall g :: g in r.rows && r.rows[g].agentName == r.rows[h].agentName ==> !Better(r.rows[g], r.rows[h])
  {
    var best := r.rows[h];
    assert best in records && Keeper(restore, best.agentName);
    var i :| 0 <= i < |restore| && restore[i].agentName == best.agentName;
    assert restore[i] in records;
    if Listed(restore, best.agentName, h) {
      var k :| 0 <= k < |restore| && restore[k].agentName == best.agentName && restore[k].hash == h;
      assert restore[k] in records && restore[k] == best;
    } else {
      assert restore[i].hash != h && r.rows[restore[i].hash] == restore[i];
      BetterIsStrictTotal();
      assert Better(restore[i], best);
    }
  }

  lemma DedupeWellListed(r: Runner, records: seq<Record>, restore: seq<Record>, remove: seq<Hash>, pkgOf: Hash -> string)
    requires RowsOk(r.rows, pkgOf) && IsListing(records, r.rows) && IsDedupe(records, restore, remove)
    ensures WellListed(restore, pkgOf)
  {
    forall i, j | 0 <= i < j < |restore| ensures restore[i].agentName != restore[j].agentName {
      StrLtIrreflexive(restore[i].agentName);
    }
  }

  /** A failure-free restart runs hash `h` of the table exactly when no row of its package is
      better, whichever deletions of superseded rows fail. */
  lemma RestartRunsTheBest(r: Runner, records: seq<Record>, restore: seq<Record>, remove: seq<Hash>,
                           env: RestartEnv, pkgOf: Hash -> string, h: Hash)
    requires RowsOk(r.rows, pkgOf) && IsListing(records, r.rows) && IsDedupe(records, restore, remove)
    requires forall g :: Succeeds(env.deploy(g), g, pkgOf)
    requires h in r.rows
    ensures Runs(Restart(r, restore, remove, env), pkgOf(h), h)
       <==> forall g :: g in r.rows && pkgOf(g) == pkgOf(h) ==> !Better(r.rows[g], r.rows[h])
  {
    DeleteAllShrinks(Rebooted(r), remove, env);
    DedupeWellListed(r, records, restore, remove, pkgOf);
    RestoreRunsItsList(DeleteAll(Rebooted(r), remove, env), restore, env, pkgOf);
    RestoredIffBest(r, records, restore, remove, h);
  }

  /** Everything that runs in a sound state runs again after a failure-free restart. */
  lemma RestartBringsBackWhatRuns(r: Runner, records: seq<Record>, restore: seq<Record>, remove: seq<Hash>,
                                  env: RestartEnv, pkgOf: Hash -> string)
    requires Sound(r, pkgOf) && IsListing(records, r.rows) && IsDedupe(records, restore, remove)
    requires forall g :: Succeeds(env.deploy(g), g, pkgOf)
    ensures forall n, h :: Runs(r, n, h) ==> Runs(Restart(r, restore, remove, env), n, h)
  {
    forall n, h | Runs(r, n, h) ensures Runs(Restart(r, restore, remove, env), n, h) {
      RestartRunsTheBest(r, records, restore, remove, env, pkgOf, h);
      BetterIsStrictTotal();
      assert pkgOf(h) == n && Leads(r.rows, h);
    }
  }

  /** What a restart starts from once the table was read and the losers deleted. */
  lemma RebootRestorable(r: Runner, records: seq<Record>, restore: seq<Record>, remove: seq<Hash>,
                         env: RestartEnv, pkgOf: Hash -> string)
    requires RowsOk(r.rows, pkgOf) && IsListing(records, r.rows) && IsDedupe(records, restore, remove)
    requires forall rec :: rec in restore ==>
               EnvFits(env.deploy(rec.hash), rec.hash, pkgOf) && Timely(r.rows, rec.hash, env.deploy(rec.hash), pkgOf)
    ensures Restorable(DeleteAll(Rebooted(r), remove, env), restore, env, pkgOf)
  {
    DeleteAllShrinks(Rebooted(r), remove, env);
    var r1 := DeleteAll(Rebooted(r), remove, env);
    forall rec | rec in restore
      ensures rec.agentName == pkgOf(rec.hash) && Timely(r1.rows, rec.hash, env.deploy(rec.hash), pkgOf)
    {
      assert rec in records;
      TimelyShrinks(r.rows, r1.rows, rec.hash, env.deploy(rec.hash), pkgOf);
    }
    DedupeWellListed(r, records, restore, remove, pkgOf);
  }

  lemma TimelyShrinks(rows: map<Hash, Record>, rows': map<Hash, Record>, h: Hash, env: DeployEnv, pkgOf: Hash -> string)
    requires Timely(rows, h, env, pkgOf) && forall g :: g in rows' ==> g in rows && rows'[g] == rows[g]
    ensures Timely(rows', h, env, pkgOf)
  {
  }

  datatype Op =
    | OpDeploy(h: Hash, env: DeployEnv)
    | OpUndeploy(h: Hash, w: Write)
    | OpRestart(restore: seq<Record>, remove: seq<Hash>, renv: RestartEnv)

  ghost function Apply(r: Runner, op: Op): Runner {
    match op
    case OpDeploy(h, env) => Deploy(r, h, env).0
    case OpUndeploy(h, w) => Undeploy(r, h, w)
    case OpRestart(restore, remove, env) => Restart(r, restore, remove, env)
  }

  /** The restart deduplicated the table as it was read, in some order. */
  ghost predicate Deduplicated(r: Runner, restore: seq<Record>, remove: seq<Hash>) {
    exists records :: IsListing(records, r.rows) && IsDedupe(records, restore, remove)
  }

  /** Artifacts fit their hashes, and no deploy reads a clock at which its row would lose to a row
      its package already has; anything may fail. */
  ghost predicate OpOk(r: Runner, op: Op, pkgOf: Hash -> string) {
    match op
    case OpDeploy(h, env) =>
      EnvFits(env, h, pkgOf) && (ComesToBoot(r, h, env, pkgOf) ==> Timely(RowsAtBoot(r, h, pkgOf), h, env, pkgOf))
    case OpUndeploy(h, w) => true
    case OpRestart(restore, remove, env) =>
      && Deduplicated(r, restore, remove)
      && forall rec :: rec in restore ==>
           EnvFits(env.deploy(rec.hash), rec.hash, pkgOf) && Timely(r.rows, rec.hash, env.deploy(rec.hash), pkgOf)
  }

  lemma RestartKeepsSound(r: Runner, restore: seq<Record>, remove: seq<Hash>, env: RestartEnv, pkgOf: Hash -> string)
    requires Sound(r, pkgOf) && OpOk(r, OpRestart(restore, remove, env), pkgOf)
    ensures Sound(Restart(r, restore, remove, env), pkgOf)
  {
    var records :| IsListing(records, r.rows) && IsDedupe(records, restore, remove);
    RebootRestorable(r, records, restore, remove, env, pkgOf);
    RestoreKeepsSound(DeleteAll(Rebooted(r), remove, env), restore, env, pkgOf);
  }

  lemma OpKeepsSound(r: Runner, op: Op, pkgOf: Hash -> string)
    requires Sound(r, pkgOf) && OpOk(r, op, pkgOf)
    ensures Sound(Apply(r, op), pkgOf)
  {
    match op
    case OpDeploy(h, env) => DeployKeepsSound(r, h, env, pkgOf);
    case OpUndeploy(h, w) => UndeployKeepsSound(r, h, w, pkgOf);
    case OpRestart(restore, remove, env) => RestartKeepsSound(r, restore, remove, env, pkgOf);
  }

  /** Operations one after another from an empty runner. */
  ghost predicate IsHistory(states: seq<Runner>, ops: seq<Op>, pkgOf: Hash -> string) {
    && |states| == |ops| + 1 && states[0] == Runner(map[], map[], {}, map[], 0)
    && forall i :: 0 <= i < |ops| ==> OpOk(states[i], ops[i], pkgOf) && states[i + 1] == Apply(states[i], ops[i])
  }

  lemma {:induction false} HistoryIsSound(states: seq<Runner>, ops: seq<Op>, pkgOf: Hash -> string, i: nat)
    requires IsHistory(states, ops, pkgOf) && i < |states|
    ensures Sound(states[i], pkgOf)
  {
    if i > 0 {
      HistoryIsSound(states, ops, pkgOf, i - 1);
      OpKeepsSound(states[i - 1], ops[i - 1], pkgOf);
    }
  }

  /** After any history of deploys, undeploys and restarts in which anything may have failed,
      a failure-free restart brings back every running (package, hash) pair, although failed
      removals may have left stale active rows for the same package. */
  lemma RestartAfterAnyHistory(states: seq<Runner>, ops: seq<Op>, pkgOf: Hash -> string,
                               i: nat, restore: seq<Record>, remove: seq<Hash>, env: RestartEnv)
    requires IsHistory(states, ops, pkgOf) && i < |states|
    requires Deduplicated(states[i], restore, remove)
    requires forall g :: Succeeds(env.deploy(g), g, pkgOf)
    ensures forall n, h :: Runs(states[i], n, h) ==> Runs(Restart(states[i], restore, remove, env), n, h)
  {
    HistoryIsSound(states, ops, pkgOf, i);
    var records :| IsListing(records, states[i].rows) && IsDedupe(records, restore, remove);
    RestartBringsBackWhatRuns(states[i], records, restore, remove, env, pkgOf);
  }

  /** The clock condition is exact: saving and installing a new agent of a package that is not running
      keeps the state sound exactly when the new row wins. */
  lemma BootSoundIff(r: Runner, h: Hash, env: DeployEnv, pkgOf: Hash -> string)
    requires Sound(r, pkgOf) && pkgOf(h) !in r.agents && env.boots == Some(pkgOf(h)) && env.save == Applied
    ensures Sound(BootAndInstall(r, h, env).0, pkgOf) <==> ClockOk(r.rows, h, env.now, pkgOf)
  {
    BootOfFreshPackage(r, h, env, pkgOf);
    if ClockOk(r.rows, h, env.now, pkgOf) {
      SavedIsSound(r, h, env, pkgOf);
      SavedAndInstalledIsSound(r, h, env, pkgOf);
    } else {
      var r' := BootAndInstall(r, h, env).0;
      assert r'.agents[pkgOf(h)].hash == Some(h) && r'.rows[h] == ActiveRow(h, pkgOf(h), env.now);
      var g :| g in r.rows && g != h && r.rows[g].agentName == pkgOf(h) && r.rows[g].status == Active
               && !Better(ActiveRow(h, pkgOf(h), env.now), r.rows[g]);
      assert r'.rows[g] == r.rows[g];
    }
  }

  // Clocks. Every operation takes a span of seconds, and each begins after the one before ended.

  /** A clock reading between `t` and `u`, as the runner writes it. */
  ghost predicate Stamp(s: string, width: nat, t: nat, u: nat) {
    IsDigits(s) && |s| == width && t <= Value(s) <= u
  }

  /** Every row was written before `bound`, with timestamps of one width. */
  ghost predicate Stamped(rows: map<Hash, Record>, width: nat, bound: nat) {
    forall h :: h in rows ==>
      IsDigits(rows[h].deployedAt) && |rows[h].deployedAt| == width && Value(rows[h].deployedAt) < bound
  }

  lemma StampedClockOk(rows: map<Hash, Record>, h: Hash, now: string, width: nat, t: nat, u: nat, pkgOf: Hash -> string)
    requires Stamped(rows, width, t) && Stamp(now, width, t, u)
    ensures ClockOk(rows, h, now, pkgOf)
  {
    forall g | g in rows ensures StrLt(rows[g].deployedAt, now) && rows[g].deployedAt != now {
      TextOrderIsNumericOrder(rows[g].deployedAt, now);
    }
  }

  lemma BootStamps(r: Runner, h: Hash, env: DeployEnv, width: nat, u: nat)
    requires Stamped(r.rows, width, u + 1) && Stamp(env.now, width, 0, u)
    ensures Stamped(BootAndInstall(r, h, env).0.rows, width, u + 1)
  {
  }

  lemma UndeployStamps(r: Runner, h: Hash, w: Write, width: nat, bound: nat)
    requires Stamped(r.rows, width, bound)
    ensures Stamped(Undeploy(r, h, w).rows, width, bound)
  {
  }

  lemma DeployStamps(r: Runner, h: Hash, env: DeployEnv, width: nat, u: nat)
    requires Stamped(r.rows, width, u + 1) && Stamp(env.now, width, 0, u)
    ensures Stamped(Deploy(r, h, env).0.rows, width, u + 1)
  {
    if !HoldsHash(r, h) && env.package.Some? {
      match Superseded(r, env.package.value) {
        case None => BootStamps(r, h, env, width, u);
        case Some(prior) =>
          UndeployStamps(r, prior, env.supersede, width, u + 1);
          BootStamps(Undeploy(r, prior, env.supersede), h, env, width, u);
      }
    }
  }

  lemma {:induction false} RestoreStamps(r: Runner, restore: seq<Record>, env: RestartEnv, width: nat, u: nat)
    requires Stamped(r.rows, width, u + 1)
    requires forall rec :: rec in restore ==>
               && Stamp(env.deploy(rec.hash).now, width, 0, u)
               && IsDigits(rec.deployedAt) && |rec.deployedAt| == width && Value(rec.deployedAt) <= u
    ensures Stamped(RestoreAll(r, restore, env).rows, width, u + 1)
  {
    if restore != [] {
      var last := |restore| - 1;
      RestoreStamps(r, restore[..last], env, width, u);
      assert restore[last] in restore;
      DeployStamps(RestoreAll(r, restore[..last], env), restore[last].hash, env.deploy(restore[last].hash), width, u);
    }
  }

  /** `op` during the seconds `t` to `u`: every deploy in it, a restart's included, reads one of them. */
  ghost predicate OpTimed(r: Runner, op: Op, width: nat, t: nat, u: nat, pkgOf: Hash -> string) {
    t <= u && match op
      case OpDeploy(h, env) => EnvFits(env, h, pkgOf) && Stamp(env.now, width, t, u)
      case OpUndeploy(h, w) => true
      case OpRestart(restore, remove, env) =>
        && Deduplicated(r, restore, remove)
        && forall rec :: rec in restore ==>
             EnvFits(env.deploy(rec.hash), rec.hash, pkgOf) && Stamp(env.deploy(rec.hash).now, width, t, u)
  }

  ghost predicate IsTimedHistory(states: seq<Runner>, ops: seq<Op>, from: seq<nat>, to: seq<nat>, width: nat, pkgOf: Hash -> string) {
    && |states| == |ops| + 1 && |from| == |to| == |ops|
    && states[0] == Runner(map[], map[], {}, map[], 0)
    && (forall i, j :: 0 <= i < j < |ops| ==> to[i] < from[j])
    && forall i :: 0 <= i < |ops| ==>
         OpTimed(states[i], ops[i], width, from[i], to[i], pkgOf) && states[i + 1] == Apply(states[i], ops[i])
  }

  lemma TimedOpOk(r: Runner, op: Op, width: nat, t: nat, u: nat, pkgOf: Hash -> string)
    requires Stamped(r.rows, width, t) && OpTimed(r, op, width, t, u, pkgOf)
    ensures OpOk(r, op, pkgOf)
  {
    match op
    case OpDeploy(h, env) => StampedClockOk(r.rows, h, env.now, width, t, u, pkgOf);
    case OpUndeploy(h, w) =>
    case OpRestart(restore, remove, env) =>
      forall rec | rec in restore ensures ClockOk(r.rows, rec.hash, env.deploy(rec.hash).now, pkgOf) {
        StampedClockOk(r.rows, rec.hash, env.deploy(rec.hash).now, width, t, u, pkgOf);
      }
  }

  lemma RestartStamps(r: Runner, restore: seq<Record>, remove: seq<Hash>, env: RestartEnv, width: nat, t: nat, u: nat, pkgOf: Hash -> string)
    requires Stamped(r.rows, width, t) && OpTimed(r, OpRestart(restore, remove, env), width, t, u, pkgOf)
    ensures Stamped(Restart(r, restore, remove, env).rows, width, u + 1)
  {
    var records :| IsListing(records, r.rows) && IsDedupe(records, restore, remove);
    DeleteAllShrinks(Rebooted(r), remove, env);
    forall rec | rec in restore ensures rec.hash in r.rows && r.rows[rec.hash] == rec {
    }
    RestoreStamps(DeleteAll(Rebooted(r), remove, env), restore, env, width, u);
  }

  lemma TimedOpStamps(r: Runner, op: Op, width: nat, t: nat, u: nat, pkgOf: Hash -> string)
    requires Stamped(r.rows, width, t) && OpTimed(r, op, width, t, u, pkgOf)
    ensures Stamped(Apply(r, op).rows, width, u + 1)
  {
    match op
    case OpDeploy(h, env) => DeployStamps(r, h, env, width, u);
    case OpUndeploy(h, w) => UndeployStamps(r, h, w, width, u + 1);
    case OpRestart(restore, remove, env) => RestartStamps(r, restore, remove, env, width, t, u, pkgOf);
  }

  lemma {:induction false} TimedHistoryStamps(states: seq<Runner>, ops: seq<Op>, from: seq<nat>, to: seq<nat>, width: nat, pkgOf: Hash -> string, i: nat)
    requires IsTimedHistory(states, ops, from, to, width, pkgOf) && i < |states|
    ensures Stamped(states[i].rows, width, if i == 0 then 0 else to[i - 1] + 1)
  {
    if i > 0 {
      TimedHistoryStamps(states, ops, from, to, width, pkgOf, i - 1);
      assert Stamped(states[i - 1].rows, width, from[i - 1]);
      TimedOpStamps(states[i - 1], ops[i - 1], width, from[i - 1], to[i - 1], pkgOf);
    }
  }

  /** Operations that do not share a second, with timestamps of one width, make a history in that
      sense, however long each takes. */
  lemma TimedHistoryIsHistory(states: seq<Runner>, ops: seq<Op>, from: seq<nat>, to: seq<nat>, width: nat, pkgOf: Hash -> string)
    requires IsTimedHistory(states, ops, from, to, width, pkgOf)
    ensures IsHistory(states, ops, pkgOf)
  {
    forall i | 0 <= i < |ops| ensures OpOk(states[i], ops[i], pkgOf) {
      TimedHistoryStamps(states, ops, from, to, width, pkgOf, i);
      assert Stamped(states[i].rows, width, from[i]);
      TimedOpOk(states[i], ops[i], width, from[i], to[i], pkgOf);
    }
  }

  /** A deploy that meets no failure replaces whatever ran under the package: the new hash runs and
      is persisted, the old one neither runs nor has a row, and no other package notices. */
  lemma DeployReplaces(r: Runner, h: Hash, env: DeployEnv, pkgOf: Hash -> string)
    requires Sound(r, pkgOf) && !HoldsHash(r, h) && Succeeds(env, h, pkgOf) && env.supersede == Applied
    ensures Deploy(r, h, env).1 == Deployed
    ensures var r' := Deploy(r, h, env).0;
            && Runs(r', pkgOf(h), h) && h in r'.rows && r'.rows[h] == ActiveRow(h, pkgOf(h), env.now)
            && (forall n :: n != pkgOf(h) ==> (n in r'.agents <==> n in r.agents) && (n in r.agents ==> r'.agents[n] == r.agents[n]))
            && (forall g :: g != h && Runs(r, pkgOf(h), g) ==> g !in r'.rows && !HoldsHash(r', g))
  {
    HashRunsUnderItsName(r, h, pkgOf);
    match Superseded(r, pkgOf(h)) {
      case None =>
        FreshDeployRuns(r, h, env, pkgOf);
        BootOfFreshPackage(r, h, env, pkgOf);
      case Some(prior) =>
        assert r.agents[pkgOf(h)].hash == Some(prior);
        TakeOutOf(r, prior, pkgOf(h));
        UndeployKeepsSound(r, prior, env.supersede, pkgOf);
        var r1 := Undeploy(r, prior, env.supersede);
        BootOfFreshPackage(r1, h, env, pkgOf);
        assert Deploy(r, h, env) == BootAndInstall(r1, h, env);
        SupersededIsGone(r1, prior, h, pkgOf(h), Deploy(r, h, env).0);
    }
  }

  lemma SupersededIsGone(r1: Runner, prior: Hash, h: Hash, name: string, r': Runner)
    requires !HoldsHash(r1, prior) && prior != h && prior !in r1.rows
    requires r'.agents == r1.agents[name := Booted(r1.nextId, name, Some(h))]
    requires forall g :: g in r'.rows ==> g in r1.rows || g == h
    ensures prior !in r'.rows && !HoldsHash(r', prior)
  {
  }

  /** A deploy that fails is not atomic: once it has fetched the artifact, its package no longer
      runs at all, not even in the revision that ran before. */
  lemma FailedDeployTakesPackageDown(r: Runner, h: Hash, env: DeployEnv, pkgOf: Hash -> string)
    requires Sound(r, pkgOf) && EnvFits(env, h, pkgOf) && Deploy(r, h, env).1 == Error
    ensures pkgOf(h) in Deploy(r, h, env).0.agents <==> env.package == None && pkgOf(h) in r.agents
  {
    if env.package.Some? {
      HashRunsUnderItsName(r, h, pkgOf);
      match Superseded(r, pkgOf(h)) {
        case None => if env.boots.Some? { BootOfFreshPackage(r, h, env, pkgOf); }
        case Some(prior) =>
          assert r.agents[pkgOf(h)].hash == Some(prior);
          TakeOutOf(r, prior, pkgOf(h));
          UndeployKeepsSound(r, prior, env.supersede, pkgOf);
          if env.boots.Some? { BootOfFreshPackage(Undeploy(r, prior, env.supersede), h, env, pkgOf); }
      }
    }
  }

  /** For instance "p" runs from "a" and its upgrade to "b" does not boot: then "p" is gone. */
  lemma FailedUpgradeLeavesNothing()
    ensures var r := Runner(map["p" := Booted(0, "p", Some("a"))], map[DefaultKey("p") := 0], {}, map["a" := ActiveRow("a", "p", "100")], 1);
            var done := Deploy(r, "b", DeployEnv(Some("p"), Applied, None, Applied, "200"));
            Runs(r, "p", "a") && done.1 == Error && done.0.agents == map[] && done.0.rows == map[]
  {
    var r := Runner(map["p" := Booted(0, "p", Some("a"))], map[DefaultKey("p") := 0], {}, map["a" := ActiveRow("a", "p", "100")], 1);
    assert Runs(r, "p", "a") && !HoldsHash(r, "b");
    TakeOutOf(r, "a", "p");
  }

  lemma RestoreOneRunsOnlyIt(r: Runner, rec: Record, env: RestartEnv, pkgOf: Hash -> string, n: string, h: Hash)
    requires rec.agentName == pkgOf(rec.hash) && rec.agentName !in r.agents
    requires EnvFits(env.deploy(rec.hash), rec.hash, pkgOf) && Runs(RestoreOne(r, rec, env), n, h)
    ensures Runs(r, n, h) || (n == rec.agentName && h == rec.hash)
  {
  }

  ghost predicate AllFit(restore: seq<Record>, env: RestartEnv, pkgOf: Hash -> string) {
    forall rec :: rec in restore ==> EnvFits(env.deploy(rec.hash), rec.hash, pkgOf)
  }

  lemma LastRestoredRuns(r: Runner, restore: seq<Record>, env: RestartEnv, pkgOf: Hash -> string, n: string, h: Hash)
    requires restore != [] && r.agents == map[] && WellListed(restore, pkgOf) && Runs(RestoreAll(r, restore, env), n, h)
    requires AllFit(restore, env, pkgOf)
    ensures var rec := restore[|restore| - 1];
            Runs(RestoreAll(r, restore[..|restore| - 1], env), n, h) || (rec.agentName == n && rec.hash == h)
  {
    var last := |restore| - 1;
    var rec, front := restore[last], restore[..last];
    RestoreStartsOnlyListed(r, front, env, pkgOf);
    assert rec in restore && !Keeper(front, rec.agentName);
    RestoreOneRunsOnlyIt(RestoreAll(r, front, env), rec, env, pkgOf, n, h);
  }

  lemma FrontIsListed(restore: seq<Record>, env: RestartEnv, pkgOf: Hash -> string)
    requires restore != [] && WellListed(restore, pkgOf) && AllFit(restore, env, pkgOf)
    ensures WellListed(restore[..|restore| - 1], pkgOf) && AllFit(restore[..|restore| - 1], env, pkgOf)
  {
  }

  lemma ListedInFront(restore: seq<Record>, n: string, h: Hash)
    requires restore != []
    ensures var rec := restore[|restore| - 1];
            Listed(restore, n, h) <==> Listed(restore[..|restore| - 1], n, h) || (rec.agentName == n && rec.hash == h)
  {
    ListedSnoc(restore[..|restore| - 1], restore[|restore| - 1], n, h);
    assert restore == restore[..|restore| - 1] + [restore[|restore| - 1]];
  }

  /** Whatever fails, the restore loop runs nothing that is not on its list. */
  lemma {:induction false} RestoreRunsOnlyListed(r: Runner, restore: seq<Record>, env: RestartEnv, pkgOf: Hash -> string, n: string, h: Hash)
    requires r.agents == map[] && WellListed(restore, pkgOf) && Runs(RestoreAll(r, restore, env), n, h)
    requires AllFit(restore, env, pkgOf)
    ensures Listed(restore, n, h)
  {
    if restore != [] {
      ListedInFront(restore, n, h);
      FrontIsListed(restore, env, pkgOf);
      LastRestoredRuns(r, restore, env, pkgOf, n, h);
      if Runs(RestoreAll(r, restore[..|restore| - 1], env), n, h) {
        RestoreRunsOnlyListed(r, restore[..|restore| - 1], env, pkgOf, n, h);
      }
    }
  }

  /** An undeploy whose row was deleted is final: no restart brings the hash back, whatever else
      fails. */
  lemma UndeployedStaysDown(r: Runner, h: Hash, records: seq<Record>, restore: seq<Record>, remove: seq<Hash>,
                            env: RestartEnv, pkgOf: Hash -> string, n: string)
    requires Sound(r, pkgOf) && HoldsHash(r, h)
    requires IsListing(records, Undeploy(r, h, Applied).rows) && IsDedupe(records, restore, remove)
    requires forall g :: EnvFits(env.deploy(g), g, pkgOf)
    ensures !Runs(Restart(Undeploy(r, h, Applied), restore, remove, env), n, h)
  {
    var r1 := Undeploy(r, h, Applied);
    UndeployKeepsSound(r, h, Applied, pkgOf);
    DeleteAllShrinks(Rebooted(r1), remove, env);
    DedupeWellListed(r1, records, restore, remove, pkgOf);
    if Runs(Restart(r1, restore, remove, env), n, h) {
      RestoreRunsOnlyListed(DeleteAll(Rebooted(r1), remove, env), restore, env, pkgOf, n, h);
      HashGone(r, h, records, restore, remove, n);
    }
  }

  lemma HashGone(r: Runner, h: Hash, records: seq<Record>, restore: seq<Record>, remove: seq<Hash>, n: string)
    requires HoldsHash(r, h) && IsListing(records, Undeploy(r, h, Applied).rows) && IsDedupe(records, restore, remove)
    ensures !Listed(restore, n, h)
  {
    assert h !in Undeploy(r, h, Applied).rows;
    forall i | 0 <= i < |restore| ensures restore[i].hash != h {
      assert restore[i] in records;
    }
  }

  /** Deploying "b", undeploying it with the row's deletion failing, and deploying "a", all for
      package "p" and all within one second. */
  ghost function SameSecond(): Runner {
    var env := DeployEnv(Some("p"), Applied, Some("p"), Applied, "100");
    Deploy(Undeploy(Deploy(Runner(map[], map[], {}, map[], 0), "b", env).0, "b", FailedBefore), "a", env).0
  }

  lemma FirstDeploy(env: DeployEnv)
    requires env == DeployEnv(Some("p"), Applied, Some("p"), Applied, "100")
    ensures var r := Deploy(Runner(map[], map[], {}, map[], 0), "b", env).0;
            && r.agents == map["p" := Booted(0, "p", Some("b"))] && r.routed == map[DefaultKey("p") := 0]
            && r.rows == map["b" := ActiveRow("b", "p", "100")]
  {
    BootOfFreshPackage(Runner(map[], map[], {}, map[], 0), "b", env, OnlyP);
  }

  lemma UndeployWithoutDeletion(r: Runner, row: Record)
    requires r.agents == map["p" := Booted(0, "p", Some("b"))] && r.routed == map[DefaultKey("p") := 0]
    requires r.rows == map["b" := row]
    ensures var r' := Undeploy(r, "b", FailedBefore); r'.agents == map[] && r'.routed == map[] && r'.rows == r.rows
  {
    assert HoldsHash(r, "b") by { assert r.agents["p"].hash == Some("b"); }
  }

  lemma SameSecondState()
    ensures Runs(SameSecond(), "p", "a")
    ensures SameSecond().rows == map["a" := ActiveRow("a", "p", "100"), "b" := ActiveRow("b", "p", "100")]
  {
    var env := DeployEnv(Some("p"), Applied, Some("p"), Applied, "100");
    FirstDeploy(env);
    var r1 := Deploy(Runner(map[], map[], {}, map[], 0), "b", env).0;
    UndeployWithoutDeletion(r1, ActiveRow("b", "p", "100"));
    BootOfFreshPackage(Undeploy(r1, "b", FailedBefore), "a", env, OnlyP);
  }

  function OnlyP(h: Hash): string { "p" }

  lemma StaleRowWins(r: Runner, records: seq<Record>, restore: seq<Record>, remove: seq<Hash>, env: RestartEnv)
    requires r.rows == map["a" := ActiveRow("a", "p", "100"), "b" := ActiveRow("b", "p", "100")]
    requires IsListing(records, r.rows) && IsDedupe(records, restore, remove)
    requires forall g :: Succeeds(env.deploy(g), g, OnlyP)
    ensures !Runs(Restart(r, restore, remove, env), "p", "a")
  {
    GreaterHashWins();
    RestartRunsTheBest(r, records, restore, remove, env, OnlyP, "a");
    assert OnlyP("b") == OnlyP("a") == "p" && "b" in r.rows;
  }

  lemma GreaterHashWins()
    ensures Better(ActiveRow("b", "p", "100"), ActiveRow("a", "p", "100"))
  {
  }

  /** The clock condition is needed: a redeploy within the second of a stale row can lose to it,
      and then a failure-free restart runs the stale revision instead. */
  lemma SameSecondRedeployIsLost(restore: seq<Record>, remove: seq<Hash>, env: RestartEnv)
    requires Deduplicated(SameSecond(), restore, remove)
    requires forall g :: Succeeds(env.deploy(g), g, OnlyP)
    ensures Runs(SameSecond(), "p", "a") && !Runs(Restart(SameSecond(), restore, remove, env), "p", "a")
  {
    SameSecondState();
    var r := SameSecond();
    var records :| IsListing(records, r.rows) && IsDedupe(records, restore, remove);
    StaleRowWins(r, records, restore, remove, env);
  }
}
