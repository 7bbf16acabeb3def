/** The persisted rows beside the running agents, under concurrent deploys and undeploys: exactly
    when an agent runs without an active row, and exactly when an active row has no agent
    (crates/baml-agent-runner/src/runner.rs:929-1085). */
module RunnerRows {
  import opened Options
  import opened Routes
  import opened RestoreDedupe
  import opened RunnerState
  import opened RunnerProtocol

  predicate HasActive(r: Runner, h: Hash) {
    h in r.rows && r.rows[h].status == Active
  }

  /** Step `m` is a deploy's save after which the row is there. */
  ghost predicate SavedAt(run: seq<System>, who: seq<nat>, m: nat, h: Hash) {
    && m < |who| && m + 1 < |run| && who[m] in run[m].threads
    && run[m].threads[who[m]].DeploySave? && run[m].threads[who[m]].h == h && HasActive(run[m + 1].runner, h)
  }

  /** Step `m` is an undeploy's deletion after which it is not. */
  ghost predicate DeletedAt(run: seq<System>, who: seq<nat>, m: nat, h: Hash) {
    && m < |who| && m + 1 < |run| && who[m] in run[m].threads
    && run[m].threads[who[m]].UndeployDelete? && run[m].threads[who[m]].h == h && h !in run[m + 1].runner.rows
  }

  /** Nothing else changes a row. */
  ghost predicate RowFollows(run: seq<System>, who: seq<nat>, m: nat, h: Hash)
    requires m + 1 < |run|
  {
    || SavedAt(run, who, m, h) || DeletedAt(run, who, m, h)
    || (HasActive(run[m + 1].runner, h) <==> HasActive(run[m].runner, h))
  }

  ghost predicate RowHistory(run: seq<System>, who: seq<nat>, h: Hash) {
    |run| == |who| + 1 && forall m: nat :: m < |who| ==> RowFollows(run, who, m, h)
  }

  lemma RowStep(s: System, t: nat, s': System, h: Hash)
    requires Next(s, t, s') && (HasActive(s'.runner, h) <==> !HasActive(s.runner, h))
    ensures t in s.threads && (s.threads[t].DeploySave? || s.threads[t].UndeployDelete?) && s.threads[t].h == h
    ensures s.threads[t].DeploySave? ==> HasActive(s'.runner, h)
    ensures s.threads[t].UndeployDelete? ==> h !in s'.runner.rows
  {
  }

  lemma RowsFollow(run: seq<System>, who: seq<nat>, h: Hash)
    requires IsRun(run, who)
    ensures RowHistory(run, who, h)
  {
    forall m: nat | m < |who| ensures RowFollows(run, who, m, h) {
      assert Next(run[m], who[m], run[m + 1]);
      if HasActive(run[m + 1].runner, h) <==> !HasActive(run[m].runner, h) { RowStep(run[m], who[m], run[m + 1], h); }
    }
  }

  ghost predicate NoDeletion(run: seq<System>, who: seq<nat>, a: nat, k: nat, h: Hash) {
    forall m: nat :: a <= m < k ==> !DeletedAt(run, who, m, h)
  }

  ghost predicate NoSave(run: seq<System>, who: seq<nat>, a: nat, k: nat, h: Hash) {
    forall m: nat :: a <= m < k ==> !SavedAt(run, who, m, h)
  }

  lemma {:induction false} RowStays(run: seq<System>, who: seq<nat>, a: nat, k: nat, h: Hash)
    requires RowHistory(run, who, h) && a <= k < |run| && HasActive(run[a].runner, h) && NoDeletion(run, who, a, k, h)
    ensures HasActive(run[k].runner, h)
    decreases k
  {
    if a < k {
      RowStays(run, who, a, k - 1, h);
      assert !DeletedAt(run, who, k - 1, h) && RowFollows(run, who, k - 1, h);
    }
  }

  lemma {:induction false} RowStaysAway(run: seq<System>, who: seq<nat>, a: nat, k: nat, h: Hash)
    requires RowHistory(run, who, h) && a <= k < |run| && !HasActive(run[a].runner, h) && NoSave(run, who, a, k, h)
    ensures !HasActive(run[k].runner, h)
    decreases k
  {
    if a < k {
      RowStaysAway(run, who, a, k - 1, h);
      assert !SavedAt(run, who, k - 1, h) && RowFollows(run, who, k - 1, h);
    }
  }

  /** A row that is gone was deleted. */
  lemma {:induction false} LastDeletion(run: seq<System>, who: seq<nat>, a: nat, k: nat, h: Hash) returns (d: nat)
    requires RowHistory(run, who, h) && a <= k < |run| && HasActive(run[a].runner, h) && !HasActive(run[k].runner, h)
    ensures a <= d < k && DeletedAt(run, who, d, h) && NoSave(run, who, d + 1, k, h)
    decreases k
  {
    if DeletedAt(run, who, k - 1, h) {
      d := k - 1;
    } else {
      assert RowFollows(run, who, k - 1, h) && !SavedAt(run, who, k - 1, h);
      d := LastDeletion(run, who, a, k - 1, h);
    }
  }

  /** The row was there from the start, or was saved, and has not been deleted since. */
  ghost predicate RowStands(run: seq<System>, who: seq<nat>, k: nat, h: Hash)
    requires k < |run|
  {
    || (HasActive(run[0].runner, h) && NoDeletion(run, who, 0, k, h))
    || exists s: nat :: s < k && SavedAt(run, who, s, h) && NoDeletion(run, who, s + 1, k, h)
  }

  lemma {:induction false} StandingRow(run: seq<System>, who: seq<nat>, k: nat, h: Hash)
    requires RowHistory(run, who, h) && k < |run| && HasActive(run[k].runner, h)
    ensures RowStands(run, who, k, h)
  {
    if k > 0 {
      if SavedAt(run, who, k - 1, h) {
        assert NoDeletion(run, who, k, k, h);
      } else {
        assert RowFollows(run, who, k - 1, h) && !DeletedAt(run, who, k - 1, h);
        StandingRow(run, who, k - 1, h);
        if s: nat :| s < k - 1 && SavedAt(run, who, s, h) && NoDeletion(run, who, s + 1, k - 1, h) {
          assert NoDeletion(run, who, s + 1, k, h);
        }
      }
    }
  }

  lemma ActiveRowIff(run: seq<System>, who: seq<nat>, k: nat, h: Hash)
    requires IsRun(run, who) && k < |run|
    ensures HasActive(run[k].runner, h) <==> RowStands(run, who, k, h)
  {
    RowsFollow(run, who, h);
    if HasActive(run[k].runner, h) { StandingRow(run, who, k, h); }
    if HasActive(run[0].runner, h) && NoDeletion(run, who, 0, k, h) { RowStays(run, who, 0, k, h); }
    if s: nat :| s < k && SavedAt(run, who, s, h) && NoDeletion(run, who, s + 1, k, h) { RowStays(run, who, s + 1, k, h); }
  }

  // What runs.

  ghost predicate NoRemoval(run: seq<System>, who: seq<nat>, a: nat, k: nat, name: string) {
    forall m :: a <= m < k ==> !RemovalAt(run, who, m, name)
  }

  /** Instance `b` was installed at step `i` under `name`. */
  ghost predicate InstalledAt(run: seq<System>, who: seq<nat>, i: nat, name: string, b: Booted) {
    InstallAt(run, who, i, name) && run[i].threads[who[i]].booted == b
  }

  /** An instance goes on running until its name is removed. */
  lemma {:induction false} RunsOn(run: seq<System>, who: seq<nat>, a: nat, k: nat, name: string)
    requires IsRun(run, who) && a <= k < |run| && Lookup(run[a].runner, name).Some? && NoRemoval(run, who, a, k, name)
    ensures Lookup(run[k].runner, name) == Lookup(run[a].runner, name)
    decreases k
  {
    if a < k {
      RunsOn(run, who, a, k - 1, name);
      assert !RemovalAt(run, who, k - 1, name);
      LookupStep(run, who, k - 1, name);
    }
  }

  /** An agent of hash `h` was installed, or has always been there, and not removed since. */
  ghost predicate AgentStands(run: seq<System>, who: seq<nat>, k: nat, h: Hash)
    requires |run| > 0
  {
    exists name :: ThereSince(run, who, k, name, h) || InstalledSince(run, who, k, name, h)
  }

  ghost predicate ThereSince(run: seq<System>, who: seq<nat>, k: nat, name: string, h: Hash)
    requires |run| > 0
  {
    Lookup(run[0].runner, name).Some? && Lookup(run[0].runner, name).value.hash == Some(h) && NoRemoval(run, who, 0, k, name)
  }

  ghost predicate InstalledSince(run: seq<System>, who: seq<nat>, k: nat, name: string, h: Hash) {
    exists i: nat, b :: i < k && InstalledAt(run, who, i, name, b) && b.hash == Some(h) && NoRemoval(run, who, i + 1, k, name)
  }

  lemma StandingAgent(run: seq<System>, who: seq<nat>, k: nat, name: string, h: Hash)
    requires IsRun(run, who) && k < |run|
    requires Lookup(run[k].runner, name).Some? && Lookup(run[k].runner, name).value.hash == Some(h)
    ensures AgentStands(run, who, k, h)
  {
    if Quiet(run, who, 0, k, name) {
      LookupStays(run, who, 0, k, name);
      forall m | 0 <= m < k ensures !RemovalAt(run, who, m, name) { assert !Changes(run, who, m, name); }
      assert ThereSince(run, who, k, name, h);
    } else {
      var i := LastChange(run, who, 0, k, name);
      LookupStep(run, who, i, name);
      LookupStays(run, who, i + 1, k, name);
      var b := run[i].threads[who[i]].booted;
      forall m | i < m < k ensures !RemovalAt(run, who, m, name) { assert !Changes(run, who, m, name); }
      assert InstalledAt(run, who, i, name, b) && NoRemoval(run, who, i + 1, k, name);
      assert InstalledSince(run, who, k, name, h);
    }
  }

  lemma InstalledStillRuns(run: seq<System>, who: seq<nat>, k: nat, name: string, h: Hash)
    requires IsRun(run, who) && k < |run| && InstalledSince(run, who, k, name, h)
    ensures Lookup(run[k].runner, name).Some? && Lookup(run[k].runner, name).value.hash == Some(h)
  {
    var i: nat, b :| i < k && InstalledAt(run, who, i, name, b) && b.hash == Some(h) && NoRemoval(run, who, i + 1, k, name);
    LookupStep(run, who, i, name);
    RunsOn(run, who, i + 1, k, name);
  }

  lemma StandingIsHeld(run: seq<System>, who: seq<nat>, k: nat, h: Hash)
    requires IsRun(run, who) && k < |run| && AgentStands(run, who, k, h)
    ensures HoldsHash(run[k].runner, h)
  {
    var name :| ThereSince(run, who, k, name, h) || InstalledSince(run, who, k, name, h);
    if InstalledSince(run, who, k, name, h) { InstalledStillRuns(run, who, k, name, h); } else { RunsOn(run, who, 0, k, name); }
    assert run[k].runner.agents[name].hash == Some(h);
  }

  lemma HeldIff(run: seq<System>, who: seq<nat>, k: nat, h: Hash)
    requires IsRun(run, who) && k < |run|
    ensures HoldsHash(run[k].runner, h) <==> AgentStands(run, who, k, h)
  {
    if HoldsHash(run[k].runner, h) {
      var name :| name in run[k].runner.agents && run[k].runner.agents[name].hash == Some(h);
      StandingAgent(run, who, k, name, h);
    }
    if AgentStands(run, who, k, h) { StandingIsHeld(run, who, k, h); }
  }

  /** In every state of every run there is an active row without an agent exactly when the row was
      saved, or there from the start, and not deleted since, while every instance of the hash that
      was installed, or there from the start, has since been removed. */
  lemma OrphanRowIff(run: seq<System>, who: seq<nat>, k: nat, h: Hash)
    requires IsRun(run, who) && k < |run|
    ensures HasActive(run[k].runner, h) && !HoldsHash(run[k].runner, h)
       <==> RowStands(run, who, k, h) && !AgentStands(run, who, k, h)
  {
    ActiveRowIff(run, who, k, h);
    HeldIff(run, who, k, h);
  }

  // An agent whose deploy is over has been saved.

  ghost predicate AllDone(s: System) {
    forall t :: t in s.threads ==> s.threads[t] == Finished
  }

  lemma {:induction false} Leaves(run: seq<System>, who: seq<nat>, j: nat, k: nat, t: nat, pc: Pc) returns (s: nat)
    requires IsRun(run, who) && j <= k < |run| && t in run[j].threads && run[j].threads[t] == pc
    requires t in run[k].threads ==> run[k].threads[t] != pc
    ensures j <= s < k && who[s] == t && t in run[s].threads && run[s].threads[t] == pc
    ensures t in run[s + 1].threads && run[s + 1].threads[t] != pc
    decreases k - j
  {
    assert j < k && Next(run[j], who[j], run[j + 1]);
    if run[j + 1].threads[t] != pc {
      s := j;
    } else {
      s := Leaves(run, who, j + 1, k, t, pc);
    }
  }

  lemma SaveStep(run: seq<System>, who: seq<nat>, s: nat, h: Hash, b: Booted)
    requires IsRun(run, who) && s < |who| && who[s] in run[s].threads && run[s].threads[who[s]] == DeploySave(h, b)
    ensures who[s] in run[s + 1].threads
    ensures run[s + 1].threads[who[s]] == DeployRollback(b) || (run[s + 1].threads[who[s]] == Finished && SavedAt(run, who, s, h))
  {
    assert Next(run[s], who[s], run[s + 1]);
  }

  /** The save after an installation, if the operation is over later and nothing was removed. */
  lemma SaveOfInstalled(run: seq<System>, who: seq<nat>, k: nat, name: string, j: nat, t: nat, h: Hash, b: Booted) returns (s: nat)
    requires IsRun(run, who) && j <= k < |run| && t in run[j].threads && run[j].threads[t] == DeploySave(h, b) && b.name == name
    requires AllDone(run[k]) && Quiet(run, who, j, k, name)
    ensures j <= s < k && SavedAt(run, who, s, h) && who[s] == t
  {
    s := Leaves(run, who, j, k, t, DeploySave(h, b));
    SaveStep(run, who, s, h, b);
    if run[s + 1].threads[t] == DeployRollback(b) {
      var r := Leaves(run, who, s + 1, k, t, DeployRollback(b));
      assert Changes(run, who, r, name);
      assert false;
    }
  }

  lemma InstallStep(run: seq<System>, who: seq<nat>, i: nat, name: string) returns (h: Hash, b: Booted)
    requires IsRun(run, who) && InstallAt(run, who, i, name)
    ensures InstalledAt(run, who, i, name, b) && b.name == name && b.hash == Some(h) && Lookup(run[i + 1].runner, name) == Some(b)
    ensures run[i + 1].threads[who[i]] == DeploySave(h, b)
  {
    h, b := run[i].threads[who[i]].h, run[i].threads[who[i]].booted;
    MapsAlwaysAgree(run, who, i);
    assert PcOk(run[i].runner, run[i].threads[who[i]]);
    assert Next(run[i], who[i], run[i + 1]);
  }

  /** Whoever runs and was installed in this run has had a save that worked, once all operations are
      over. */
  lemma RunningWasSaved(run: seq<System>, who: seq<nat>, k: nat, name: string) returns (i: nat, s: nat, h: Hash)
    requires IsRun(run, who) && k < |run| && AllDone(run[k])
    requires Lookup(run[k].runner, name).Some? && Lookup(run[k].runner, name) != Lookup(run[0].runner, name)
    ensures i < s < k && Lookup(run[k].runner, name).value.hash == Some(h)
    ensures InstalledAt(run, who, i, name, Lookup(run[k].runner, name).value) && Quiet(run, who, i + 1, k, name)
    ensures SavedAt(run, who, s, h) && who[s] == who[i]
  {
    i := LastWasInstall(run, who, 0, k, name);
    var b;
    h, b := InstallStep(run, who, i, name);
    LookupStays(run, who, i + 1, k, name);
    s := SaveOfInstalled(run, who, k, name, i + 1, who[i], h, b);
  }

  /** The row was deleted after step `s` and not saved again. */
  ghost predicate DeletedSince(run: seq<System>, who: seq<nat>, s: nat, k: nat, h: Hash) {
    exists d: nat :: s < d < k && DeletedAt(run, who, d, h) && NoSave(run, who, d + 1, k, h)
  }

  lemma GoneIff(run: seq<System>, who: seq<nat>, s: nat, k: nat, h: Hash)
    requires RowHistory(run, who, h) && s < k < |run| && SavedAt(run, who, s, h)
    ensures !HasActive(run[k].runner, h) <==> DeletedSince(run, who, s, k, h)
  {
    if !HasActive(run[k].runner, h) {
      var d := LastDeletion(run, who, s + 1, k, h);
    }
    if d: nat :| s < d < k && DeletedAt(run, who, d, h) && NoSave(run, who, d + 1, k, h) {
      RowStaysAway(run, who, d + 1, k, h);
    }
  }

  /** Once all operations are over, an agent installed in this run has no active row exactly when an
      undeploy of the same hash deleted it after the agent's own save and nobody saved it again. */
  lemma LostRowIff(run: seq<System>, who: seq<nat>, k: nat, name: string) returns (i: nat, s: nat, h: Hash)
    requires IsRun(run, who) && k < |run| && AllDone(run[k])
    requires Lookup(run[k].runner, name).Some? && Lookup(run[k].runner, name) != Lookup(run[0].runner, name)
    ensures i < s < k && Lookup(run[k].runner, name).value.hash == Some(h)
    ensures InstalledAt(run, who, i, name, Lookup(run[k].runner, name).value) && SavedAt(run, who, s, h) && who[s] == who[i]
    ensures !HasActive(run[k].runner, h) <==> DeletedSince(run, who, s, k, h)
  {
    i, s, h := RunningWasSaved(run, who, k, name);
    RowsFollow(run, who, h);
    GoneIff(run, who, s, k, h);
  }

  /** The removal step that led an undeploy to its deletion. */
  lemma {:induction false} DeleterRemoved(run: seq<System>, who: seq<nat>, d: nat, t: nat, h: Hash) returns (r: nat)
    requires IsRun(run, who) && d < |run| && t in run[d].threads && run[d].threads[t].UndeployDelete? && run[d].threads[t].h == h
    ensures r < d && r < |who| && who[r] == t && t in run[r].threads && run[r].threads[t].UndeployRemove? && run[r].threads[t].h == h
  {
    assert d > 0 && Next(run[d - 1], who[d - 1], run[d]);
    if t in run[d - 1].threads && run[d - 1].threads[t].UndeployRemove? && who[d - 1] == t {
      r := d - 1;
    } else {
      r := DeleterRemoved(run, who, d - 1, t, h);
    }
  }

  /** So the row was taken by an undeploy that had removed an earlier instance: if it removed the
      same package, it did so before the agent was installed. */
  lemma LostToEarlierUndeploy(run: seq<System>, who: seq<nat>, k: nat, name: string, i: nat, h: Hash, d: nat) returns (r: nat)
    requires IsRun(run, who) && k < |run| && i < d < k && InstallAt(run, who, i, name) && Quiet(run, who, i + 1, k, name)
    requires DeletedAt(run, who, d, h)
    ensures r < d && who[r] == who[d] && who[d] in run[r].threads && run[r].threads[who[d]].UndeployRemove? && run[r].threads[who[d]].h == h
    ensures run[r].threads[who[d]].target == name ==> r < i
  {
    r := DeleterRemoved(run, who, d, who[d], h);
    if run[r].threads[who[d]].target == name && r > i {
      assert Changes(run, who, r, name);
      assert false;
    }
  }

  // Both happen.

  lemma Deletes(s: System, t: nat, h: Hash) returns (s': System)
    requires Reachable(s) && NoReader(s) && t in s.threads && s.threads[t] == UndeployDelete(h, None)
    ensures Reachable(s') && NoReader(s') && s' == Moved(s, t, DeleteRow(s.runner, h, Applied), Finished)
  {
    Go(s, t, DeleteRow(s.runner, h, Applied), Finished);
    s' := Moved(s, t, DeleteRow(s.runner, h, Applied), Finished);
  }

  lemma Overwrite(threads: map<nat, Pc>, t: nat, pc: Pc, pc': Pc)
    ensures threads[t := pc][t := pc'] == threads[t := pc']
  {
  }

  function RunningA(): System {
    System(Runner(map["p" := Booted(0, "p", Some("a"))], map[DefaultKey("p") := 0], {}, map[], 1), map[])
  }

  lemma RunningAStarts()
    ensures Reachable(RunningA()) && NoReader(RunningA()) && Lookup(RunningA().runner, "p") == Some(Booted(0, "p", Some("a")))
  {
    ReachStart(RunningA());
  }

  lemma RunningADrained() returns (s: System)
    ensures Reachable(s) && NoReader(s)
    ensures s.runner == MarkDraining(RunningA().runner, Booted(0, "p", Some("a")))
    ensures s.threads == map[1 := UndeployDrain("a", "p", Booted(0, "p", Some("a")), None)]
  {
    var b, start := Booted(0, "p", Some("a")), RunningA();
    RunningAStarts();
    s := UndeployReachesDrain(start, 1, b, "a");
    OnlyThread(start.threads, 1, UndeployDrain("a", "p", b, None));
  }

  lemma OnlyThread(threads: map<nat, Pc>, t: nat, pc: Pc)
    requires threads == map[]
    ensures threads[t := pc] == map[t := pc]
  {
  }

  lemma NothingRuns(r: Runner)
    requires r == Unroute(MarkDraining(RunningA().runner, Booted(0, "p", Some("a"))), "p", "p")
    ensures r == Runner(map[], map[], {0}, map[], 1)
  {
  }

  /** Hash "a" runs and is undeployed up to the deletion of its row. */
  lemma UndeployedButForTheRow() returns (s: System)
    ensures Reachable(s) && NoReader(s)
    ensures s.runner == Runner(map[], map[], {0}, map[], 1) && s.threads == map[1 := UndeployDelete("a", None)]
  {
    s := RunningADrained();
    s := UndeployRemoves(s, 1, Booted(0, "p", Some("a")), "a");
    NothingRuns(s.runner);
  }

  lemma DeployReachesInstall(s: System, t: nat, h: Hash, b: Booted) returns (s': System)
    requires Reachable(s) && NoReader(s) && t !in s.threads && b.id == s.runner.nextId && b.hash == Some(h)
    requires b.name !in s.runner.agents && !HoldsHash(s.runner, h)
    ensures Reachable(s') && NoReader(s') && s' == Moved(s, t, s.runner.(nextId := b.id + 1), DeployInstall(h, b))
  {
    var s1 := DeployReachesBoot(s, t, h, b.name);
    s' := DeployBoots(s1, t, h, b);
    assert s'.threads == s.threads[t := DeployInstall(h, b)];
  }

  lemma InstallAndSave(s: System, t: nat, h: Hash, b: Booted) returns (s': System)
    requires Reachable(s) && NoReader(s) && t in s.threads && s.threads[t] == DeployInstall(h, b)
    requires b.name !in s.runner.agents && !HoldsHash(s.runner, h)
    ensures Reachable(s') && NoReader(s') && s'.threads == s.threads[t := Finished]
    ensures s'.runner.agents == s.runner.agents[b.name := b] && s'.runner.draining == s.runner.draining && h in s'.runner.rows
  {
    var s1 := DeployInstalls(s, t, h, b);
    Overwrite(s.threads, t, DeploySave(h, b), Finished);
    s' := DeploySaves(s1, t, h, b);
  }

  lemma DeployRuns(s: System, t: nat, h: Hash, b: Booted) returns (s': System)
    requires Reachable(s) && NoReader(s) && t !in s.threads && b.id == s.runner.nextId && b.hash == Some(h)
    requires b.name !in s.runner.agents && !HoldsHash(s.runner, h)
    ensures Reachable(s') && NoReader(s') && s'.threads == s.threads[t := Finished]
    ensures s'.runner.agents == s.runner.agents[b.name := b] && s'.runner.draining == s.runner.draining && h in s'.runner.rows
  {
    var s1 := DeployReachesInstall(s, t, h, b);
    s' := InstallAndSave(s1, t, h, b);
  }

  /** "a" is deployed anew and saved before that undeploy goes on and deletes the row: "p" runs and no
      restart will bring it back. */
  lemma RedeployLosesItsRow() returns (s: System)
    ensures Reachable(s) && AllDone(s)
    ensures s.runner.agents == map["p" := Booted(1, "p", Some("a"))] && "a" !in s.runner.rows
  {
    s := UndeployedButForTheRow();
    s := DeployRuns(s, 2, "a", Booted(1, "p", Some("a")));
    s := Deletes(s, 1, "a");
  }

  lemma SuccessorRuns() returns (s: System)
    ensures Reachable(s) && NoReader(s) && s.runner.agents == map["p" := Booted(1, "p", Some("b"))] && "b" in s.runner.rows
    ensures s.threads == map[1 := Finished, 2 := UndeployDrain("a", "p", Booted(0, "p", Some("a")), None), 3 := Finished]
  {
    s := OneUndeployDone();
    s := Deletes(s, 1, "a");
    s := DeployRuns(s, 3, "b", Booted(1, "p", Some("b")));
  }

  /** Two undeploys of "a" overlap and the second removes "b", deployed in between: the row of "b"
      stays behind. */
  lemma SuccessorLeavesItsRow() returns (s: System)
    ensures Reachable(s) && AllDone(s)
    ensures s.runner.agents == map[] && "b" in s.runner.rows
  {
    s := SuccessorRuns();
    s := UndeployRemoves(s, 2, Booted(0, "p", Some("a")), "a");
    s := Deletes(s, 2, "a");
  }
}
