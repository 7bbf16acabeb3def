/** The interleaved runner refines the sequential one: an operation that nobody interrupts does to the
    runner exactly what `deploy_by_hash` and `undeploy_by_hash` do as a whole
    (crates/baml-agent-runner/src/runner.rs:856-1085). */
module RunnerRefinement {
  import opened Options
  import opened Routes
  import opened RestoreDedupe
  import opened RunnerState
  import opened AgentRunner
  import opened RunnerProtocol

  /** The steps of one operation with nothing in between, from `pcs[0]` to its end. */
  ghost predicate IsSolo(rs: seq<Runner>, pcs: seq<Pc>) {
    && |rs| == |pcs| > 0 && pcs[|pcs| - 1] == Finished
    && forall i :: 0 <= i < |pcs| - 1 ==> ThreadStep(rs[i], false, pcs[i], rs[i + 1], pcs[i + 1])
  }

  /** An uninterrupted run from `pc` can take `r` to `r'`. */
  ghost predicate Takes(r: Runner, pc: Pc, r': Runner) {
    exists rs, pcs :: IsSolo(rs, pcs) && rs[0] == r && pcs[0] == pc && rs[|rs| - 1] == r'
  }

  lemma TakesNothing(r: Runner, r': Runner)
    ensures Takes(r, Finished, r') <==> r' == r
  {
    if r' == r { assert IsSolo([r], [Finished]); }
    if Takes(r, Finished, r') {
      var rs, pcs :| IsSolo(rs, pcs) && rs[0] == r && pcs[0] == Finished && rs[|rs| - 1] == r';
      if |pcs| > 1 { assert ThreadStep(rs[0], false, pcs[0], rs[1], pcs[1]); }
    }
  }

  lemma TakesStep(r: Runner, pc: Pc, r1: Runner, pc1: Pc, r': Runner)
    requires ThreadStep(r, false, pc, r1, pc1) && Takes(r1, pc1, r')
    ensures Takes(r, pc, r')
  {
    var rs, pcs :| IsSolo(rs, pcs) && rs[0] == r1 && pcs[0] == pc1 && rs[|rs| - 1] == r';
    SoloFrom(r, pc, rs, pcs);
    assert ([r] + rs)[|rs|] == rs[|rs| - 1];
  }

  lemma SoloFrom(r: Runner, pc: Pc, rs: seq<Runner>, pcs: seq<Pc>)
    requires IsSolo(rs, pcs) && ThreadStep(r, false, pc, rs[0], pcs[0])
    ensures IsSolo([r] + rs, [pc] + pcs)
  {
    var rs', pcs' := [r] + rs, [pc] + pcs;
    forall i | 0 <= i < |pcs'| - 1 ensures ThreadStep(rs'[i], false, pcs'[i], rs'[i + 1], pcs'[i + 1]) {
      if i > 0 {
        assert ThreadStep(rs[i - 1], false, pcs[i - 1], rs[i], pcs[i]);
        assert rs'[i] == rs[i - 1] && rs'[i + 1] == rs[i] && pcs'[i] == pcs[i - 1] && pcs'[i + 1] == pcs[i];
      }
    }
  }

  lemma SoloRest(rs: seq<Runner>, pcs: seq<Pc>)
    requires IsSolo(rs, pcs) && |pcs| > 1
    ensures ThreadStep(rs[0], false, pcs[0], rs[1], pcs[1]) && IsSolo(rs[1..], pcs[1..])
  {
    forall i | 0 <= i < |pcs| - 2 ensures ThreadStep(rs[1..][i], false, pcs[1..][i], rs[1..][i + 1], pcs[1..][i + 1]) {
      assert ThreadStep(rs[i + 1], false, pcs[i + 1], rs[i + 2], pcs[i + 2]);
    }
  }

  /** The first step of such a run, and the rest of it. */
  lemma FirstStep(r: Runner, pc: Pc, r': Runner) returns (r1: Runner, pc1: Pc)
    requires Takes(r, pc, r') && pc != Finished
    ensures ThreadStep(r, false, pc, r1, pc1) && Takes(r1, pc1, r')
  {
    var rs, pcs :| IsSolo(rs, pcs) && rs[0] == r && pcs[0] == pc && rs[|rs| - 1] == r';
    SoloRest(rs, pcs);
    r1, pc1 := rs[1], pcs[1];
    assert rs[1..][|rs| - 2] == r';
  }

  // Undeploying.

  lemma TakesDelete(r: Runner, h: Hash, resume: Option<Hash>, r': Runner)
    ensures Takes(r, UndeployDelete(h, resume), r') <==>
              exists w :: Takes(DeleteRow(r, h, w), if w == Applied then AfterUndeploy(resume) else Finished, r')
  {
    var pc := UndeployDelete(h, resume);
    if Takes(r, pc, r') {
      var r1, pc1 := FirstStep(r, pc, r');
      var w :| r1 == DeleteRow(r, h, w) && pc1 == (if w == Applied then AfterUndeploy(resume) else Finished);
    }
    if w :| Takes(DeleteRow(r, h, w), if w == Applied then AfterUndeploy(resume) else Finished, r') {
      TakesStep(r, pc, DeleteRow(r, h, w), if w == Applied then AfterUndeploy(resume) else Finished, r');
    }
  }

  lemma TakesRemove(r: Runner, h: Hash, target: string, b: Booted, resume: Option<Hash>, r': Runner)
    ensures Takes(r, UndeployRemove(h, target, b, resume), r') <==> Takes(Unroute(r, target, b.name), UndeployDelete(h, resume), r')
  {
    var pc := UndeployRemove(h, target, b, resume);
    if Takes(r, pc, r') { var r1, pc1 := FirstStep(r, pc, r'); }
    if Takes(Unroute(r, target, b.name), UndeployDelete(h, resume), r') {
      TakesStep(r, pc, Unroute(r, target, b.name), UndeployDelete(h, resume), r');
    }
  }

  /** Waiting for requests in flight, however long, changes nothing. */
  lemma {:induction false} DrainEnds(rs: seq<Runner>, pcs: seq<Pc>)
    requires IsSolo(rs, pcs) && pcs[0].UndeployDrain?
    ensures Takes(rs[0], UndeployRemove(pcs[0].h, pcs[0].target, pcs[0].booted, pcs[0].resume), rs[|rs| - 1])
    decreases |pcs|
  {
    SoloRest(rs, pcs);
    assert rs[1..][|rs| - 2] == rs[|rs| - 1];
    if pcs[1].UndeployDrain? { DrainEnds(rs[1..], pcs[1..]); }
  }

  lemma TakesDrain(r: Runner, h: Hash, target: string, b: Booted, resume: Option<Hash>, r': Runner)
    ensures Takes(r, UndeployDrain(h, target, b, resume), r') <==> Takes(r, UndeployRemove(h, target, b, resume), r')
  {
    var pc := UndeployDrain(h, target, b, resume);
    if Takes(r, pc, r') {
      var rs, pcs :| IsSolo(rs, pcs) && rs[0] == r && pcs[0] == pc && rs[|rs| - 1] == r';
      DrainEnds(rs, pcs);
    }
    if Takes(r, UndeployRemove(h, target, b, resume), r') { TakesStep(r, pc, r, UndeployRemove(h, target, b, resume), r'); }
  }

  /** From finding the agent on: it is taken out of the maps, and then its row is deleted. */
  lemma TakesFind(r: Runner, h: Hash, resume: Option<Hash>, r': Runner)
    requires Consistent(r) && HoldsHash(r, h)
    ensures Takes(r, UndeployFind(h, resume), r') <==> Takes(TakeOut(r, h), UndeployDelete(h, resume), r')
  {
    var pc, n := UndeployFind(h, resume), NameOfHash(r, h);
    var b := r.agents[n];
    TakeOutOf(r, h, n);
    var marked := MarkDraining(r, b);
    TakesDrain(marked, h, n, b, resume, r');
    TakesRemove(marked, h, n, b, resume, r');
    if Takes(r, pc, r') {
      var r1, pc1 := FirstStep(r, pc, r');
      assert pc1.target == n;
    }
    if Takes(TakeOut(r, h), UndeployDelete(h, resume), r') { TakesStep(r, pc, marked, UndeployDrain(h, n, b, resume), r'); }
  }

  lemma TakesMissing(r: Runner, h: Hash, resume: Option<Hash>, r': Runner)
    requires !HoldsHash(r, h)
    ensures Takes(r, UndeployFind(h, resume), r') <==> Takes(r, AfterUndeploy(resume), r')
  {
    if Takes(r, UndeployFind(h, resume), r') { var r1, pc1 := FirstStep(r, UndeployFind(h, resume), r'); }
    if Takes(r, AfterUndeploy(resume), r') { TakesStep(r, UndeployFind(h, resume), r, AfterUndeploy(resume), r'); }
  }

  lemma UndeployedSolo(r: Runner, h: Hash, r': Runner)
    requires Consistent(r) && HoldsHash(r, h) && Takes(r, UndeployFind(h, None), r')
    ensures exists w :: r' == Undeploy(r, h, w)
  {
    TakesFind(r, h, None, r');
    TakesDelete(TakeOut(r, h), h, None, r');
    var w :| Takes(DeleteRow(TakeOut(r, h), h, w), if w == Applied then AfterUndeploy(None) else Finished, r');
    TakesNothing(DeleteRow(TakeOut(r, h), h, w), r');
    assert r' == Undeploy(r, h, w);
  }

  lemma UndeployTakes(r: Runner, h: Hash, w: Write)
    requires Consistent(r) && HoldsHash(r, h)
    ensures Takes(r, UndeployFind(h, None), Undeploy(r, h, w))
  {
    var r' := Undeploy(r, h, w);
    TakesNothing(r', r');
    assert Takes(DeleteRow(TakeOut(r, h), h, w), if w == Applied then AfterUndeploy(None) else Finished, r');
    TakesDelete(TakeOut(r, h), h, None, r');
    TakesFind(r, h, None, r');
  }

  /** An undeploy that nobody interrupts is `undeploy_by_hash` as a whole, for some outcome of the
      deletion. */
  lemma SoloUndeploy(r: Runner, h: Hash, r': Runner)
    requires Consistent(r)
    ensures Takes(r, UndeployFind(h, None), r') <==> exists w :: r' == Undeploy(r, h, w)
  {
    if HoldsHash(r, h) {
      if Takes(r, UndeployFind(h, None), r') { UndeployedSolo(r, h, r'); }
      if w :| r' == Undeploy(r, h, w) { UndeployTakes(r, h, w); }
    } else {
      TakesMissing(r, h, None, r');
      TakesNothing(r, r');
      assert Undeploy(r, h, Applied) == r;
    }
  }

  // Deploying.

  /** The save after an installation. */
  function Saved(r: Runner, h: Hash, b: Booted, now: string, w: Write): Runner {
    var saved := SaveRow(r, ActiveRow(h, b.name, now), w);
    if w == Applied then saved else Unroute(saved, b.name, b.name)
  }

  lemma TakesRollback(r: Runner, b: Booted, r': Runner)
    ensures Takes(r, DeployRollback(b), r') <==> r' == Unroute(r, b.name, b.name)
  {
    var done := Unroute(r, b.name, b.name);
    TakesNothing(done, r');
    if Takes(r, DeployRollback(b), r') { var r1, pc1 := FirstStep(r, DeployRollback(b), r'); }
    if r' == done { TakesStep(r, DeployRollback(b), done, Finished, r'); }
  }

  lemma TakesSave(r: Runner, h: Hash, b: Booted, r': Runner)
    ensures Takes(r, DeploySave(h, b), r') <==> exists now, w :: r' == Saved(r, h, b, now, w)
  {
    if Takes(r, DeploySave(h, b), r') {
      var r1, pc1 := FirstStep(r, DeploySave(h, b), r');
      var now, w :| r1 == SaveRow(r, ActiveRow(h, b.name, now), w) && pc1 == (if w == Applied then Finished else DeployRollback(b));
      TakesNothing(r1, r');
      TakesRollback(r1, b, r');
      assert r' == Saved(r, h, b, now, w);
    }
    if now, w :| r' == Saved(r, h, b, now, w) {
      var r1 := SaveRow(r, ActiveRow(h, b.name, now), w);
      TakesNothing(r1, r');
      TakesRollback(r1, b, r');
      TakesStep(r, DeploySave(h, b), r1, if w == Applied then Finished else DeployRollback(b), r');
    }
  }

  lemma TakesInstall(r: Runner, h: Hash, b: Booted, r': Runner)
    ensures Takes(r, DeployInstall(h, b), r') <==>
              if InstallCheck(r, b, h) == Installed then exists now, w :: r' == Saved(Install(r, b), h, b, now, w) else r' == r
  {
    var ok := InstallCheck(r, b, h) == Installed;
    var r1, pc1 := if ok then Install(r, b) else r, if ok then DeploySave(h, b) else Finished;
    TakesSave(Install(r, b), h, b, r');
    TakesNothing(r, r');
    if Takes(r, DeployInstall(h, b), r') { var r2, pc2 := FirstStep(r, DeployInstall(h, b), r'); }
    if Takes(r1, pc1, r') { TakesStep(r, DeployInstall(h, b), r1, pc1, r'); }
  }

  lemma BootedIs(r: Runner, h: Hash, env: DeployEnv)
    requires env.boots.Some?
    ensures var (r1, b) := NewInstance(r, env.boots.value, h);
            BootAndInstall(r, h, env).0 == if InstallCheck(r1, b, h) == Installed then Saved(Install(r1, b), h, b, env.now, env.save) else r1
  {
  }

  /** From booting on. */
  lemma SoloBoot(r: Runner, h: Hash, r': Runner)
    ensures Takes(r, DeployBoot(h), r') <==> exists env: DeployEnv :: r' == BootAndInstall(r, h, env).0
  {
    TakesNothing(r, r');
    if Takes(r, DeployBoot(h), r') {
      var r1, pc1 := FirstStep(r, DeployBoot(h), r');
      if pc1 == Finished {
        assert r' == BootAndInstall(r, h, DeployEnv(None, Applied, None, Applied, "")).0;
      } else {
        BootedSolo(r, h, pc1.booted.name, r');
      }
    }
    if env: DeployEnv :| r' == BootAndInstall(r, h, env).0 {
      if env.boots == None { TakesStep(r, DeployBoot(h), r, Finished, r'); } else { SoloBooted(r, h, env, r'); }
    }
  }

  lemma BootedSolo(r: Runner, h: Hash, name: string, r': Runner)
    requires var (r1, b) := NewInstance(r, name, h); Takes(r1, DeployInstall(h, b), r')
    ensures exists env: DeployEnv :: r' == BootAndInstall(r, h, env).0
  {
    var (r1, b) := NewInstance(r, name, h);
    TakesInstall(r1, h, b, r');
    if InstallCheck(r1, b, h) == Installed {
      var now, w :| r' == Saved(Install(r1, b), h, b, now, w);
      BootedIs(r, h, DeployEnv(None, Applied, Some(name), w, now));
      assert r' == BootAndInstall(r, h, DeployEnv(None, Applied, Some(name), w, now)).0;
    } else {
      BootedIs(r, h, DeployEnv(None, Applied, Some(name), Applied, ""));
      assert r' == BootAndInstall(r, h, DeployEnv(None, Applied, Some(name), Applied, "")).0;
    }
  }

  lemma SoloBooted(r: Runner, h: Hash, env: DeployEnv, r': Runner)
    requires env.boots.Some? && r' == BootAndInstall(r, h, env).0
    ensures Takes(r, DeployBoot(h), r')
  {
    var (r1, b) := NewInstance(r, env.boots.value, h);
    BootedIs(r, h, env);
    TakesInstall(r1, h, b, r');
    TakesStep(r, DeployBoot(h), r1, DeployInstall(h, b), r');
  }

  /** From the lookup of the running revision on, once the package's name is known. */
  lemma SoloLookup(r: Runner, h: Hash, package: string, r': Runner)
    requires Consistent(r) && !HoldsHash(r, h)
    ensures Takes(r, DeployLookup(h, package), r') <==> exists env: DeployEnv :: env.package == Some(package) && r' == Deploy(r, h, env).0
  {
    var pc := DeployLookup(h, package);
    match Superseded(r, package)
    case None =>
      SoloBoot(r, h, r');
      if Takes(r, pc, r') {
        var r1, pc1 := FirstStep(r, pc, r');
        var env: DeployEnv :| r' == BootAndInstall(r, h, env).0;
        assert r' == Deploy(r, h, env.(package := Some(package))).0;
      }
      if env: DeployEnv :| env.package == Some(package) && r' == Deploy(r, h, env).0 { TakesStep(r, pc, r, DeployBoot(h), r'); }
    case Some(prior) =>
      assert HoldsHash(r, prior) by { assert r.agents[package].hash == Some(prior); }
      TakesFind(r, prior, Some(h), r');
      TakesDelete(TakeOut(r, prior), prior, Some(h), r');
      if Takes(r, pc, r') {
        var r1, pc1 := FirstStep(r, pc, r');
        SupersededSolo(r, h, package, prior, r');
      }
      if env: DeployEnv :| env.package == Some(package) && r' == Deploy(r, h, env).0 {
        SoloSuperseded(r, h, package, prior, env, r');
        TakesStep(r, pc, r, UndeployFind(prior, Some(h)), r');
      }
  }

  lemma SupersededSolo(r: Runner, h: Hash, package: string, prior: Hash, r': Runner)
    requires HoldsHash(r, prior) && Superseded(r, package) == Some(prior) && !HoldsHash(r, h)
    requires exists w :: Takes(DeleteRow(TakeOut(r, prior), prior, w), if w == Applied then AfterUndeploy(Some(h)) else Finished, r')
    ensures exists env: DeployEnv :: env.package == Some(package) && r' == Deploy(r, h, env).0
  {
    var w :| Takes(DeleteRow(TakeOut(r, prior), prior, w), if w == Applied then AfterUndeploy(Some(h)) else Finished, r');
    var r1 := Undeploy(r, prior, w);
    if w == Applied {
      SoloBoot(r1, h, r');
      var env: DeployEnv :| r' == BootAndInstall(r1, h, env).0;
      assert r' == Deploy(r, h, env.(package := Some(package), supersede := Applied)).0;
    } else {
      TakesNothing(r1, r');
      assert r' == Deploy(r, h, DeployEnv(Some(package), w, None, Applied, "")).0;
    }
  }

  lemma SoloSuperseded(r: Runner, h: Hash, package: string, prior: Hash, env: DeployEnv, r': Runner)
    requires Consistent(r) && HoldsHash(r, prior) && Superseded(r, package) == Some(prior) && !HoldsHash(r, h)
    requires env.package == Some(package) && r' == Deploy(r, h, env).0
    ensures Takes(r, UndeployFind(prior, Some(h)), r')
  {
    var r1 := Undeploy(r, prior, env.supersede);
    if env.supersede == Applied { SoloBoot(r1, h, r'); } else { TakesNothing(r1, r'); }
    assert Takes(r1, if env.supersede == Applied then AfterUndeploy(Some(h)) else Finished, r');
    TakesDelete(TakeOut(r, prior), prior, Some(h), r');
    TakesFind(r, prior, Some(h), r');
  }

  /** A deploy that nobody interrupts is `deploy_by_hash` as a whole, for some outcomes of what it
      meets. */
  lemma SoloDeploy(r: Runner, h: Hash, r': Runner)
    requires Consistent(r)
    ensures Takes(r, DeployCheck(h), r') <==> exists env: DeployEnv :: r' == Deploy(r, h, env).0
  {
    TakesNothing(r, r');
    if HoldsHash(r, h) {
      if Takes(r, DeployCheck(h), r') { var r1, pc1 := FirstStep(r, DeployCheck(h), r'); }
      if r' == r { TakesStep(r, DeployCheck(h), r, Finished, r'); }
      assert Deploy(r, h, DeployEnv(None, Applied, None, Applied, "")).0 == r;
    } else {
      if Takes(r, DeployCheck(h), r') {
        var r1, pc1 := FirstStep(r, DeployCheck(h), r');
        FetchedSolo(r, h, r');
      }
      if env: DeployEnv :| r' == Deploy(r, h, env).0 {
        SoloFetched(r, h, env, r');
        TakesStep(r, DeployCheck(h), r, DeployFetch(h), r');
      }
    }
  }

  lemma FetchedSolo(r: Runner, h: Hash, r': Runner)
    requires Consistent(r) && !HoldsHash(r, h) && Takes(r, DeployFetch(h), r')
    ensures exists env: DeployEnv :: r' == Deploy(r, h, env).0
  {
    var r1, pc1 := FirstStep(r, DeployFetch(h), r');
    if pc1 == Finished {
      TakesNothing(r, r');
      assert r' == Deploy(r, h, DeployEnv(None, Applied, None, Applied, "")).0;
    } else {
      SoloLookup(r, h, pc1.package, r');
    }
  }

  lemma SoloFetched(r: Runner, h: Hash, env: DeployEnv, r': Runner)
    requires Consistent(r) && !HoldsHash(r, h) && r' == Deploy(r, h, env).0
    ensures Takes(r, DeployFetch(h), r')
  {
    if env.package == None {
      TakesNothing(r, r');
      TakesStep(r, DeployFetch(h), r, Finished, r');
    } else {
      SoloLookup(r, h, env.package.value, r');
      TakesStep(r, DeployFetch(h), r, DeployLookup(h, env.package.value), r');
    }
  }
}
