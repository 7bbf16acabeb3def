/** Structured plans of the ClickUp and Slack agents: the validator and the two plan runners with
    their session protocol (agents/clickup-agent/src/clickupExecution.ts:90-132,
    agents/clickup-agent/src/clickupWorkflow.ts:160-249, agents/slack-agent/src/index.ts:84-209). */
module PlanRunner {
  import opened Options

  /** The string functions of the language: white space and lower-casing. */
  datatype Js = Js(isSpace: char -> bool, lower: string -> string)

  function TrimLeft(js: Js, s: string): (r: string)
    ensures r == [] || !js.isSpace(r[0])
  {
    if s != [] && js.isSpace(s[0]) then TrimLeft(js, s[1..]) else s
  }

  function TrimRight(js: Js, s: string): (r: string)
    ensures r <= s && (r == [] || !js.isSpace(r[|r| - 1]))
  {
    if s != [] && js.isSpace(s[|s| - 1]) then TrimRight(js, s[..|s| - 1]) else s
  }

  function Trim(js: Js, s: string): string {
    TrimRight(js, TrimLeft(js, s))
  }

  predicate Blank(js: Js, s: string) {
    forall i :: 0 <= i < |s| ==> js.isSpace(s[i])
  }

  lemma {:induction false} TrimLeftSplits(js: Js, s: string) returns (a: string)
    ensures s == a + TrimLeft(js, s) && Blank(js, a)
  {
    a := [];
    if s != [] && js.isSpace(s[0]) {
      a := TrimLeftSplits(js, s[1..]);
      a := [s[0]] + a;
      assert s == [s[0]] + s[1..];
    }
  }

  lemma {:induction false} TrimRightSplits(js: Js, s: string) returns (b: string)
    ensures s == TrimRight(js, s) + b && Blank(js, b)
  {
    b := [];
    if s != [] && js.isSpace(s[|s| - 1]) {
      b := TrimRightSplits(js, s[..|s| - 1]);
      b := b + [s[|s| - 1]];
      assert s == s[..|s| - 1] + [s[|s| - 1]];
    }
  }

  /** Trimming takes white space off both ends, all of it and nothing else. */
  lemma TrimSplits(js: Js, s: string) returns (a: string, b: string)
    ensures s == a + Trim(js, s) + b && Blank(js, a) && Blank(js, b)
    ensures var t := Trim(js, s); t != [] ==> !js.isSpace(t[0]) && !js.isSpace(t[|t| - 1])
  {
    a := TrimLeftSplits(js, s);
    b := TrimRightSplits(js, TrimLeft(js, s));
  }

  lemma TrimIdempotent(js: Js, s: string)
    ensures Trim(js, Trim(js, s)) == Trim(js, s)
  {
    var left := TrimLeft(js, s);
    var both := TrimRight(js, left);
    assert both == [] || both[0] == left[0];
    assert TrimLeft(js, both) == both;
    assert TrimRight(js, both) == both;
  }

  /** A package name as both the validator and the runner compare it. */
  function Normal(js: Js, s: string): string {
    js.lower(Trim(js, s))
  }

  datatype Field = Text(s: string) | NotText

  /** A plan step as it comes from the model. */
  datatype RawStep = NotObject | RawStep(subMessage: Field, package: Field, instance: Field)

  datatype PlanStep = PlanStep(package: string, instance: string, subMessage: string)

  /** The two packages of an agent: clickup-execute and clickup-format, or slack-retrieve and
      slack-synthesize. */
  datatype Packages = Packages(work: string, final: string)

  const CLICKUP := Packages("clickup-execute", "clickup-format")
  const SLACK := Packages("slack-retrieve", "slack-synthesize")

  predicate StepOk(js: Js, pk: Packages, s: RawStep) {
    && s.RawStep? && s.subMessage.Text? && Trim(js, s.subMessage.s) != "" && s.package.Text? && s.instance.Text?
    && (Normal(js, s.package.s) == pk.work || Normal(js, s.package.s) == pk.final)
  }

  function Cleaned(js: Js, s: RawStep): PlanStep
    requires s.RawStep? && s.subMessage.Text? && s.package.Text? && s.instance.Text?
  {
    var inst := Trim(js, s.instance.s);
    PlanStep(Trim(js, s.package.s), if inst == "" then "default" else inst, s.subMessage.s)
  }

  /** The step says what the model said: package and instance without surrounding white space, with the
      default for an empty instance, and the message as it is. */
  predicate Kept(js: Js, s: RawStep, step: PlanStep) {
    && s.RawStep? && s.subMessage.Text? && s.package.Text? && s.instance.Text?
    && step.package == Trim(js, s.package.s) && step.subMessage == s.subMessage.s
    && step.instance == (if Blank(js, s.instance.s) then "default" else Trim(js, s.instance.s))
  }

  lemma CleanedIsKept(js: Js, s: RawStep)
    requires s.RawStep? && s.subMessage.Text? && s.package.Text? && s.instance.Text?
    ensures Kept(js, s, Cleaned(js, s))
  {
    BlankIff(js, s.instance.s);
  }

  lemma BlankIff(js: Js, s: string)
    ensures Trim(js, s) == "" <==> Blank(js, s)
  {
    var a, b := TrimSplits(js, s);
    if Trim(js, s) != "" { assert s[|a|] == Trim(js, s)[0]; }
  }

  /** A step is well formed exactly when it has a message that is not blank, and a package that is one of
      the two up to case and surrounding white space. */
  lemma StepOkIff(js: Js, pk: Packages, s: RawStep)
    ensures StepOk(js, pk, s) <==>
              && s.RawStep? && s.subMessage.Text? && s.package.Text? && s.instance.Text?
              && !Blank(js, s.subMessage.s) && js.lower(Trim(js, s.package.s)) in {pk.work, pk.final}
  {
    if s.RawStep? && s.subMessage.Text? { BlankIff(js, s.subMessage.s); }
  }

  /** The execution contract: well-formed steps, work steps only and at least one of them, and
      then the one final step. */
  ghost predicate Contract(js: Js, pk: Packages, raw: seq<RawStep>) {
    && |raw| >= 2
    && (forall i :: 0 <= i < |raw| ==> StepOk(js, pk, raw[i]))
    && (forall i :: 0 <= i < |raw| - 1 ==> Normal(js, raw[i].package.s) == pk.work)
    && Normal(js, raw[|raw| - 1].package.s) == pk.final
  }

  /** What the runners get: the contract on cleaned steps. */
  ghost predicate Accepted(js: Js, pk: Packages, steps: seq<PlanStep>) {
    && |steps| >= 2
    && (forall i :: 0 <= i < |steps| - 1 ==> Normal(js, steps[i].package) == pk.work)
    && Normal(js, steps[|steps| - 1].package) == pk.final
  }

  function CountOf(js: Js, name: string, steps: seq<PlanStep>): nat {
    if steps == [] then 0
    else CountOf(js, name, steps[..|steps| - 1]) + if Normal(js, steps[|steps| - 1].package) == name then 1 else 0
  }

  lemma {:induction false} CountZero(js: Js, name: string, steps: seq<PlanStep>)
    ensures CountOf(js, name, steps) == 0 <==> forall i :: 0 <= i < |steps| ==> Normal(js, steps[i].package) != name
  {
    if steps != [] { CountZero(js, name, steps[..|steps| - 1]); }
  }

  /** The three checks after the loop say exactly: work steps, then one final step. */
  lemma CountsMeanShape(js: Js, pk: Packages, steps: seq<PlanStep>)
    requires pk.work != pk.final && steps != []
    requires forall i :: 0 <= i < |steps| ==> Normal(js, steps[i].package) == pk.work || Normal(js, steps[i].package) == pk.final
    ensures (&& CountOf(js, pk.work, steps) >= 1 && CountOf(js, pk.final, steps) == 1
             && Normal(js, steps[|steps| - 1].package) == pk.final)
       <==> Accepted(js, pk, steps)
  {
    var front := steps[..|steps| - 1];
    CountZero(js, pk.work, steps);
    CountZero(js, pk.final, front);
    if Accepted(js, pk, steps) { assert Normal(js, steps[0].package) == pk.work; }
  }

  /** The validator's first loop: check and clean each step. */
  method CleanSteps(js: Js, pk: Packages, raw: seq<RawStep>) returns (r: Option<seq<PlanStep>>)
    ensures r.Some? <==> forall k :: 0 <= k < |raw| ==> StepOk(js, pk, raw[k])
    ensures r.Some? ==> |r.value| == |raw| && forall k :: 0 <= k < |raw| ==> StepOk(js, pk, raw[k]) && r.value[k] == Cleaned(js, raw[k])
    ensures r.Some? ==> forall k :: 0 <= k < |raw| ==> Kept(js, raw[k], r.value[k])
  {
    var steps: seq<PlanStep> := [];
    for i := 0 to |raw|
      invariant |steps| == i
      invariant forall k :: 0 <= k < i ==> StepOk(js, pk, raw[k]) && steps[k] == Cleaned(js, raw[k]) && Kept(js, raw[k], steps[k])
    {
      if !StepOk(js, pk, raw[i]) { return None; }
      CleanedIsKept(js, raw[i]);
      steps := steps + [Cleaned(js, raw[i])];
    }
    r := Some(steps);
  }

  /** Its second loop: count the steps of each package. */
  method CountPackages(js: Js, pk: Packages, steps: seq<PlanStep>) returns (works: nat, finals: nat)
    ensures works == CountOf(js, pk.work, steps) && finals == CountOf(js, pk.final, steps)
  {
    works, finals := 0, 0;
    for i := 0 to |steps|
      invariant works == CountOf(js, pk.work, steps[..i]) && finals == CountOf(js, pk.final, steps[..i])
    {
      assert steps[..i + 1][..i] == steps[..i];
      if Normal(js, steps[i].package) == pk.work { works := works + 1; }
      if Normal(js, steps[i].package) == pk.final { finals := finals + 1; }
    }
    assert steps[..|steps|] == steps;
  }

  /** `validateClickUpPlanForExecution` and `validateSlackPlanForExecution`. */
  method Validate(js: Js, pk: Packages, raw: seq<RawStep>) returns (r: Option<seq<PlanStep>>)
    requires pk.work != pk.final
    ensures r.Some? <==> Contract(js, pk, raw)
    ensures r.Some? ==> |r.value| == |raw| && Accepted(js, pk, r.value)
                        && forall i :: 0 <= i < |raw| ==> r.value[i] == Cleaned(js, raw[i]) && Kept(js, raw[i], r.value[i])
  {
    if |raw| == 0 { return None; }
    r := CleanSteps(js, pk, raw);
    if r == None { return; }
    var steps := r.value;
    CleanedSame(js, pk, raw, steps);
    var works, finals := CountPackages(js, pk, steps);
    CountsMeanShape(js, pk, steps);
    if works < 1 || finals != 1 || Normal(js, steps[|steps| - 1].package) != pk.final { return None; }
  }

  /** Cleaning does not change how a package compares. */
  lemma CleanedSame(js: Js, pk: Packages, raw: seq<RawStep>, steps: seq<PlanStep>)
    requires |steps| == |raw|
    requires forall k :: 0 <= k < |raw| ==> StepOk(js, pk, raw[k]) && steps[k] == Cleaned(js, raw[k])
    ensures forall k :: 0 <= k < |raw| ==> StepOk(js, pk, raw[k]) && Normal(js, steps[k].package) == Normal(js, raw[k].package.s)
    ensures Accepted(js, pk, steps) <==> Contract(js, pk, raw)
  {
    forall k | 0 <= k < |raw| ensures Normal(js, steps[k].package) == Normal(js, raw[k].package.s) {
      TrimIdempotent(js, raw[k].package.s);
    }
  }

  datatype Agent = ClickUp | Slack

  // The session protocol.

  datatype Event = Started(i: nat) | Completed(i: nat) | Finished | Aborted

  datatype RunResult = FinalMessage | NoFinalStep | RunError

  class Session {
    var trace: seq<Event>

    constructor ()
      ensures trace == []
    {
      trace := [];
    }

    method Record(e: Event)
      modifies this
      ensures trace == old(trace) + [e]
    {
      trace := trace + [e];
    }
  }

  /** What one step does to the session, and the reply if it is the last. `ok` tells whether the
      step's own work (the executor, Slack's model call, ClickUp's formatting) completes or throws.
      Slack completes a step of neither package twice. */
  function StepEvents(a: Agent, pk: Packages, package: string, ok: bool, i: nat): (seq<Event>, Option<RunResult>) {
    if package == pk.work then
      if ok then ([Started(i), Completed(i)], None) else ([Started(i), Aborted], Some(RunError))
    else if package == pk.final then
      if !ok then ([Started(i), Aborted], Some(RunError))
      else ([Started(i), Completed(i), Finished], Some(FinalMessage))
    else if a == Slack then ([Started(i), Completed(i), Completed(i)], None)
    else ([Started(i), Completed(i)], None)
  }

  /** All events from step `i` on, and the reply. */
  function Events(js: Js, a: Agent, pk: Packages, steps: seq<PlanStep>, completes: nat -> bool, i: nat): (seq<Event>, RunResult)
    requires i <= |steps|
    decreases |steps| - i
  {
    if i == |steps| then ([Finished], NoFinalStep)
    else
      var (es, reply) := StepEvents(a, pk, Normal(js, steps[i].package), completes(i), i);
      match reply
      case Some(r) => (es, r)
      case None =>
        var rest := Events(js, a, pk, steps, completes, i + 1);
        (es + rest.0, rest.1)
  }

  /** A call on the session, if there is one. */
  method Tell(session: Session?, e: Event)
    modifies session
    ensures session != null ==> session.trace == old(session.trace) + [e]
  {
    if session != null { session.Record(e); }
  }

  /** The body of the loop of `runClickUpStructuredPlan`. */
  method ClickUpStep(session: Session?, pk: Packages, package: string, ok: bool, i: nat) returns (reply: Option<RunResult>)
    requires pk.work != pk.final
    modifies session
    ensures session != null ==> session.trace == old(session.trace) + StepEvents(ClickUp, pk, package, ok, i).0
    ensures reply == StepEvents(ClickUp, pk, package, ok, i).1
  {
    Tell(session, Started(i));
    if package == pk.work {
      if !ok {
        Tell(session, Aborted);
        return Some(RunError);
      }
      Tell(session, Completed(i));
    } else if package == pk.final {
      if !ok {
        Tell(session, Aborted);
        return Some(RunError);
      }
      Tell(session, Completed(i));
      Tell(session, Finished);
      return Some(FinalMessage);
    } else {
      Tell(session, Completed(i));
    }
    reply := None;
  }

  /** The body of the loop of `runSlackStructuredPlan`. */
  method SlackStep(session: Session?, pk: Packages, package: string, ok: bool, i: nat) returns (reply: Option<RunResult>)
    requires pk.work != pk.final
    modifies session
    ensures session != null ==> session.trace == old(session.trace) + StepEvents(Slack, pk, package, ok, i).0
    ensures reply == StepEvents(Slack, pk, package, ok, i).1
  {
    Tell(session, Started(i));
    if package == pk.work {
      if !ok {
        Tell(session, Aborted);
        return Some(RunError);
      }
    } else if package == pk.final {
      if !ok {
        Tell(session, Aborted);
        return Some(RunError);
      }
      Tell(session, Completed(i));
      Tell(session, Finished);
      return Some(FinalMessage);
    } else {
      Tell(session, Completed(i));
    }
    Tell(session, Completed(i));
    reply := None;
  }

  method RunStep(a: Agent, pk: Packages, session: Session?, package: string, ok: bool, i: nat) returns (reply: Option<RunResult>)
    requires pk.work != pk.final
    modifies session
    ensures session != null ==> session.trace == old(session.trace) + StepEvents(a, pk, package, ok, i).0
    ensures reply == StepEvents(a, pk, package, ok, i).1
  {
    if a == ClickUp {
      reply := ClickUpStep(session, pk, package, ok, i);
    } else {
      reply := SlackStep(session, pk, package, ok, i);
    }
  }

  /** Having told `told`, the rest of the run from step `i` makes up `all`. */
  ghost predicate Towards(told: seq<Event>, js: Js, a: Agent, pk: Packages, steps: seq<PlanStep>, completes: nat -> bool, i: nat,
                          all: (seq<Event>, RunResult))
    requires i <= |steps|
  {
    var rest := Events(js, a, pk, steps, completes, i);
    all == (told + rest.0, rest.1)
  }

  lemma TowardsStep(told: seq<Event>, js: Js, a: Agent, pk: Packages, steps: seq<PlanStep>, completes: nat -> bool, i: nat,
                    all: (seq<Event>, RunResult))
    requires i < |steps| && Towards(told, js, a, pk, steps, completes, i, all)
    ensures var (es, reply) := StepEvents(a, pk, Normal(js, steps[i].package), completes(i), i);
            if reply.Some? then all == (told + es, reply.value)
            else Towards(told + es, js, a, pk, steps, completes, i + 1, all)
  {
    var (es, reply) := StepEvents(a, pk, Normal(js, steps[i].package), completes(i), i);
    if reply.None? {
      assert told + (es + Events(js, a, pk, steps, completes, i + 1).0) == (told + es) + Events(js, a, pk, steps, completes, i + 1).0;
    }
  }

  /** `runClickUpStructuredPlan` and `runSlackStructuredPlan`; `session` is absent outside an
      execution session. */
  method RunPlan(js: Js, a: Agent, pk: Packages, session: Session?, steps: seq<PlanStep>, completes: nat -> bool) returns (r: RunResult)
    requires pk.work != pk.final
    modifies session
    ensures r == Events(js, a, pk, steps, completes, 0).1
    ensures session != null ==> session.trace == old(session.trace) + Events(js, a, pk, steps, completes, 0).0
  {
    ghost var told: seq<Event> := if session == null then [] else session.trace;
    ghost var all := (told + Events(js, a, pk, steps, completes, 0).0, Events(js, a, pk, steps, completes, 0).1);
    for i := 0 to |steps|
      invariant session != null ==> session.trace == told
      invariant Towards(told, js, a, pk, steps, completes, i, all)
    {
      TowardsStep(told, js, a, pk, steps, completes, i, all);
      var package, ok := Normal(js, steps[i].package), completes(i);
      told := told + StepEvents(a, pk, package, ok, i).0;
      var reply := RunStep(a, pk, session, package, ok, i);
      if reply.Some? { return reply.value; }
    }
    Tell(session, Finished);
    r := NoFinalStep;
  }

  /** Steps `i` to `k - 1` started and completed one after the other. */
  function InOrder(i: nat, k: nat): (t: seq<Event>)
    requires i <= k
    ensures |t| == 2 * (k - i)
    ensures forall m :: i <= m < k ==> t[2 * (m - i)] == Started(m) && t[2 * (m - i) + 1] == Completed(m)
    decreases k - i
  {
    if i == k then [] else [Started(i), Completed(i)] + InOrder(i + 1, k)
  }

  /** The trace the protocol promises: all steps and a finish, or all steps before `fail` and an
      abort at it. */
  function PromisedTrace(i: nat, n: nat, fail: Option<nat>): seq<Event>
    requires i <= n && (fail.Some? ==> i <= fail.value)
  {
    match fail
    case None => InOrder(i, n) + [Finished]
    case Some(k) => InOrder(i, k) + [Started(k), Aborted]
  }

  /** The first step from `i` on that fails. */
  function FirstFailure(completes: nat -> bool, i: nat, n: nat): (k: Option<nat>)
    requires i <= n
    ensures k.Some? ==> i <= k.value < n
    decreases n - i
  {
    if i == n then None else if !completes(i) then Some(i) else FirstFailure(completes, i + 1, n)
  }

  lemma {:induction false} FirstFailureIsFirst(completes: nat -> bool, i: nat, n: nat)
    requires i <= n
    ensures FirstFailure(completes, i, n).None? <==> forall m :: i <= m < n ==> completes(m)
    ensures var k := FirstFailure(completes, i, n);
            k.Some? ==> !completes(k.value) && forall m :: i <= m < k.value ==> completes(m)
    decreases n - i
  {
    if i < n { FirstFailureIsFirst(completes, i + 1, n); }
  }

  lemma Unroll(i: nat, n: nat, fail: Option<nat>)
    requires i < n && (fail.Some? ==> i <= fail.value < n)
    ensures fail == Some(i) ==> PromisedTrace(i, n, fail) == [Started(i), Aborted]
    ensures fail == None && i == n - 1 ==> PromisedTrace(i, n, fail) == [Started(i), Completed(i), Finished]
    ensures fail != Some(i) && i < n - 1 ==> PromisedTrace(i, n, fail) == [Started(i), Completed(i)] + PromisedTrace(i + 1, n, fail)
  {
  }

  function ReplyFor(fail: Option<nat>): RunResult {
    if fail.None? then FinalMessage else RunError
  }

  lemma WorkStep(js: Js, a: Agent, pk: Packages, steps: seq<PlanStep>, completes: nat -> bool, i: nat)
    requires i < |steps| && Normal(js, steps[i].package) == pk.work
    ensures Events(js, a, pk, steps, completes, i) ==
              if completes(i)
              then ([Started(i), Completed(i)] + Events(js, a, pk, steps, completes, i + 1).0, Events(js, a, pk, steps, completes, i + 1).1)
              else ([Started(i), Aborted], RunError)
  {
  }

  lemma FinalStep(js: Js, a: Agent, pk: Packages, steps: seq<PlanStep>, completes: nat -> bool, i: nat)
    requires i < |steps| && Normal(js, steps[i].package) == pk.final && pk.work != pk.final
    ensures Events(js, a, pk, steps, completes, i) ==
              if !completes(i) then ([Started(i), Aborted], RunError)
              else ([Started(i), Completed(i), Finished], FinalMessage)
  {
  }

  /** From step `i` on the run makes the promised trace and gives the reply that goes with it. */
  ghost predicate Promised(js: Js, a: Agent, pk: Packages, steps: seq<PlanStep>, completes: nat -> bool, i: nat)
    requires i < |steps|
  {
    var fail := FirstFailure(completes, i, |steps|);
    Events(js, a, pk, steps, completes, i) == (PromisedTrace(i, |steps|, fail), ReplyFor(fail))
  }

  lemma PromisedAtFinal(js: Js, a: Agent, pk: Packages, steps: seq<PlanStep>, completes: nat -> bool)
    requires pk.work != pk.final && steps != [] && Normal(js, steps[|steps| - 1].package) == pk.final
    ensures Promised(js, a, pk, steps, completes, |steps| - 1)
  {
    var i := |steps| - 1;
    FinalStep(js, a, pk, steps, completes, i);
    Unroll(i, i + 1, if !completes(i) then Some(i) else None);
  }

  lemma PromisedAtWork(js: Js, a: Agent, pk: Packages, steps: seq<PlanStep>, completes: nat -> bool, i: nat)
    requires i + 1 < |steps| && Normal(js, steps[i].package) == pk.work
    requires Promised(js, a, pk, steps, completes, i + 1)
    ensures Promised(js, a, pk, steps, completes, i)
  {
    WorkStep(js, a, pk, steps, completes, i);
    Unroll(i, |steps|, FirstFailure(completes, i, |steps|));
  }

  /** For every accepted plan and every sequence of executor outcomes the session trace is the
      promised one: no step is completed twice, and the reply is never the one for plans without
      a final step. */
  lemma {:induction false} RunKeepsProtocol(js: Js, a: Agent, pk: Packages, steps: seq<PlanStep>, completes: nat -> bool, i: nat)
    requires pk.work != pk.final && Accepted(js, pk, steps) && i < |steps|
    ensures Promised(js, a, pk, steps, completes, i)
    decreases |steps| - i
  {
    if i == |steps| - 1 {
      PromisedAtFinal(js, a, pk, steps, completes);
    } else {
      RunKeepsProtocol(js, a, pk, steps, completes, i + 1);
      PromisedAtWork(js, a, pk, steps, completes, i);
    }
  }

  predicate IsEnd(e: Event) {
    e == Finished || e == Aborted
  }

  /** Exactly one end, at the end, and a finish only after every step completed. */
  ghost predicate EndsOnce(t: seq<Event>, n: nat) {
    && t != [] && IsEnd(t[|t| - 1]) && (forall j :: 0 <= j < |t| - 1 ==> !IsEnd(t[j]))
    && (t[|t| - 1] == Finished ==> forall i: nat :: i < n ==> Completed(i) in t)
  }

  /** A step starts only after the step it depends on has completed. */
  ghost predicate RespectsDependencies(t: seq<Event>) {
    forall j, i: nat :: 0 <= j < |t| && t[j] == Started(i) && i > 0 ==> Completed(i - 1) in t[..j]
  }

  /** Each step starts once and is completed at most once, right after its start. */
  ghost predicate StepsOnce(t: seq<Event>) {
    && (forall j, i: nat :: 0 <= j < |t| && t[j] == Completed(i) ==> j > 0 && t[j - 1] == Started(i))
    && (forall j, k :: 0 <= j < k < |t| && t[j].Started? ==> t[j] != t[k])
  }

  /** The event at position `j` of the promised trace. */
  function EventAt(n: nat, fail: Option<nat>, j: nat): Event {
    var k := if fail.Some? then fail.value else n;
    if j < 2 * k then if j % 2 == 0 then Started(j / 2) else Completed(j / 2)
    else if fail.None? then Finished else if j == 2 * k then Started(k) else Aborted
  }

  lemma PromisedTraceAt(n: nat, fail: Option<nat>)
    ensures |PromisedTrace(0, n, fail)| == if fail.Some? then 2 * fail.value + 2 else 2 * n + 1
    ensures forall j :: 0 <= j < |PromisedTrace(0, n, fail)| ==> PromisedTrace(0, n, fail)[j] == EventAt(n, fail, j)
  {
    var t := PromisedTrace(0, n, fail);
    var k := if fail.Some? then fail.value else n;
    forall j | 0 <= j < |t| ensures t[j] == EventAt(n, fail, j) {
      if j < 2 * k {
        assert j == 2 * (j / 2) + j % 2;
        assert InOrder(0, k)[2 * (j / 2)] == Started(j / 2);
      }
    }
  }

  lemma PromisedEndsOnce(n: nat, fail: Option<nat>)
    ensures EndsOnce(PromisedTrace(0, n, fail), n)
  {
    var t := PromisedTrace(0, n, fail);
    PromisedTraceAt(n, fail);
    if fail.None? {
      forall i: nat | i < n ensures Completed(i) in t {
        assert t[2 * i + 1] == EventAt(n, fail, 2 * i + 1) == Completed(i);
      }
    }
  }

  lemma PromisedRespectsDependencies(n: nat, fail: Option<nat>)
    ensures RespectsDependencies(PromisedTrace(0, n, fail))
  {
    var t := PromisedTrace(0, n, fail);
    PromisedTraceAt(n, fail);
    forall j, i: nat | 0 <= j < |t| && t[j] == Started(i) && i > 0 ensures Completed(i - 1) in t[..j] {
      assert j == 2 * i;
      assert t[..j][2 * i - 1] == EventAt(n, fail, 2 * i - 1) == Completed(i - 1);
    }
  }

  lemma PromisedStepsOnce(n: nat, fail: Option<nat>)
    ensures StepsOnce(PromisedTrace(0, n, fail))
  {
    var t := PromisedTrace(0, n, fail);
    PromisedTraceAt(n, fail);
    forall j, i: nat | 0 <= j < |t| && t[j] == Completed(i) ensures j > 0 && t[j - 1] == Started(i) {
      assert j == 2 * i + 1;
      assert t[j - 1] == EventAt(n, fail, 2 * i);
    }
    forall j, k | 0 <= j < k < |t| && t[j].Started? ensures t[j] != t[k] {
      assert t[j] == EventAt(n, fail, j) && t[k] == EventAt(n, fail, k);
    }
  }

  /** Whatever plan was accepted and whatever the executors do: one finish after the last step or
      one abort, dependencies first, every step once, and a reply that belongs to the plan. */
  lemma AcceptedPlansRunLawfully(js: Js, a: Agent, pk: Packages, steps: seq<PlanStep>, completes: nat -> bool)
    requires pk.work != pk.final && Accepted(js, pk, steps)
    ensures EndsOnce(Events(js, a, pk, steps, completes, 0).0, |steps|)
    ensures RespectsDependencies(Events(js, a, pk, steps, completes, 0).0)
    ensures StepsOnce(Events(js, a, pk, steps, completes, 0).0)
    ensures Events(js, a, pk, steps, completes, 0).1 != NoFinalStep
  {
    RunKeepsProtocol(js, a, pk, steps, completes, 0);
    var fail := FirstFailure(completes, 0, |steps|);
    PromisedIsLawful(|steps|, fail);
  }

  function PackagesOf(a: Agent): (pk: Packages)
    ensures pk.work != pk.final
    ensures a == ClickUp ==> pk.work == "clickup-execute" && pk.final == "clickup-format"
    ensures a == Slack ==> pk.work == "slack-retrieve" && pk.final == "slack-synthesize"
  {
    if a == ClickUp then CLICKUP else SLACK
  }

  /** From the model's plan to the session: what an agent's validator accepts, its runner runs
      lawfully. */
  lemma ValidPlansRunLawfully(js: Js, a: Agent, raw: seq<RawStep>, steps: seq<PlanStep>, completes: nat -> bool)
    requires Contract(js, PackagesOf(a), raw) && |steps| == |raw|
    requires forall k :: 0 <= k < |raw| ==> StepOk(js, PackagesOf(a), raw[k]) && steps[k] == Cleaned(js, raw[k])
    ensures EndsOnce(Events(js, a, PackagesOf(a), steps, completes, 0).0, |raw|)
    ensures RespectsDependencies(Events(js, a, PackagesOf(a), steps, completes, 0).0)
    ensures StepsOnce(Events(js, a, PackagesOf(a), steps, completes, 0).0)
    ensures Events(js, a, PackagesOf(a), steps, completes, 0).1 != NoFinalStep
  {
    CleanedSame(js, PackagesOf(a), raw, steps);
    AcceptedPlansRunLawfully(js, a, PackagesOf(a), steps, completes);
  }

  lemma PromisedIsLawful(n: nat, fail: Option<nat>)
    ensures EndsOnce(PromisedTrace(0, n, fail), n)
    ensures RespectsDependencies(PromisedTrace(0, n, fail))
    ensures StepsOnce(PromisedTrace(0, n, fail))
  {
    PromisedEndsOnce(n, fail);
    PromisedRespectsDependencies(n, fail);
    PromisedStepsOnce(n, fail);
  }
}
