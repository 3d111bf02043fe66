// The goal loop of agents/runtime: sweeps over a plan, with one retry per step, a deadlock
// test and a cap on the number of sweeps.

module StepEvaluators {
  import opened Wrappers

  // A raw step result: its quality entry, when it has one, and the rest of it.
  datatype RawResult = RawResult(quality: Option<real>, output: string)

  datatype Decision = Proceed | Retry | Escalate

  datatype Evaluation = Evaluation(score: real, decision: Decision)

  datatype StepEvaluator = StepEvaluator(retryLimit: int, proceedThreshold: real, escalateThreshold: real) {
    function Evaluate(raw: RawResult, retriesDone: int): Evaluation {
      var quality := Quality(raw);
      if quality >= proceedThreshold then Evaluation(quality, Proceed)
      else if quality < escalateThreshold then Evaluation(quality, Escalate)
      else if retriesDone < retryLimit then Evaluation(quality, Retry)
      else Evaluation(quality, Escalate)
    }
  }

  function Quality(raw: RawResult): real {
    match raw.quality
    case Some(q) => q
    case None => 0.0
  }
}

module Planners {
  import opened Wrappers
  import opened Graphs

  datatype Step = Step(id: string, description: string, agentType: string, tool: string, dependsOn: seq<string>)

  datatype Plan = Plan(goal: string, steps: seq<Step>)

  datatype InvalidReferences = InvalidReferences(stepId: string, missing: seq<string>)

  function StepIds(steps: seq<Step>): seq<string> {
    seq(|steps|, i requires 0 <= i < |steps| => steps[i].id)
  }

  ghost predicate UniqueIds(steps: seq<Step>) {
    NoDuplicates(StepIds(steps))
  }

  // The dependency graph of a list of steps; the last step with an id decides its entry.
  function StepDeps(steps: seq<Step>): (g: Deps)
    ensures g.Keys == Elements(StepIds(steps))
  {
    if steps == [] then
      assert StepIds(steps) == [];
      map[]
    else
      var last := steps[|steps| - 1];
      assert StepIds(steps) == StepIds(steps[..|steps| - 1]) + [last.id];
      StepDeps(steps[..|steps| - 1])[last.id := last.dependsOn]
  }

  lemma {:induction false} StepDepsEntry(steps: seq<Step>, i: nat)
    requires UniqueIds(steps) && i < |steps|
    ensures steps[i].id in StepDeps(steps) && StepDeps(steps)[steps[i].id] == steps[i].dependsOn
  {
    var ids := StepIds(steps);
    assert ids[i] == steps[i].id && ids[|steps| - 1] == steps[|steps| - 1].id;
    if i < |steps| - 1 {
      var front := steps[..|steps| - 1];
      assert StepIds(front) == ids[..|steps| - 1];
      StepDepsEntry(front, i);
    }
  }

  // Dependency references of a step that name no step of the list, in order.
  function MissingReferences(ids: set<string>, deps: seq<string>): seq<string> {
    if deps == [] then []
    else (if deps[0] in ids then [] else [deps[0]]) + MissingReferences(ids, deps[1..])
  }

  lemma {:induction false} MissingReferencesAreExact(ids: set<string>, deps: seq<string>)
    ensures forall d :: d in MissingReferences(ids, deps) <==> d in deps && d !in ids
    ensures forall d :: multiset(MissingReferences(ids, deps))[d] == if d in ids then 0 else multiset(deps)[d]
  {
    if deps != [] {
      MissingReferencesAreExact(ids, deps[1..]);
      assert deps == [deps[0]] + deps[1..];
    }
  }

  // They come in the order in which the step lists them.
  lemma {:induction false} MissingReferencesInOrder(ids: set<string>, deps: seq<string>) returns (at: seq<nat>)
    ensures var missing := MissingReferences(ids, deps);
            && |at| == |missing| && (forall k | 0 <= k < |at| :: at[k] < |deps| && deps[at[k]] == missing[k])
            && forall j, k | 0 <= j < k < |at| :: at[j] < at[k]
  {
    at := [];
    if deps != [] {
      var later := MissingReferencesInOrder(ids, deps[1..]);
      var shifted := Shifted(later);
      assert forall k | 0 <= k < |shifted| :: deps[shifted[k]] == deps[1..][later[k]];
      at := if deps[0] in ids then shifted else [0] + shifted;
    }
  }

  function Shifted(at: seq<nat>): (r: seq<nat>)
    ensures |r| == |at| && forall k | 0 <= k < |at| :: r[k] == at[k] + 1
  {
    seq(|at|, k requires 0 <= k < |at| => at[k] + 1)
  }

  ghost predicate ClosedSteps(steps: seq<Step>) {
    forall s, d | s in steps && d in s.dependsOn :: d in Elements(StepIds(steps))
  }

  // None exactly when every reference names a step; otherwise the first offender, with all
  // and only its dangling references.
  method ValidateDependencies(steps: seq<Step>) returns (error: Option<InvalidReferences>)
    ensures error == None <==> ClosedSteps(steps)
    ensures error.Some? ==> exists i ::
      && 0 <= i < |steps| && error.value.stepId == steps[i].id
      && error.value.missing == MissingReferences(Elements(StepIds(steps)), steps[i].dependsOn) != []
      && forall j, d | 0 <= j < i && d in steps[j].dependsOn :: d in Elements(StepIds(steps))
  {
    var stepIds := Elements(StepIds(steps));
    var i := 0;
    while i < |steps|
      invariant 0 <= i <= |steps|
      invariant forall j, d | 0 <= j < i && d in steps[j].dependsOn :: d in stepIds
    {
      var invalid := MissingReferences(stepIds, steps[i].dependsOn);
      MissingReferencesAreExact(stepIds, steps[i].dependsOn);
      if invalid != [] {
        assert invalid[0] in invalid && steps[i] in steps;
        return Some(InvalidReferences(steps[i].id, invalid));
      }
      i := i + 1;
    }
    return None;
  }

  // The built-in three-step chain.
  function BaseSteps(goal: string, primaryAgent: Option<string>, primaryTool: Option<string>): seq<Step> {
    [ Step("step-1", "Analisar objetivo e contexto para: " + goal, "analista", "analysis.summarize", []),
      Step("step-2", "Executar ação principal com base na análise",
           if primaryAgent.Some? then primaryAgent.value else "marketing",
           if primaryTool.Some? then primaryTool.value else "task.execute", ["step-1"]),
      Step("step-3", "Validar resultado e gerar recomendação final", "analista", "analysis.evaluate", ["step-2"]) ]
  }

  lemma BaseStepsAreUnique(goal: string, agent: Option<string>, tool: Option<string>)
    ensures var steps := BaseSteps(goal, agent, tool);
            UniqueIds(steps) && StepIds(steps) == ["step-1", "step-2", "step-3"]
  {
    var ids := StepIds(BaseSteps(goal, agent, tool));
    assert ids == ["step-1", "step-2", "step-3"];
    assert ids[0][5] == '1' && ids[1][5] == '2' && ids[2][5] == '3';
  }

  lemma BaseStepsAreClosed(goal: string, agent: Option<string>, tool: Option<string>)
    ensures ClosedSteps(BaseSteps(goal, agent, tool))
  {
    var ids := StepIds(BaseSteps(goal, agent, tool));
    BaseStepsAreUnique(goal, agent, tool);
    assert ids[0] in Elements(ids) && ids[1] in Elements(ids);
  }

  lemma BaseStepsAreOrdered(goal: string, agent: Option<string>, tool: Option<string>)
    ensures var steps := BaseSteps(goal, agent, tool);
            UniqueIds(steps) && ClosedSteps(steps) && DependenciesFirst(StepDeps(steps), StepIds(steps))
  {
    var steps := BaseSteps(goal, agent, tool);
    var g, ids := StepDeps(steps), StepIds(steps);
    BaseStepsAreUnique(goal, agent, tool);
    BaseStepsAreClosed(goal, agent, tool);
    StepDepsEntry(steps, 0);
    StepDepsEntry(steps, 1);
    StepDepsEntry(steps, 2);
    assert ids[..1] == ["step-1"] && ids[..2] == ["step-1", "step-2"];
    forall i, b | 0 <= i < |ids| && Edge(g, ids[i], b) ensures b in ids[..i] {
      assert i == 0 || i == 1 || i == 2;
    }
  }
}

module GoalLoops {
  import opened Wrappers
  import opened StepEvaluators
  import opened Planners

  datatype FailureReason =
    | FailedAfterRetry(stepId: string)
    | StepEscalated(stepId: string)
    | ExecutionDeadlock
    | MaxIterationsExceeded

  datatype GoalEvent =
    | GoalStarted(goal: string)
    | StepPlanned(stepId: string, description: string)
    | StepExecuted(stepId: string, result: RawResult)
    | StepEvaluated(stepId: string, score: real, decision: Decision)
    | GoalCompleted(goal: string, steps: nat)
    | GoalFailed(reason: FailureReason)

  datatype Status = Completed | Failed

  // An executor that does not raise: its answer to its n-th call, made for a step. Any
  // behaviour, state of its own included, is some such function.
  type Executor = (Step, nat) -> RawResult

  /* The history of a run: which steps were run, in order, and what the executor answered. */

  // One step run: the first answer, and the second when a retry was asked for.
  datatype Attempt = Attempt(step: Step, first: RawResult, second: Option<RawResult>) {
    function Calls(): nat { if second.Some? then 2 else 1 }

    function Final(): RawResult { if second.Some? then second.value else first }

    predicate Passes(ev: StepEvaluator) {
      ev.Evaluate(Final(), Calls() - 1).decision == Proceed
    }

    function Events(ev: StepEvaluator): seq<GoalEvent> {
      var e := ev.Evaluate(first, 0);
      [StepPlanned(step.id, step.description), StepExecuted(step.id, first),
          StepEvaluated(step.id, e.score, e.decision)]
      + (if second.Some? then
           var e := ev.Evaluate(second.value, 1);
           [StepEvaluated(step.id, e.score, e.decision)]
         else [])
    }

    function Reason(): FailureReason {
      if second.Some? then FailedAfterRetry(step.id) else StepEscalated(step.id)
    }
  }

  function CallCount(attempts: seq<Attempt>): nat {
    if attempts == [] then 0 else CallCount(attempts[..|attempts| - 1]) + attempts[|attempts| - 1].Calls()
  }

  function RunStep(ev: StepEvaluator, exec: Executor, done: seq<Attempt>, step: Step): Attempt {
    var first := exec(step, CallCount(done));
    Attempt(step, first,
            if ev.Evaluate(first, 0).decision == Retry then Some(exec(step, CallCount(done) + 1)) else None)
  }

  function Done(attempts: seq<Attempt>): set<string> {
    set a | a in attempts :: a.step.id
  }

  predicate Ready(done: seq<Attempt>, step: Step) {
    step.id !in Done(done) && forall d | d in step.dependsOn :: d in Done(done)
  }

  function ResultsOf(attempts: seq<Attempt>): map<string, RawResult> {
    if attempts == [] then map[]
    else
      var last := attempts[|attempts| - 1];
      ResultsOf(attempts[..|attempts| - 1])[last.step.id := last.Final()]
  }

  function EventsOf(ev: StepEvaluator, attempts: seq<Attempt>): seq<GoalEvent> {
    if attempts == [] then [] else EventsOf(ev, attempts[..|attempts| - 1]) + attempts[|attempts| - 1].Events(ev)
  }

  /* What the loop does, told over histories: done holds the attempts that passed. */

  datatype Sweep = Going(done: seq<Attempt>) | Stopped(done: seq<Attempt>, failing: Attempt)

  function SweepSteps(ev: StepEvaluator, exec: Executor, done: seq<Attempt>, steps: seq<Step>): Sweep {
    if steps == [] then Going(done)
    else
      match SweepSteps(ev, exec, done, steps[..|steps| - 1])
      case Stopped(d, f) => Stopped(d, f)
      case Going(d) =>
        var step := steps[|steps| - 1];
        if !Ready(d, step) then Going(d)
        else
          var a := RunStep(ev, exec, d, step);
          if a.Passes(ev) then Going(d + [a]) else Stopped(d, a)
  }

  datatype Outcome =
    | AllDone(done: seq<Attempt>)
    | StepFailure(done: seq<Attempt>, failing: Attempt)
    | LoopFailure(done: seq<Attempt>, reason: FailureReason)

  datatype GoalLoop = GoalLoop(evaluator: StepEvaluator, maxIterations: int) {

    function RunFrom(steps: seq<Step>, exec: Executor, done: seq<Attempt>, iteration: nat): Outcome
      decreases maxIterations - iteration
    {
      if iteration >= maxIterations then LoopFailure(done, MaxIterationsExceeded)
      else
        match SweepSteps(evaluator, exec, done, steps)
        case Stopped(d, f) => StepFailure(d, f)
        case Going(d) =>
          if |ResultsOf(d)| == |steps| then AllDone(d)
          else if |d| == |done| then LoopFailure(d, ExecutionDeadlock)
          else RunFrom(steps, exec, d, iteration + 1)
    }

    function Outcome(plan: Plan, exec: Executor): Outcome {
      RunFrom(plan.steps, exec, [], 0)
    }

    function Log(goal: string, done: seq<Attempt>): seq<GoalEvent> {
      [GoalStarted(goal)] + EventsOf(evaluator, done)
    }

    function Terminal(goal: string, plan: Plan, outcome: Outcome): GoalEvent {
      match outcome
      case AllDone(_) => GoalCompleted(goal, |plan.steps|)
      case StepFailure(_, failing) => GoalFailed(failing.Reason())
      case LoopFailure(_, reason) => GoalFailed(reason)
    }

    // Every event of a run, in order.
    function Trace(goal: string, plan: Plan, outcome: Outcome): seq<GoalEvent> {
      Log(goal, outcome.done)
      + (if outcome.StepFailure? then outcome.failing.Events(evaluator) else [])
      + [Terminal(goal, plan, outcome)]
    }

    // One ready step: run it, evaluate it, and run it once more when a retry is advised.
    method ExecuteStep(step: Step, exec: Executor, calls: nat, ghost done: seq<Attempt>)
      returns (events: seq<GoalEvent>, result: RawResult, calls': nat, failure: Option<FailureReason>)
      requires calls == CallCount(done)
      ensures var attempt := RunStep(evaluator, exec, done, step);
              && events == attempt.Events(evaluator) && result == attempt.Final()
              && calls' == calls + attempt.Calls()
              && failure == if attempt.Passes(evaluator) then None else Some(attempt.Reason())
    {
      events := [StepPlanned(step.id, step.description)];
      result := exec(step, calls);
      calls' := calls + 1;
      events := events + [StepExecuted(step.id, result)];
      var evaluation := evaluator.Evaluate(result, 0);
      events := events + [StepEvaluated(step.id, evaluation.score, evaluation.decision)];
      failure := None;
      if evaluation.decision == Retry {
        result := exec(step, calls');
        calls' := calls' + 1;
        var retryEval := evaluator.Evaluate(result, 1);
        events := events + [StepEvaluated(step.id, retryEval.score, retryEval.decision)];
        if retryEval.decision != Proceed {
          failure := Some(FailedAfterRetry(step.id));
        }
      } else if evaluation.decision == Escalate {
        failure := Some(StepEscalated(step.id));
      }
    }

    // The dictionary, the call counter and the events say what the history says.
    ghost predicate Tracks(goal: string, done: seq<Attempt>, results: map<string, RawResult>, calls: nat,
            trace: seq<GoalEvent>) {
      results == ResultsOf(done) && calls == CallCount(done) && trace == Log(goal, done)
    }

    // One pass of the for loop over the steps; failed when a step failure ended the run.
    method SweepOnce(goal: string, steps: seq<Step>, exec: Executor, results0: map<string, RawResult>, calls0: nat,
                     trace0: seq<GoalEvent>, ghost before: seq<Attempt>)
      returns (failed: bool, progressed: bool, results: map<string, RawResult>, calls: nat, trace: seq<GoalEvent>)
      requires Tracks(goal, before, results0, calls0, trace0)
      ensures match SweepSteps(evaluator, exec, before, steps)
              case Going(d) =>
                !failed && Tracks(goal, d, results, calls, trace) && (progressed <==> |d| != |before|)
              case Stopped(d, f) =>
                failed && results == ResultsOf(d)
                    && trace == Log(goal, d) + f.Events(evaluator) + [GoalFailed(f.Reason())]
    {
      failed, progressed, results, calls, trace := false, false, results0, calls0, trace0;
      ghost var done := before;
      var i := 0;
      while i < |steps|
        invariant 0 <= i <= |steps|
        invariant SweepSteps(evaluator, exec, before, steps[..i]) == Going(done)
        invariant |done| >= |before| && (progressed <==> |done| > |before|)
        invariant Tracks(goal, done, results, calls, trace)
      {
        var step := steps[i];
        assert steps[..i + 1][..i] == steps[..i];
        i := i + 1;
        ResultsCoverDone(done);
        if step.id in results || exists d :: d in step.dependsOn && d !in results {
          continue;
        }
        ghost var attempt := RunStep(evaluator, exec, done, step);
        HistoryExtends(this, goal, done, attempt);
        var events, result, failure;
        events, result, calls, failure := ExecuteStep(step, exec, calls, done);
        trace := trace + events;
        if failure.Some? {
          SweepPrefixStops(evaluator, exec, before, steps, i);
          trace := trace + [GoalFailed(failure.value)];
          failed := true;
          return;
        }
        results := results[step.id := result];
        progressed := true;
        done := done + [attempt];
      }
      assert steps[..i] == steps;
    }

    // The loop itself, with the dictionary, the counters and the events it emits.
    method Run(goal: string, plan: Plan, exec: Executor)
      returns (status: Status, results: map<string, RawResult>, trace: seq<GoalEvent>)
      ensures status == (if Outcome(plan, exec).AllDone? then Completed else Failed)
      ensures results == ResultsOf(Outcome(plan, exec).done)
      ensures trace == Trace(goal, plan, Outcome(plan, exec))
    {
      trace := [GoalStarted(goal)];
      results := map[];
      var calls, iteration := 0, 0;
      ghost var done: seq<Attempt> := [];
      while iteration < maxIterations
        invariant 0 <= iteration
        invariant Outcome(plan, exec) == RunFrom(plan.steps, exec, done, iteration)
        invariant Tracks(goal, done, results, calls, trace)
        decreases maxIterations - iteration
      {
        iteration := iteration + 1;
        var failed, progressed;
        failed, progressed, results, calls, trace := SweepOnce(goal, plan.steps, exec, results, calls, trace, done);
        if failed {
          return Failed, results, trace;
        }
        if |results| == |plan.steps| {
          trace := trace + [GoalCompleted(goal, |plan.steps|)];
          return Completed, results, trace;
        }
        if !progressed {
          trace := trace + [GoalFailed(ExecutionDeadlock)];
          return Failed, results, trace;
        }
        done := SweepSteps(evaluator, exec, done, plan.steps).done;
      }
      trace := trace + [GoalFailed(MaxIterationsExceeded)];
      return Failed, results, trace;
    }
  }

  lemma {:induction false} ResultsCoverDone(attempts: seq<Attempt>)
    ensures ResultsOf(attempts).Keys == Done(attempts)
  {
    if attempts != [] {
      var front, last := attempts[..|attempts| - 1], attempts[|attempts| - 1];
      ResultsCoverDone(front);
      DoneGrows(front, last);
      assert attempts == front + [last];
    }
  }

  lemma DoneGrows(done: seq<Attempt>, a: Attempt)
    ensures Done(done + [a]) == Done(done) + {a.step.id}
  {
    forall id | id in Done(done) + {a.step.id} ensures id in Done(done + [a]) {
      if id in Done(done) {
        var b :| b in done && b.step.id == id;
        assert b in done + [a];
      } else {
        assert a in done + [a];
      }
    }
  }

  lemma HistoryExtends(loop: GoalLoop, goal: string, done: seq<Attempt>, a: Attempt)
    ensures ResultsOf(done + [a]) == ResultsOf(done)[a.step.id := a.Final()]
    ensures CallCount(done + [a]) == CallCount(done) + a.Calls()
    ensures loop.Log(goal, done + [a]) == loop.Log(goal, done) + a.Events(loop.evaluator)
  {
    assert (done + [a])[..|done|] == done;
  }

  // A step failure ends the sweep whatever steps follow.
  lemma {:induction false} SweepPrefixStops(ev: StepEvaluator, exec: Executor, done: seq<Attempt>, steps: seq<Step>,
          i: nat)
    requires i <= |steps|
    ensures SweepSteps(ev, exec, done, steps[..i]).Stopped? ==>
              SweepSteps(ev, exec, done, steps) == SweepSteps(ev, exec, done, steps[..i])
    decreases |steps|
  {
    if i == |steps| {
      assert steps[..i] == steps;
    } else {
      var front := steps[..|steps| - 1];
      SweepPrefixStops(ev, exec, done, front, i);
      assert front[..i] == steps[..i];
    }
  }
}
