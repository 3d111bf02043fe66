// How runs of the goal loop end.
module GoalLoopVerdicts {
  import opened Wrappers
  import opened Graphs
  import opened StepEvaluators
  import opened Planners
  import opened GoalLoops
  import opened GoalLoopRuns

  ghost predicate AllRecorded(steps: seq<Step>, done: seq<Attempt>) {
    forall s | s in steps :: s.id in Done(done)
  }

  // What a sweep that runs to its end adds to the counts.
  lemma SweepCounts(ev: StepEvaluator, exec: Executor, steps: seq<Step>, done: seq<Attempt>)
    requires GoodHistory(ev, exec, steps, done)
    ensures var r := SweepSteps(ev, exec, done, steps);
            && GoodHistory(ev, exec, steps, r.done)
            && |done| <= |r.done| == |ResultsOf(r.done)| <= |steps|
            && (|r.done| == |done| ==> r.done == done)
  {
    SweepIsSafe(ev, exec, steps, done, steps);
    DoneWithinPlan(ev, exec, steps, SweepSteps(ev, exec, done, steps).done);
  }

  lemma {:induction false} LoopFailureIsIncomplete(loop: GoalLoop, exec: Executor, steps: seq<Step>,
          done: seq<Attempt>, iteration: nat)
    requires GoodHistory(loop.evaluator, exec, steps, done)
    ensures var o := loop.RunFrom(steps, exec, done, iteration);
            && (o.AllDone? ==> iteration < loop.maxIterations && |o.done| == |steps|)
            && (o.LoopFailure? ==> iteration >= loop.maxIterations || |o.done| != |steps|)
    decreases loop.maxIterations - iteration
  {
    if iteration < loop.maxIterations {
      SweepCounts(loop.evaluator, exec, steps, done);
      var r := SweepSteps(loop.evaluator, exec, done, steps);
      if r.Going? && |ResultsOf(r.done)| != |steps| && |r.done| != |done| {
        LoopFailureIsIncomplete(loop, exec, steps, r.done, iteration + 1);
      }
    }
  }

  // Completed is exactly: a sweep was allowed, the ids are unique and every step is recorded.
  lemma CompletedExactlyWhenAllRecorded(loop: GoalLoop, plan: Plan, exec: Executor)
    ensures var o := loop.Outcome(plan, exec);
            o.AllDone? <==> loop.maxIterations >= 1 && UniqueIds(plan.steps) && AllRecorded(plan.steps, o.done)
  {
    EveryRunIsSafe(loop, plan, exec);
    LoopFailureIsIncomplete(loop, exec, plan.steps, [], 0);
    DoneWithinPlan(loop.evaluator, exec, plan.steps, loop.Outcome(plan, exec).done);
  }

  /* Deadlock. */

  lemma {:induction false} DeadlockIsAnIdleSweep(loop: GoalLoop, exec: Executor, steps: seq<Step>, done: seq<Attempt>,
          iteration: nat)
    ensures var o := loop.RunFrom(steps, exec, done, iteration);
            o.LoopFailure? && o.reason.ExecutionDeadlock? ==>
              SweepSteps(loop.evaluator, exec, o.done, steps) == Going(o.done)
    decreases loop.maxIterations - iteration
  {
    if iteration < loop.maxIterations {
      var r := SweepSteps(loop.evaluator, exec, done, steps);
      SweepGrows(loop.evaluator, exec, done, steps);
      if r.Going? && |ResultsOf(r.done)| != |steps| {
        if |r.done| == |done| {
          assert r.done == done;
        } else {
          DeadlockIsAnIdleSweep(loop, exec, steps, r.done, iteration + 1);
        }
      }
    }
  }

  function Unfinished(steps: seq<Step>, done: seq<Attempt>): set<string> {
    Elements(StepIds(steps)) - Done(done)
  }

  lemma IncompleteMeansUnfinished(ev: StepEvaluator, exec: Executor, steps: seq<Step>, done: seq<Attempt>)
    requires UniqueIds(steps) && GoodHistory(ev, exec, steps, done) && |done| != |steps|
    ensures Unfinished(steps, done) != {}
  {
    DoneWithinPlan(ev, exec, steps, done);
    var s :| s in steps && s.id !in Done(done);
    var i :| 0 <= i < |steps| && steps[i] == s;
    assert StepIds(steps)[i] == s.id && s.id in Unfinished(steps, done);
  }

  lemma IdleSweepIsBlocked(ev: StepEvaluator, exec: Executor, steps: seq<Step>, done: seq<Attempt>)
    requires UniqueIds(steps) && ClosedSteps(steps)
    requires SweepSteps(ev, exec, done, steps) == Going(done)
    ensures Blocked(StepDeps(steps), Unfinished(steps, done))
  {
    var u := Unfinished(steps, done);
    forall a | a in u ensures WaitsWithin(StepDeps(steps), a, u) {
      var i :| 0 <= i < |steps| && StepIds(steps)[i] == a;
      SweepLeavesOut(ev, exec, done, steps, i);
      var d :| d in steps[i].dependsOn && d !in Done(done);
      StepDepsEntry(steps, i);
      assert steps[i] in steps && d in u && Edge(StepDeps(steps), a, d);
    }
  }

  // On a closed plan with unique ids, a reported deadlock is a dependency cycle among the
  // unfinished steps.
  lemma DeadlockMeansCycle(loop: GoalLoop, plan: Plan, exec: Executor) returns (c: seq<string>)
    requires UniqueIds(plan.steps) && ClosedSteps(plan.steps)
    requires var o := loop.Outcome(plan, exec); o.LoopFailure? && o.reason.ExecutionDeadlock?
    ensures IsCycle(StepDeps(plan.steps), c)
    ensures Elements(c) <= Unfinished(plan.steps, loop.Outcome(plan, exec).done)
  {
    var o := loop.Outcome(plan, exec);
    DeadlockIsAnIdleSweep(loop, exec, plan.steps, [], 0);
    IdleSweepIsBlocked(loop.evaluator, exec, plan.steps, o.done);
    EveryRunIsSafe(loop, plan, exec);
    LoopFailureIsIncomplete(loop, exec, plan.steps, [], 0);
    IncompleteMeansUnfinished(loop.evaluator, exec, plan.steps, o.done);
    c := BlockedSetHasCycle(StepDeps(plan.steps), Unfinished(plan.steps, o.done));
  }

  /* The iteration cap. */

  lemma {:induction false} CapNotReached(loop: GoalLoop, exec: Executor, steps: seq<Step>, done: seq<Attempt>,
          iteration: nat)
    requires GoodHistory(loop.evaluator, exec, steps, done)
    requires loop.maxIterations >= 1 && loop.maxIterations >= |steps|
    requires iteration <= |done| <= |steps| && (iteration > 0 ==> |done| != |steps|)
    ensures var o := loop.RunFrom(steps, exec, done, iteration);
            o.LoopFailure? ==> o.reason != MaxIterationsExceeded
    decreases loop.maxIterations - iteration
  {
    if iteration < loop.maxIterations {
      SweepCounts(loop.evaluator, exec, steps, done);
      var r := SweepSteps(loop.evaluator, exec, done, steps);
      if r.Going? && |ResultsOf(r.done)| != |steps| && |r.done| != |done| {
        CapNotReached(loop, exec, steps, r.done, iteration + 1);
      }
    }
  }

  // With a cap of at least one sweep and one per step, the cap is never what ends a run.
  lemma CapUnreachable(loop: GoalLoop, plan: Plan, exec: Executor)
    requires loop.maxIterations >= 1 && loop.maxIterations >= |plan.steps|
    ensures var o := loop.Outcome(plan, exec);
            o.LoopFailure? ==> o.reason == ExecutionDeadlock
  {
    CapNotReached(loop, exec, plan.steps, [], 0);
    OnlyTwoLoopReasons(loop, exec, plan.steps, [], 0);
  }

  lemma {:induction false} OnlyTwoLoopReasons(loop: GoalLoop, exec: Executor, steps: seq<Step>, done: seq<Attempt>,
          iteration: nat)
    ensures var o := loop.RunFrom(steps, exec, done, iteration);
            o.LoopFailure? ==> o.reason == ExecutionDeadlock || o.reason == MaxIterationsExceeded
    decreases loop.maxIterations - iteration
  {
    if iteration < loop.maxIterations {
      var r := SweepSteps(loop.evaluator, exec, done, steps);
      if r.Going? && |ResultsOf(r.done)| != |steps| && |r.done| != |done| {
        OnlyTwoLoopReasons(loop, exec, steps, r.done, iteration + 1);
      }
    }
  }

  /* Success: steps that pass at once, or land in the retry band and pass the second time. */

  ghost predicate PassesInTwo(ev: StepEvaluator, exec: Executor, s: Step) {
    forall n: nat ::
      var q := Quality(exec(s, n));
      || q >= ev.proceedThreshold
      || (ev.escalateThreshold <= q && ev.retryLimit >= 1 && Quality(exec(s, n + 1)) >= ev.proceedThreshold)
  }

  ghost predicate PlanPasses(ev: StepEvaluator, exec: Executor, steps: seq<Step>) {
    forall s | s in steps :: PassesInTwo(ev, exec, s)
  }

  lemma PassingAttempt(ev: StepEvaluator, exec: Executor, done: seq<Attempt>, s: Step)
    requires PassesInTwo(ev, exec, s)
    ensures RunStep(ev, exec, done, s).Passes(ev)
  {
    var n := CallCount(done);
    var q := Quality(exec(s, n));
    assert || q >= ev.proceedThreshold
           || (ev.escalateThreshold <= q && ev.retryLimit >= 1 && Quality(exec(s, n + 1)) >= ev.proceedThreshold);
  }

  lemma {:induction false} PassingSweepGoesOn(ev: StepEvaluator, exec: Executor, all: seq<Step>, done: seq<Attempt>,
          steps: seq<Step>)
    requires PlanPasses(ev, exec, all) && forall s | s in steps :: s in all
    ensures SweepSteps(ev, exec, done, steps).Going?
    decreases |steps|
  {
    if steps != [] {
      PassingSweepGoesOn(ev, exec, all, done, steps[..|steps| - 1]);
      assert steps[|steps| - 1] in steps;
      PassingAttempt(ev, exec, SweepSteps(ev, exec, done, steps[..|steps| - 1]).done, steps[|steps| - 1]);
    }
  }

  ghost predicate ChainsBounded(g: Deps, bound: int) {
    forall w {:trigger IsWalk(g, w)} | IsWalk(g, w) :: |w| <= bound
  }

  ghost predicate StartsChain(g: Deps, a: string, n: nat) {
    exists w :: IsWalk(g, w) && |w| == n && w[0] == a
  }

  ghost predicate DeepLeft(steps: seq<Step>, done: seq<Attempt>, n: nat) {
    forall a | a in Unfinished(steps, done) :: StartsChain(StepDeps(steps), a, n)
  }

  lemma ChainExtends(g: Deps, a: string, b: string, n: nat)
    requires Edge(g, a, b) && StartsChain(g, b, n) && n >= 1
    ensures StartsChain(g, a, n + 1)
  {
    var w :| IsWalk(g, w) && |w| == n && w[0] == b;
    var v := [a] + w;
    forall k | 0 <= k < |v| - 1 ensures Edge(g, v[k], v[k + 1]) {
      if k > 0 {
        assert Edge(g, w[k - 1], w[k]);
      }
    }
    assert IsWalk(g, v);
  }

  // What one more sweep leaves out starts a dependency chain one step longer.
  lemma SweepLeavesDeeper(ev: StepEvaluator, exec: Executor, steps: seq<Step>, done: seq<Attempt>, n: nat)
    requires UniqueIds(steps) && ClosedSteps(steps) && n >= 1
    requires DeepLeft(steps, done, n) && SweepSteps(ev, exec, done, steps).Going?
    ensures DeepLeft(steps, SweepSteps(ev, exec, done, steps).done, n + 1)
  {
    var r := SweepSteps(ev, exec, done, steps);
    forall a | a in Unfinished(steps, r.done) ensures StartsChain(StepDeps(steps), a, n + 1) {
      var i :| 0 <= i < |steps| && StepIds(steps)[i] == a;
      SweepLeavesOut(ev, exec, done, steps, i);
      var d :| d in steps[i].dependsOn && d !in Done(done);
      StepDepsEntry(steps, i);
      assert steps[i] in steps && d in Unfinished(steps, done) && Edge(StepDeps(steps), a, d);
      ChainExtends(StepDeps(steps), a, d, n);
    }
  }

  lemma LeftChainFits(steps: seq<Step>, done: seq<Attempt>, n: nat, bound: int)
    requires DeepLeft(steps, done, n) && Unfinished(steps, done) != {} && ChainsBounded(StepDeps(steps), bound)
    ensures n <= bound
  {
    var a :| a in Unfinished(steps, done);
    assert StartsChain(StepDeps(steps), a, n);
  }

  lemma IdleSweepIsUnbounded(ev: StepEvaluator, exec: Executor, steps: seq<Step>, done: seq<Attempt>, bound: int)
    requires UniqueIds(steps) && ClosedSteps(steps)
    requires SweepSteps(ev, exec, done, steps) == Going(done) && Unfinished(steps, done) != {}
    ensures !ChainsBounded(StepDeps(steps), bound)
  {
    IdleSweepIsBlocked(ev, exec, steps, done);
    var w := LongWalk(StepDeps(steps), Unfinished(steps, done), if bound < 0 then 0 else bound);
  }

  ghost predicate Progresses(ev: StepEvaluator, exec: Executor, steps: seq<Step>, done: seq<Attempt>, n: nat,
          bound: int) {
    var r := SweepSteps(ev, exec, done, steps);
    && r.Going? && GoodHistory(ev, exec, steps, r.done) && DeepLeft(steps, r.done, n + 1)
    && |ResultsOf(r.done)| == |r.done|
    && (|r.done| == |steps| || (|r.done| != |done| && n + 1 <= bound))
  }

  // One more sweep of passing steps records everything or makes progress within the bound.
  lemma SweepProgresses(ev: StepEvaluator, exec: Executor, steps: seq<Step>, done: seq<Attempt>, n: nat, bound: int)
    requires UniqueIds(steps) && ClosedSteps(steps) && PlanPasses(ev, exec, steps) && n >= 1
    requires ChainsBounded(StepDeps(steps), bound)
    requires GoodHistory(ev, exec, steps, done) && DeepLeft(steps, done, n)
    ensures Progresses(ev, exec, steps, done, n, bound)
  {
    PassingSweepGoesOn(ev, exec, steps, done, steps);
    SweepCounts(ev, exec, steps, done);
    var r := SweepSteps(ev, exec, done, steps);
    SweepLeavesDeeper(ev, exec, steps, done, n);
    if |r.done| != |steps| {
      IncompleteMeansUnfinished(ev, exec, steps, r.done);
      LeftChainFits(steps, r.done, n + 1, bound);
      if |r.done| == |done| {
        assert r.done == done;
        IdleSweepIsUnbounded(ev, exec, steps, done, bound);
      }
    }
  }

  lemma {:induction false} CompletesFrom(loop: GoalLoop, exec: Executor, steps: seq<Step>, done: seq<Attempt>,
          iteration: nat, bound: int)
    requires UniqueIds(steps) && ClosedSteps(steps) && PlanPasses(loop.evaluator, exec, steps)
    requires ChainsBounded(StepDeps(steps), bound)
    requires GoodHistory(loop.evaluator, exec, steps, done) && DeepLeft(steps, done, iteration + 1)
    requires iteration < loop.maxIterations && bound <= loop.maxIterations
    ensures loop.RunFrom(steps, exec, done, iteration).AllDone?
    decreases loop.maxIterations - iteration
  {
    SweepProgresses(loop.evaluator, exec, steps, done, iteration + 1, bound);
    var d := SweepSteps(loop.evaluator, exec, done, steps).done;
    if |d| != |steps| {
      CompletesFrom(loop, exec, steps, d, iteration + 1, bound);
    }
  }

  // A run completes when the cap is at least one and at least the longest dependency chain.
  lemma CompletesWithinLongestChain(loop: GoalLoop, plan: Plan, exec: Executor, bound: int)
    requires UniqueIds(plan.steps) && ClosedSteps(plan.steps)
    requires PlanPasses(loop.evaluator, exec, plan.steps)
    requires ChainsBounded(StepDeps(plan.steps), bound)
    requires loop.maxIterations >= 1 && loop.maxIterations >= bound
    ensures loop.Outcome(plan, exec).AllDone?
  {
    forall a | a in Unfinished(plan.steps, []) ensures StartsChain(StepDeps(plan.steps), a, 1) {
      assert IsWalk(StepDeps(plan.steps), [a]);
    }
    CompletesFrom(loop, exec, plan.steps, [], 0, bound);
  }

  lemma OrderedStepIsUnblocked(steps: seq<Step>, n: nat, recorded: set<string>)
    requires UniqueIds(steps) && DependenciesFirst(StepDeps(steps), StepIds(steps)) && n < |steps|
    requires forall i | 0 <= i < n :: StepIds(steps)[i] in recorded
    ensures forall d | d in steps[n].dependsOn :: d in recorded
  {
    StepDepsEntry(steps, n);
    forall d | d in steps[n].dependsOn ensures d in recorded {
      assert Edge(StepDeps(steps), StepIds(steps)[n], d);
      var k :| 0 <= k < n && StepIds(steps)[k] == d;
    }
  }

  lemma PassingStepIsRecorded(ev: StepEvaluator, exec: Executor, steps: seq<Step>, n: nat)
    requires n < |steps| && SweepSteps(ev, exec, [], steps[..n]).Going? && PassesInTwo(ev, exec, steps[n])
    requires forall d | d in steps[n].dependsOn :: d in Done(SweepSteps(ev, exec, [], steps[..n]).done)
    ensures SweepSteps(ev, exec, [], steps[..n + 1]).Going?
    ensures Done(SweepSteps(ev, exec, [], steps[..n + 1]).done)
            == Done(SweepSteps(ev, exec, [], steps[..n]).done) + {steps[n].id}
  {
    assert steps[..n + 1][..n] == steps[..n];
    var done := SweepSteps(ev, exec, [], steps[..n]).done;
    PassingAttempt(ev, exec, done, steps[n]);
    DoneGrows(done, RunStep(ev, exec, done, steps[n]));
  }

  lemma {:induction false} OrderedSweepRecordsAll(ev: StepEvaluator, exec: Executor, steps: seq<Step>, n: nat)
    requires UniqueIds(steps) && DependenciesFirst(StepDeps(steps), StepIds(steps))
    requires PlanPasses(ev, exec, steps) && n <= |steps|
    ensures var r := SweepSteps(ev, exec, [], steps[..n]);
            r.Going? && forall i | 0 <= i < n :: StepIds(steps)[i] in Done(r.done)
  {
    if n > 0 {
      OrderedSweepRecordsAll(ev, exec, steps, n - 1);
      OrderedStepIsUnblocked(steps, n - 1, Done(SweepSteps(ev, exec, [], steps[..n - 1]).done));
      assert steps[n - 1] in steps;
      PassingStepIsRecorded(ev, exec, steps, n - 1);
    }
  }

  // A plan listed in dependency order completes in one sweep, so any cap of at least one will do.
  lemma OrderedPlanCompletesInOneSweep(loop: GoalLoop, plan: Plan, exec: Executor)
    requires UniqueIds(plan.steps) && DependenciesFirst(StepDeps(plan.steps), StepIds(plan.steps))
    requires PlanPasses(loop.evaluator, exec, plan.steps)
    requires loop.maxIterations >= 1
    ensures loop.Outcome(plan, exec) == AllDone(SweepSteps(loop.evaluator, exec, [], plan.steps).done)
  {
    OrderedSweepRecordsAll(loop.evaluator, exec, plan.steps, |plan.steps|);
    assert plan.steps[..|plan.steps|] == plan.steps;
    forall s | s in plan.steps ensures s.id in Done(SweepSteps(loop.evaluator, exec, [], plan.steps).done) {
      var i :| 0 <= i < |plan.steps| && plan.steps[i] == s;
      assert StepIds(plan.steps)[i] == s.id;
    }
    SweepIsSafe(loop.evaluator, exec, plan.steps, [], plan.steps);
    DoneWithinPlan(loop.evaluator, exec, plan.steps, SweepSteps(loop.evaluator, exec, [], plan.steps).done);
  }

  /* When the steps pass, completion depends on the shape of the plan alone. */

  lemma AcyclicChainsAreBounded(steps: seq<Step>)
    requires UniqueIds(steps) && ClosedSteps(steps) && Acyclic(StepDeps(steps))
    ensures ChainsBounded(StepDeps(steps), if steps == [] then 1 else |steps|)
  {
    var g := StepDeps(steps);
    StepDepsClosed(steps);
    PlanIdCount(steps);
    forall w | IsWalk(g, w) ensures |w| <= if steps == [] then 1 else |steps| {
      if |w| > 1 {
        assert Edge(g, w[0], w[1]);
        ClosedWalksAreRegistered(g, w);
        AcyclicWalksAreShort(g, w);
      }
    }
  }

  lemma StepDepsClosed(steps: seq<Step>)
    requires UniqueIds(steps) && ClosedSteps(steps)
    ensures Closed(StepDeps(steps))
  {
    forall a, b | Edge(StepDeps(steps), a, b) ensures b in StepDeps(steps) {
      var i :| 0 <= i < |steps| && StepIds(steps)[i] == a;
      StepDepsEntry(steps, i);
      assert steps[i] in steps;
    }
  }

  // The order in which steps were recorded is a dependency order.
  lemma RecordedInOrder(ev: StepEvaluator, exec: Executor, steps: seq<Step>, done: seq<Attempt>)
    requires UniqueIds(steps) && GoodHistory(ev, exec, steps, done) && AllRecorded(steps, done)
    ensures ClosedSteps(steps) && Acyclic(StepDeps(steps))
  {
    var g := StepDeps(steps);
    var order := seq(|done|, j requires 0 <= j < |done| => done[j].step.id);
    forall j, b | 0 <= j < |order| && Edge(g, order[j], b) ensures b in order[..j] {
      HistoryAt(ev, exec, steps, done, j);
      var i :| 0 <= i < |steps| && steps[i] == done[j].step;
      StepDepsEntry(steps, i);
      DoneIds(done[..j], b);
      var k :| 0 <= k < j && done[..j][k].step.id == b;
      assert order[..j][k] == b;
    }
    forall i, j | 0 <= i < j < |order| ensures order[i] != order[j] {
      HistoryAt(ev, exec, steps, done, j);
      DoneIds(done[..j], done[j].step.id);
      assert done[..j][i] == done[i];
    }
    forall a | a in Elements(StepIds(steps)) ensures a in Elements(order) {
      var i :| 0 <= i < |steps| && StepIds(steps)[i] == a;
      assert steps[i] in steps;
      DoneIds(done, a);
      var j :| 0 <= j < |done| && done[j].step.id == a;
      assert order[j] == a;
    }
    OrderExcludesCycles(g, order);
    forall s, d | s in steps && d in s.dependsOn ensures d in Elements(StepIds(steps)) {
      DoneIds(done, s.id);
      var j :| 0 <= j < |done| && done[j].step.id == s.id;
      HistoryAt(ev, exec, steps, done, j);
      SameIdSameStep(steps, s, done[j].step);
      assert d in Done(done[..j]);
      DoneMonotone(done[..j], done);
      DoneWithinPlan(ev, exec, steps, done);
    }
  }

  // With passing steps and a cap of one sweep per step, a run completes exactly when ids are
  // unique, references are closed and there is no dependency cycle; otherwise it reports a deadlock.
  lemma CompletesExactlyOnGoodPlans(loop: GoalLoop, plan: Plan, exec: Executor)
    requires PlanPasses(loop.evaluator, exec, plan.steps)
    requires loop.maxIterations >= 1 && loop.maxIterations >= |plan.steps|
    ensures var o := loop.Outcome(plan, exec);
            && (o.AllDone? <==> UniqueIds(plan.steps) && ClosedSteps(plan.steps) && Acyclic(StepDeps(plan.steps)))
            && (o.AllDone? || (o.LoopFailure? && o.reason == ExecutionDeadlock))
  {
    var o := loop.Outcome(plan, exec);
    EveryRunIsSafe(loop, plan, exec);
    CompletedExactlyWhenAllRecorded(loop, plan, exec);
    CapUnreachable(loop, plan, exec);
    if o.AllDone? {
      RecordedInOrder(loop.evaluator, exec, plan.steps, o.done);
    }
    match o {
      case StepFailure(done, failing) => PassingAttempt(loop.evaluator, exec, done, failing.step);
      case _ =>
    }
    if UniqueIds(plan.steps) && ClosedSteps(plan.steps) && Acyclic(StepDeps(plan.steps)) {
      AcyclicChainsAreBounded(plan.steps);
      CompletesWithinLongestChain(loop, plan, exec, if plan.steps == [] then 1 else |plan.steps|);
    }
  }

  // The built-in planner's plan passes its own validation and completes in one sweep.
  lemma BuiltInPlanCompletes(loop: GoalLoop, goal: string, agent: Option<string>, tool: Option<string>, exec: Executor)
    requires loop.maxIterations >= 1
    requires PlanPasses(loop.evaluator, exec, BaseSteps(goal, agent, tool))
    ensures ClosedSteps(BaseSteps(goal, agent, tool))
    ensures loop.Outcome(Plan(goal, BaseSteps(goal, agent, tool)), exec).AllDone?
  {
    BaseStepsAreOrdered(goal, agent, tool);
    OrderedPlanCompletesInOneSweep(loop, Plan(goal, BaseSteps(goal, agent, tool)), exec);
  }
}
