// What the goal loop decides, said of qualities, thresholds and sweeps alone.
module GoalLoopDecisions {
  import opened Wrappers
  import opened StepEvaluators
  import opened Planners
  import opened GoalLoops
  import opened GoalLoopRuns

  // A first answer of this quality is tried once more.
  predicate RetryDue(ev: StepEvaluator, q: real) {
    ev.escalateThreshold <= q < ev.proceedThreshold && ev.retryLimit >= 1
  }

  lemma MissingQualityIsZero(output: string, q: real)
    ensures Quality(RawResult(None, output)) == 0.0 && Quality(RawResult(Some(q), output)) == q
  {
  }

  // The three decisions, by where the quality lies.
  lemma DecisionsAre(ev: StepEvaluator, raw: RawResult, retriesDone: int)
    ensures var q, e := Quality(raw), ev.Evaluate(raw, retriesDone);
            && e.score == q
            && (e.decision == Proceed <==> q >= ev.proceedThreshold)
            && (e.decision == Retry <==> ev.escalateThreshold <= q < ev.proceedThreshold && retriesDone < ev.retryLimit)
            && (e.decision == Escalate <==>
                  q < ev.proceedThreshold && (q < ev.escalateThreshold || ev.retryLimit <= retriesDone))
  {
  }

  // One step: its calls, when a second is made, when it passes, and its events in order.
  lemma StepRunIs(ev: StepEvaluator, exec: Executor, done: seq<Attempt>, step: Step)
    ensures var a, n := RunStep(ev, exec, done, step), CallCount(done);
            var q := Quality(exec(step, n));
            && a.step == step && a.first == exec(step, n)
            && a.second == (if RetryDue(ev, q) then Some(exec(step, n + 1)) else None)
            && (a.Passes(ev) <==>
                  q >= ev.proceedThreshold || (RetryDue(ev, q) && Quality(exec(step, n + 1)) >= ev.proceedThreshold))
    ensures var n := CallCount(done);
            var first, second := exec(step, n), exec(step, n + 1);
            RunStep(ev, exec, done, step).Events(ev)
            == [StepPlanned(step.id, step.description), StepExecuted(step.id, first),
                StepEvaluated(step.id, Quality(first),
                              if Quality(first) >= ev.proceedThreshold then Proceed
                              else if RetryDue(ev, Quality(first)) then Retry
                              else Escalate)]
               + (if !RetryDue(ev, Quality(first)) then []
                  else [StepEvaluated(step.id, Quality(second),
                                      if Quality(second) >= ev.proceedThreshold then Proceed
                                      else if ev.escalateThreshold <= Quality(second) && ev.retryLimit >= 2 then Retry
                                      else Escalate)])
  {
    var n := CallCount(done);
    DecisionsAre(ev, exec(step, n), 0);
    DecisionsAre(ev, exec(step, n + 1), 1);
  }

  // The attempts of a run, the failing one included.
  function Attempts(o: Outcome): seq<Attempt> {
    o.done + if o.StepFailure? then [o.failing] else []
  }

  ghost predicate Escalates(ev: StepEvaluator, a: Attempt) {
    Quality(a.first) < ev.proceedThreshold && !RetryDue(ev, Quality(a.first))
  }

  ghost predicate FailsRetry(ev: StepEvaluator, a: Attempt) {
    RetryDue(ev, Quality(a.first)) && a.second.Some? && Quality(a.second.value) < ev.proceedThreshold
  }

  lemma GenuineAttemptsPassOrFail(ev: StepEvaluator, exec: Executor, steps: seq<Step>, before: seq<Attempt>, a: Attempt)
    requires Genuine(ev, exec, steps, before, a)
    ensures a.Passes(ev) <==> !Escalates(ev, a) && !FailsRetry(ev, a)
    ensures a.second.Some? <==> RetryDue(ev, Quality(a.first))
  {
    StepRunIs(ev, exec, before, a.step);
  }

  lemma AttemptsOfDonePass(loop: GoalLoop, plan: Plan, exec: Executor, a: Attempt)
    requires a in loop.Outcome(plan, exec).done
    ensures !Escalates(loop.evaluator, a) && !FailsRetry(loop.evaluator, a)
  {
    EveryRunIsSafe(loop, plan, exec);
    var done := loop.Outcome(plan, exec).done;
    var j :| 0 <= j < |done| && done[j] == a;
    HistoryAt(loop.evaluator, exec, plan.steps, done, j);
    GenuineAttemptsPassOrFail(loop.evaluator, exec, plan.steps, done[..j], a);
  }

  // A run ends in an escalation exactly when a first answer falls below the proceed threshold and no
  // retry is due, and in a failed retry exactly when a second answer falls below it.
  lemma StepFailuresAre(loop: GoalLoop, goal: string, plan: Plan, exec: Executor, id: string)
    ensures var o := loop.Outcome(plan, exec);
            var trace := loop.Trace(goal, plan, o);
            && |trace| > 0
            && (trace[|trace| - 1] == GoalFailed(StepEscalated(id))
                <==> exists a :: a in Attempts(o) && a.step.id == id && Escalates(loop.evaluator, a))
            && (trace[|trace| - 1] == GoalFailed(FailedAfterRetry(id))
                <==> exists a :: a in Attempts(o) && a.step.id == id && FailsRetry(loop.evaluator, a))
  {
    var o, ev := loop.Outcome(plan, exec), loop.evaluator;
    EveryRunIsSafe(loop, plan, exec);
    OnlyLoopReasons(loop, exec, plan.steps, [], 0);
    forall a | a in o.done ensures !Escalates(ev, a) && !FailsRetry(ev, a) {
      AttemptsOfDonePass(loop, plan, exec, a);
    }
    if o.StepFailure? {
      GenuineAttemptsPassOrFail(ev, exec, plan.steps, o.done, o.failing);
      assert o.failing in Attempts(o);
    }
    assert forall a | a in Attempts(o) :: a in o.done || (o.StepFailure? && a == o.failing);
  }

  lemma {:induction false} OnlyLoopReasons(loop: GoalLoop, exec: Executor, steps: seq<Step>, done: seq<Attempt>,
                                           iteration: nat)
    ensures var o := loop.RunFrom(steps, exec, done, iteration);
            o.LoopFailure? ==> o.reason.ExecutionDeadlock? || o.reason.MaxIterationsExceeded?
    decreases loop.maxIterations - iteration
  {
    if iteration < loop.maxIterations {
      var r := SweepSteps(loop.evaluator, exec, done, steps);
      if r.Going? && |ResultsOf(r.done)| != |steps| && |r.done| != |done| {
        OnlyLoopReasons(loop, exec, steps, r.done, iteration + 1);
      }
    }
  }

  // What a run's last event says.
  lemma LastEventIs(loop: GoalLoop, goal: string, plan: Plan, exec: Executor)
    ensures var o := loop.Outcome(plan, exec);
            var trace := loop.Trace(goal, plan, o);
            && |trace| > 0
            && (o.AllDone? ==> trace[|trace| - 1] == GoalCompleted(goal, |plan.steps|))
            && (o.LoopFailure? ==> trace[|trace| - 1] == GoalFailed(o.reason))
            && (o.StepFailure? ==>
                  trace[|trace| - 1] == GoalFailed(if o.failing.second.Some? then FailedAfterRetry(o.failing.step.id)
                                                   else StepEscalated(o.failing.step.id)))
  {
  }

  /* The loop as so many sweeps. */

  function SweepTimes(ev: StepEvaluator, exec: Executor, steps: seq<Step>, n: nat): Sweep {
    if n == 0 then Going([])
    else
      match SweepTimes(ev, exec, steps, n - 1)
      case Stopped(d, f) => Stopped(d, f)
      case Going(d) => SweepSteps(ev, exec, d, steps)
  }

  // The n-th sweep went through, leaving something undone but something new done.
  ghost predicate GoesOn(ev: StepEvaluator, exec: Executor, steps: seq<Step>, n: nat)
    requires n > 0
  {
    var before, after := SweepTimes(ev, exec, steps, n - 1), SweepTimes(ev, exec, steps, n);
    after.Going? && |ResultsOf(after.done)| != |steps| && |after.done| != |before.done|
  }

  // How a run of n sweeps ends: by the last of them, or for want of another.
  ghost predicate EndsAfter(loop: GoalLoop, exec: Executor, steps: seq<Step>, o: Outcome, n: nat) {
    var last := SweepTimes(loop.evaluator, exec, steps, n);
    && (forall k | 0 < k < n :: GoesOn(loop.evaluator, exec, steps, k))
    && match o
       case AllDone(d) => n > 0 && last == Going(d) && |ResultsOf(d)| == |steps|
       case StepFailure(d, f) => n > 0 && last == Stopped(d, f)
       case LoopFailure(d, reason) =>
         && last == Going(d)
         && if reason.MaxIterationsExceeded?
            then n == (if loop.maxIterations < 0 then 0 else loop.maxIterations)
                 && (n > 0 ==> GoesOn(loop.evaluator, exec, steps, n))
            else reason.ExecutionDeadlock? && n > 0 && |ResultsOf(d)| != |steps|
                 && SweepTimes(loop.evaluator, exec, steps, n - 1) == Going(d)
  }

  // The sweeps have gone on up to here.
  ghost predicate Reached(loop: GoalLoop, exec: Executor, steps: seq<Step>, done: seq<Attempt>, n: nat) {
    && SweepTimes(loop.evaluator, exec, steps, n) == Going(done)
    && (n == 0 || n <= loop.maxIterations)
    && forall k | 0 < k <= n :: GoesOn(loop.evaluator, exec, steps, k)
  }

  lemma EndsAtCap(loop: GoalLoop, exec: Executor, steps: seq<Step>, done: seq<Attempt>, n: nat)
    requires Reached(loop, exec, steps, done, n) && n >= loop.maxIterations
    ensures EndsAfter(loop, exec, steps, loop.RunFrom(steps, exec, done, n), n)
  {
  }

  lemma EndsHere(loop: GoalLoop, exec: Executor, steps: seq<Step>, done: seq<Attempt>, n: nat)
    requires Reached(loop, exec, steps, done, n) && n < loop.maxIterations
    requires !GoesOn(loop.evaluator, exec, steps, n + 1)
    ensures EndsAfter(loop, exec, steps, loop.RunFrom(steps, exec, done, n), n + 1)
  {
    SameLengthSameDone(loop.evaluator, exec, done, steps);
  }

  lemma {:induction false} SweepsFrom(loop: GoalLoop, exec: Executor, steps: seq<Step>, done: seq<Attempt>, n: nat)
      returns (m: nat)
    requires Reached(loop, exec, steps, done, n)
    ensures m <= (if loop.maxIterations < 0 then 0 else loop.maxIterations)
    ensures EndsAfter(loop, exec, steps, loop.RunFrom(steps, exec, done, n), m)
    decreases loop.maxIterations - n
  {
    if n >= loop.maxIterations {
      m := n;
      EndsAtCap(loop, exec, steps, done, n);
    } else if GoesOn(loop.evaluator, exec, steps, n + 1) {
      m := SweepsFrom(loop, exec, steps, SweepTimes(loop.evaluator, exec, steps, n + 1).done, n + 1);
    } else {
      m := n + 1;
      EndsHere(loop, exec, steps, done, n);
    }
  }

  lemma {:induction false} SameLengthSameDone(ev: StepEvaluator, exec: Executor, done: seq<Attempt>, steps: seq<Step>)
    ensures done <= SweepSteps(ev, exec, done, steps).done
    decreases |steps|
  {
    if steps != [] {
      SameLengthSameDone(ev, exec, done, steps[..|steps| - 1]);
    }
  }

  // Every run is a number of sweeps, no more than the cap, and ends exactly as its last sweep says.
  lemma RunIsSweeps(loop: GoalLoop, plan: Plan, exec: Executor) returns (n: nat)
    ensures n <= (if loop.maxIterations < 0 then 0 else loop.maxIterations)
    ensures EndsAfter(loop, exec, plan.steps, loop.Outcome(plan, exec), n)
  {
    n := SweepsFrom(loop, exec, plan.steps, [], 0);
  }
}
