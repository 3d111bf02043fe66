// What holds of every run of the goal loop.
module GoalLoopRuns {
  import opened Graphs
  import opened StepEvaluators
  import opened Planners
  import opened GoalLoops

  /* Safety: the history of passed attempts is one that the plan allows. */

  // The step was in the plan, was ready after the attempts before, and got the executor's answers.
  ghost predicate Genuine(ev: StepEvaluator, exec: Executor, steps: seq<Step>, before: seq<Attempt>, a: Attempt) {
    a.step in steps && Ready(before, a.step) && a == RunStep(ev, exec, before, a.step)
  }

  // Every attempt is genuine and passed.
  ghost predicate GoodHistory(ev: StepEvaluator, exec: Executor, steps: seq<Step>, done: seq<Attempt>) {
    done != [] ==>
      var front, last := done[..|done| - 1], done[|done| - 1];
      GoodHistory(ev, exec, steps, front) && Genuine(ev, exec, steps, front, last) && last.Passes(ev)
  }

  lemma GoodHistoryExtends(ev: StepEvaluator, exec: Executor, steps: seq<Step>, done: seq<Attempt>, a: Attempt)
    requires GoodHistory(ev, exec, steps, done)
    requires Genuine(ev, exec, steps, done, a) && a.Passes(ev)
    ensures GoodHistory(ev, exec, steps, done + [a])
  {
    assert (done + [a])[..|done|] == done;
  }

  lemma {:induction false} HistoryAt(ev: StepEvaluator, exec: Executor, steps: seq<Step>, done: seq<Attempt>, j: nat)
    requires GoodHistory(ev, exec, steps, done) && j < |done|
    ensures Genuine(ev, exec, steps, done[..j], done[j]) && done[j].Passes(ev)
    decreases |done|
  {
    if j < |done| - 1 {
      HistoryAt(ev, exec, steps, done[..|done| - 1], j);
      assert done[..|done| - 1][..j] == done[..j];
    }
  }

  lemma {:induction false} SweepIsSafe(ev: StepEvaluator, exec: Executor, all: seq<Step>, done: seq<Attempt>,
          steps: seq<Step>)
    requires GoodHistory(ev, exec, all, done) && forall s | s in steps :: s in all
    ensures var r := SweepSteps(ev, exec, done, steps);
            && GoodHistory(ev, exec, all, r.done)
            && done <= r.done
            && (r.Stopped? ==> Genuine(ev, exec, all, r.done, r.failing) && !r.failing.Passes(ev))
    decreases |steps|
  {
    if steps != [] {
      SweepIsSafe(ev, exec, all, done, steps[..|steps| - 1]);
      var r := SweepSteps(ev, exec, done, steps[..|steps| - 1]);
      var step := steps[|steps| - 1];
      assert step in steps;
      if r.Going? && Ready(r.done, step) {
        var a := RunStep(ev, exec, r.done, step);
        if a.Passes(ev) {
          GoodHistoryExtends(ev, exec, all, r.done, a);
        }
      }
    }
  }

  ghost predicate SafeOutcome(loop: GoalLoop, exec: Executor, steps: seq<Step>, o: Outcome) {
    && GoodHistory(loop.evaluator, exec, steps, o.done)
    && (o.StepFailure? ==> Genuine(loop.evaluator, exec, steps, o.done, o.failing) && !o.failing.Passes(loop.evaluator))
  }

  lemma {:induction false} RunFromIsSafe(loop: GoalLoop, exec: Executor, steps: seq<Step>, done: seq<Attempt>,
          iteration: nat)
    requires GoodHistory(loop.evaluator, exec, steps, done)
    ensures SafeOutcome(loop, exec, steps, loop.RunFrom(steps, exec, done, iteration))
    decreases loop.maxIterations - iteration
  {
    if iteration < loop.maxIterations {
      SweepIsSafe(loop.evaluator, exec, steps, done, steps);
      var r := SweepSteps(loop.evaluator, exec, done, steps);
      if r.Going? && |ResultsOf(r.done)| != |steps| && |r.done| != |done| {
        RunFromIsSafe(loop, exec, steps, r.done, iteration + 1);
      }
    }
  }

  // Every run: steps run only when ready, at most once each, and only passes are recorded.
  lemma EveryRunIsSafe(loop: GoalLoop, plan: Plan, exec: Executor)
    ensures SafeOutcome(loop, exec, plan.steps, loop.Outcome(plan, exec))
  {
    RunFromIsSafe(loop, exec, plan.steps, [], 0);
  }

  lemma DoneIds(done: seq<Attempt>, id: string)
    ensures id in Done(done) <==> exists j :: 0 <= j < |done| && done[j].step.id == id
  {
    if id in Done(done) {
      var a :| a in done && a.step.id == id;
    }
    if exists j :: 0 <= j < |done| && done[j].step.id == id {
      var j :| 0 <= j < |done| && done[j].step.id == id;
      assert done[j] in done;
    }
  }

  // How often the executor is called for a step id.
  function CallsFor(attempts: seq<Attempt>, id: string): nat {
    if attempts == [] then 0
    else
      CallsFor(attempts[..|attempts| - 1], id)
      + (var last := attempts[|attempts| - 1]; if last.step.id == id then last.Calls() else 0)
  }

  lemma {:induction false} AtMostTwoCalls(ev: StepEvaluator, exec: Executor, steps: seq<Step>, done: seq<Attempt>,
          id: string)
    requires GoodHistory(ev, exec, steps, done)
    ensures id in Done(done) ==> 1 <= CallsFor(done, id) <= 2
    ensures id !in Done(done) ==> CallsFor(done, id) == 0
  {
    if done != [] {
      var front, last := done[..|done| - 1], done[|done| - 1];
      AtMostTwoCalls(ev, exec, steps, front, id);
      DoneGrows(front, last);
      assert done == front + [last];
    }
  }

  // No run calls the executor more than twice for a step, the failing step included.
  lemma StepsRunAtMostTwice(loop: GoalLoop, plan: Plan, exec: Executor, id: string)
    ensures var o := loop.Outcome(plan, exec);
            CallsFor(o.done, id) + (if o.StepFailure? && o.failing.step.id == id then o.failing.Calls() else 0) <= 2
  {
    EveryRunIsSafe(loop, plan, exec);
    var o := loop.Outcome(plan, exec);
    AtMostTwoCalls(loop.evaluator, exec, plan.steps, o.done, id);
  }

  lemma {:induction false} ResultIsFinal(ev: StepEvaluator, exec: Executor, steps: seq<Step>, done: seq<Attempt>,
          j: nat)
    requires GoodHistory(ev, exec, steps, done) && j < |done|
    ensures done[j].step.id in ResultsOf(done)
    ensures ResultsOf(done)[done[j].step.id] == done[j].Final()
    decreases |done|
  {
    ResultsCoverDone(done);
    DoneIds(done, done[j].step.id);
    if j < |done| - 1 {
      var front, last := done[..|done| - 1], done[|done| - 1];
      ResultIsFinal(ev, exec, steps, front, j);
      DoneIds(front, done[j].step.id);
      assert front[j] == done[j];
    }
  }

  // Recorded results are closed under dependencies and each meets the proceed threshold.
  lemma RecordedResultsAreSound(loop: GoalLoop, plan: Plan, exec: Executor)
    ensures var results := ResultsOf(loop.Outcome(plan, exec).done);
            && (forall id | id in results :: Quality(results[id]) >= loop.evaluator.proceedThreshold)
            && (UniqueIds(plan.steps) ==>
                  forall s, d | s in plan.steps && s.id in results && d in s.dependsOn :: d in results)
  {
    EveryRunIsSafe(loop, plan, exec);
    var done := loop.Outcome(plan, exec).done;
    var results := ResultsOf(done);
    ResultsCoverDone(done);
    forall id | id in results ensures Quality(results[id]) >= loop.evaluator.proceedThreshold {
      DoneIds(done, id);
      var j :| 0 <= j < |done| && done[j].step.id == id;
      ResultIsFinal(loop.evaluator, exec, plan.steps, done, j);
      HistoryAt(loop.evaluator, exec, plan.steps, done, j);
    }
    if UniqueIds(plan.steps) {
      forall s, d | s in plan.steps && s.id in results && d in s.dependsOn ensures d in results {
        DoneIds(done, s.id);
        var j :| 0 <= j < |done| && done[j].step.id == s.id;
        HistoryAt(loop.evaluator, exec, plan.steps, done, j);
        SameIdSameStep(plan.steps, s, done[j].step);
        assert d in Done(done[..j]);
        DoneIds(done[..j], d);
        DoneIds(done, d);
      }
    }
  }

  lemma SameIdSameStep(steps: seq<Step>, s: Step, t: Step)
    requires UniqueIds(steps) && s in steps && t in steps && s.id == t.id
    ensures s == t
  {
    var i :| 0 <= i < |steps| && steps[i] == s;
    var j :| 0 <= j < |steps| && steps[j] == t;
    assert StepIds(steps)[i] == StepIds(steps)[j];
  }

  /* The same, read off the emitted events. */

  ghost predicate ProceedSeen(trace: seq<GoalEvent>, id: string) {
    exists k :: 0 <= k < |trace| && trace[k].StepEvaluated? && trace[k].stepId == id && trace[k].decision == Proceed
  }

  ghost predicate IsTerminal(e: GoalEvent) {
    e.GoalCompleted? || e.GoalFailed?
  }

  // Before a step is planned or executed, every dependency of it has been evaluated to proceed.
  ghost predicate EventsInOrder(steps: seq<Step>, trace: seq<GoalEvent>) {
    forall k | 0 <= k < |trace| && (trace[k].StepPlanned? || trace[k].StepExecuted?) ::
      exists s :: s in steps && s.id == trace[k].stepId && DependenciesSeen(s, trace[..k])
  }

  ghost predicate DependenciesSeen(s: Step, trace: seq<GoalEvent>) {
    forall d | d in s.dependsOn :: ProceedSeen(trace, d)
  }

  lemma SeenLater(trace: seq<GoalEvent>, k: nat, id: string)
    requires k <= |trace| && ProceedSeen(trace[..k], id)
    ensures ProceedSeen(trace, id)
  {
    var i :| 0 <= i < k && trace[..k][i].StepEvaluated? && trace[..k][i].stepId == id
        && trace[..k][i].decision == Proceed;
    assert trace[i].StepEvaluated?;
  }

  // Appending the events of a ready step keeps the events in order; when it passed it is seen.
  lemma StepEventsInOrder(ev: StepEvaluator, exec: Executor, steps: seq<Step>, done: seq<Attempt>, a: Attempt,
          trace: seq<GoalEvent>)
    requires EventsInOrder(steps, trace)
    requires forall id | id in Done(done) :: ProceedSeen(trace, id)
    requires Genuine(ev, exec, steps, done, a)
    ensures EventsInOrder(steps, trace + a.Events(ev))
    ensures forall id | id in Done(done) :: ProceedSeen(trace + a.Events(ev), id)
    ensures a.Passes(ev) ==> ProceedSeen(trace + a.Events(ev), a.step.id)
  {
    var longer := trace + a.Events(ev);
    forall k, id | |trace| <= k <= |longer| && id in Done(done) ensures ProceedSeen(longer[..k], id) {
      assert longer[..k][..|trace|] == trace;
      SeenLater(longer[..k], |trace|, id);
    }
    assert longer[..|longer|] == longer;
    forall k | 0 <= k < |longer| && (longer[k].StepPlanned? || longer[k].StepExecuted?)
      ensures exists s :: s in steps && s.id == longer[k].stepId && DependenciesSeen(s, longer[..k])
    {
      if k < |trace| {
        assert longer[..k] == trace[..k] && longer[k] == trace[k];
      } else {
        assert DependenciesSeen(a.step, longer[..k]);
      }
    }
    if a.Passes(ev) {
      assert longer[|longer| - 1].StepEvaluated?;
    }
  }

  lemma {:induction false} HistoryEventsInOrder(loop: GoalLoop, exec: Executor, steps: seq<Step>, goal: string,
          done: seq<Attempt>)
    requires GoodHistory(loop.evaluator, exec, steps, done)
    ensures EventsInOrder(steps, loop.Log(goal, done))
    ensures forall id | id in Done(done) :: ProceedSeen(loop.Log(goal, done), id)
  {
    if done != [] {
      var front, last := done[..|done| - 1], done[|done| - 1];
      HistoryEventsInOrder(loop, exec, steps, goal, front);
      HistoryExtends(loop, goal, front, last);
      DoneGrows(front, last);
      assert done == front + [last];
      StepEventsInOrder(loop.evaluator, exec, steps, front, last, loop.Log(goal, front));
    }
  }

  lemma {:induction false} StepEventsOnly(ev: StepEvaluator, done: seq<Attempt>)
    ensures forall e | e in EventsOf(ev, done) :: !e.GoalStarted? && !IsTerminal(e)
  {
    if done != [] {
      StepEventsOnly(ev, done[..|done| - 1]);
    }
  }

  // The trace of every run starts with goal.started, ends with its one terminal event, and
  // plans and executes a step only after all its dependencies were evaluated to proceed.
  lemma TracesAreWellFormed(loop: GoalLoop, goal: string, plan: Plan, exec: Executor)
    ensures var o := loop.Outcome(plan, exec);
            var trace := loop.Trace(goal, plan, o);
            && |trace| >= 2 && trace[0] == GoalStarted(goal)
            && (forall k | 0 <= k < |trace| :: IsTerminal(trace[k]) <==> k == |trace| - 1)
            && (trace[|trace| - 1].GoalCompleted? <==> o.AllDone?)
            && EventsInOrder(plan.steps, trace)
  {
    EveryRunIsSafe(loop, plan, exec);
    var o := loop.Outcome(plan, exec);
    HistoryEventsInOrder(loop, exec, plan.steps, goal, o.done);
    StepEventsOnly(loop.evaluator, o.done);
    var log := loop.Log(goal, o.done);
    var body := log + if o.StepFailure? then o.failing.Events(loop.evaluator) else [];
    assert EventsInOrder(plan.steps, body) by {
      if o.StepFailure? {
        StepEventsInOrder(loop.evaluator, exec, plan.steps, o.done, o.failing, log);
      } else {
        assert body == log;
      }
    }
    var trace := loop.Trace(goal, plan, o);
    assert trace == body + [loop.Terminal(goal, plan, o)];
    forall k | 0 <= k < |body| ensures !IsTerminal(body[k]) && trace[..k] == body[..k] {
      if 1 <= k < |log| {
        assert body[k] == EventsOf(loop.evaluator, o.done)[k - 1];
      }
    }
  }

  /* Verdicts. */

  lemma {:induction false} PlanIdCount(steps: seq<Step>)
    ensures |Elements(StepIds(steps))| <= |steps|
    ensures |Elements(StepIds(steps))| == |steps| <==> UniqueIds(steps)
  {
    IdCount(StepIds(steps));
  }

  lemma {:induction false} IdCount(ids: seq<string>)
    ensures |Elements(ids)| <= |ids|
    ensures |Elements(ids)| == |ids| <==> NoDuplicates(ids)
  {
    if NoDuplicates(ids) {
      DistinctCount(ids);
    } else {
      var i, j :| 0 <= i < j < |ids| && ids[i] == ids[j];
      var shorter := ids[..j] + ids[j + 1..];
      IdCount(shorter);
      forall x | x in Elements(ids) ensures x in Elements(shorter) {
        var k :| 0 <= k < |ids| && ids[k] == x;
        var k' := if k == j then i else k;
        assert x == if k' < j then shorter[k'] else shorter[k' - 1];
      }
      SubsetCount(Elements(ids), Elements(shorter));
    }
  }

  lemma DoneWithinPlan(ev: StepEvaluator, exec: Executor, steps: seq<Step>, done: seq<Attempt>)
    requires GoodHistory(ev, exec, steps, done)
    ensures Done(done) <= Elements(StepIds(steps))
    ensures |ResultsOf(done)| == |done|
    ensures |done| <= |Elements(StepIds(steps))| <= |steps|
    ensures |done| == |steps| <==> UniqueIds(steps) && forall s | s in steps :: s.id in Done(done)
  {
    ResultsCoverDone(done);
    DoneCount(ev, exec, steps, done);
    forall id | id in Done(done) ensures id in Elements(StepIds(steps)) {
      var a :| a in done && a.step.id == id;
      var j :| 0 <= j < |done| && done[j] == a;
      HistoryAt(ev, exec, steps, done, j);
      var i :| 0 <= i < |steps| && steps[i] == done[j].step;
      assert StepIds(steps)[i] == id;
    }
    SubsetCount(Done(done), Elements(StepIds(steps)));
    PlanIdCount(steps);
    if |done| == |steps| {
      forall s | s in steps ensures s.id in Done(done) {
        var i :| 0 <= i < |steps| && steps[i] == s;
        assert StepIds(steps)[i] == s.id;
      }
    }
    if UniqueIds(steps) && forall s | s in steps :: s.id in Done(done) {
      forall id | id in Elements(StepIds(steps)) ensures id in Done(done) {
        var i :| 0 <= i < |steps| && StepIds(steps)[i] == id;
        assert steps[i] in steps;
      }
      assert Done(done) == Elements(StepIds(steps));
    }
  }

  lemma {:induction false} DoneCount(ev: StepEvaluator, exec: Executor, steps: seq<Step>, done: seq<Attempt>)
    requires GoodHistory(ev, exec, steps, done)
    ensures |Done(done)| == |done|
  {
    if done != [] {
      var front, last := done[..|done| - 1], done[|done| - 1];
      DoneCount(ev, exec, steps, front);
      DoneGrows(front, last);
      assert done == front + [last];
    }
  }

  // A sweep that runs to its end leaves out only steps that waited for an unrecorded id.
  lemma {:induction false} SweepLeavesOut(ev: StepEvaluator, exec: Executor, done: seq<Attempt>, steps: seq<Step>,
          i: nat)
    requires i < |steps| && SweepSteps(ev, exec, done, steps).Going?
    requires steps[i].id !in Done(SweepSteps(ev, exec, done, steps).done)
    ensures exists d :: d in steps[i].dependsOn && d !in Done(done)
    decreases |steps|
  {
    var front := steps[..|steps| - 1];
    var r := SweepSteps(ev, exec, done, front);
    var full := SweepSteps(ev, exec, done, steps);
    SweepGrows(ev, exec, done, front);
    assert Done(done) <= Done(r.done) by { DoneMonotone(done, r.done); }
    if i < |steps| - 1 {
      if full.done != r.done {
        DoneGrows(r.done, full.done[|full.done| - 1]);
      }
      SweepLeavesOut(ev, exec, done, front, i);
    } else if Ready(r.done, steps[i]) {
      DoneGrows(r.done, RunStep(ev, exec, r.done, steps[i]));
    }
  }

  lemma {:induction false} SweepGrows(ev: StepEvaluator, exec: Executor, done: seq<Attempt>, steps: seq<Step>)
    ensures done <= SweepSteps(ev, exec, done, steps).done
  {
    if steps != [] {
      SweepGrows(ev, exec, done, steps[..|steps| - 1]);
    }
  }

  lemma DoneMonotone(a: seq<Attempt>, b: seq<Attempt>)
    requires a <= b
    ensures Done(a) <= Done(b)
  {
    forall id | id in Done(a) ensures id in Done(b) {
      DoneIds(a, id);
      DoneIds(b, id);
    }
  }
}
