// The orchestrator between its awaits: every call runs unbroken from one await to the next, and
// the steps of different calls interleave.
module OrchestratorSteps {
  import opened Wrappers
  import opened EventLifecycle

  // A call that waits: for the durable lookup of an id that was not in memory, or for the runner.
  datatype Task =
    | LookingUp(eventId: string, eventType: EventType, allowRetry: bool)
    | Running(eventId: string, eventType: EventType)
    | CancelLookingUp(eventId: string)

  // The status of the events in memory, the waiting calls, and the counters.
  datatype Shared = Shared(memory: map<string, Status>, tasks: map<nat, Task>, metrics: map<EventType, FlowStats>)

  function Counters(s: Shared, t: EventType): FlowStats {
    if t in s.metrics then s.metrics[t] else FlowStats(0, 0, 0)
  }

  datatype Action =
    // an execution whose id is in memory: check, count and write, without an await in between
    | Deliver(task: nat, eventId: string, eventType: EventType, allowRetry: bool)
    // an execution whose id is not in memory: it waits for the lookup first
    | DeliverUnknown(task: nat, eventId: string, eventType: EventType, allowRetry: bool)
    | LookupReturns(task: nat, row: Option<Status>)
    | RunnerSucceeds(task: nat)
    | RunnerRaises(task: nat)
    | CancelKnown(eventId: string)
    | CancelUnknown(task: nat, eventId: string)

  predicate Enabled(s: Shared, a: Action) {
    match a
    case Deliver(task, id, _, _) => task !in s.tasks && id in s.memory
    case DeliverUnknown(task, id, _, _) => task !in s.tasks && id !in s.memory
    case LookupReturns(task, _) => task in s.tasks && !s.tasks[task].Running?
    case RunnerSucceeds(task) => task in s.tasks && s.tasks[task].Running?
    case RunnerRaises(task) => task in s.tasks && s.tasks[task].Running?
    case CancelKnown(id) => id in s.memory
    case CancelUnknown(task, id) => task !in s.tasks && id !in s.memory
  }

  // From the status check to the wait for the runner.
  function Start(s: Shared, task: nat, id: string, t: EventType, allowRetry: bool, existing: Option<Status>): Shared {
    if existing.Some? && !allowRetry && Settled(existing.value) then s.(tasks := s.tasks - {task})
    else
      var c := Counters(s, t);
      Shared(s.memory[id := Processing], s.tasks[task := Running(id, t)], s.metrics[t := c.(started := c.started + 1)])
  }

  // From the status check of a cancel call to its end.
  function MarkCancelled(s: Shared, id: string, existing: Option<Status>): Shared {
    if existing == None || existing == Some(Completed) then s else s.(memory := s.memory[id := Cancelled])
  }

  function Apply(s: Shared, a: Action): Shared
    requires Enabled(s, a)
  {
    match a
    case Deliver(task, id, t, allowRetry) => Start(s, task, id, t, allowRetry, Some(s.memory[id]))
    case DeliverUnknown(task, id, t, allowRetry) => s.(tasks := s.tasks[task := LookingUp(id, t, allowRetry)])
    case LookupReturns(task, row) =>
      (match s.tasks[task]
       case LookingUp(id, t, allowRetry) => Start(s, task, id, t, allowRetry, row)
       case CancelLookingUp(id) => MarkCancelled(s, id, row).(tasks := s.tasks - {task})
       case Running(_, _) => s)
    case RunnerSucceeds(task) =>
      var id, t := s.tasks[task].eventId, s.tasks[task].eventType;
      var c := Counters(s, t);
      Shared(s.memory[id := Completed], s.tasks - {task}, s.metrics[t := c.(succeeded := c.succeeded + 1)])
    case RunnerRaises(task) =>
      var id, t := s.tasks[task].eventId, s.tasks[task].eventType;
      var c := Counters(s, t);
      Shared(s.memory[id := Failed], s.tasks - {task}, s.metrics[t := c.(failed := c.failed + 1)])
    case CancelKnown(id) => MarkCancelled(s, id, Some(s.memory[id]))
    case CancelUnknown(task, id) => s.(tasks := s.tasks[task := CancelLookingUp(id)])
  }

  ghost predicate IsRun(states: seq<Shared>, actions: seq<Action>) {
    && |states| == |actions| + 1
    && forall i | 0 <= i < |actions| :: Enabled(states[i], actions[i]) && states[i + 1] == Apply(states[i], actions[i])
  }

  // No call is ever stuck: each waiting one may go on, either way, and any id may be delivered or cancelled.
  lemma NoCallIsStuck(s: Shared, task: nat, id: string, t: EventType, allowRetry: bool, row: Option<Status>)
    ensures task in s.tasks ==>
              if s.tasks[task].Running? then Enabled(s, RunnerSucceeds(task)) && Enabled(s, RunnerRaises(task))
              else Enabled(s, LookupReturns(task, row))
    ensures task !in s.tasks ==>
              if id in s.memory then Enabled(s, Deliver(task, id, t, allowRetry)) && Enabled(s, CancelKnown(id))
              else Enabled(s, DeliverUnknown(task, id, t, allowRetry)) && Enabled(s, CancelUnknown(task, id))
  {
  }

  // A delivery that finds the status is a duplicate, and just ends, or it runs.
  lemma DeliveryStarts(s: Shared, task: nat, id: string, t: EventType, allowRetry: bool, found: Option<Status>)
    ensures var s', c := Start(s, task, id, t, allowRetry, found), Counters(s, t);
            if !allowRetry && found in {Some(Completed), Some(Cancelled), Some(Processing)}
            then s'.memory == s.memory && s'.metrics == s.metrics && s'.tasks == s.tasks - {task}
            else
              && s'.memory == s.memory[id := Processing] && s'.tasks == s.tasks[task := Running(id, t)]
              && s'.metrics == s.metrics[t := FlowStats(c.started + 1, c.succeeded, c.failed)]
  {
  }

  // When the runner is done, the event has its status, the counter of its type has one more, and the call ends.
  lemma RunnerEnds(s: Shared, task: nat)
    requires task in s.tasks && s.tasks[task].Running?
    ensures var r, good, bad := s.tasks[task], Apply(s, RunnerSucceeds(task)), Apply(s, RunnerRaises(task));
            var c := Counters(s, r.eventType);
            && good.memory == s.memory[r.eventId := Completed] && bad.memory == s.memory[r.eventId := Failed]
            && good.metrics == s.metrics[r.eventType := FlowStats(c.started, c.succeeded + 1, c.failed)]
            && bad.metrics == s.metrics[r.eventType := FlowStats(c.started, c.succeeded, c.failed + 1)]
            && good.tasks == bad.tasks == s.tasks - {task}
  {
  }

  // A cancel that finds an event which is not completed marks it; a row's event comes into memory by that.
  lemma CancelMarks(s: Shared, task: nat, id: string, row: Option<Status>)
    ensures id in s.memory ==>
              Apply(s, CancelKnown(id))
              == s.(memory := if s.memory[id] == Completed then s.memory else s.memory[id := Cancelled])
    ensures task in s.tasks && s.tasks[task] == CancelLookingUp(id) ==>
              Apply(s, LookupReturns(task, row))
              == s.(tasks := s.tasks - {task},
                    memory := if row in {None, Some(Completed)} then s.memory else s.memory[id := Cancelled])
  {
  }

  /* Counters. */

  function InFlight(s: Shared, t: EventType): set<nat> {
    set k | k in s.tasks && s.tasks[k].Running? && s.tasks[k].eventType == t
  }

  // Started is succeeded plus failed plus in flight, for each event type.
  ghost predicate CountersBalance(s: Shared) {
    forall t :: Counters(s, t).started == Counters(s, t).succeeded + Counters(s, t).failed + |InFlight(s, t)|
  }

  lemma OneMore(s: Shared, s': Shared, t: EventType, task: nat)
    requires task !in InFlight(s, t) && InFlight(s', t) == InFlight(s, t) + {task}
    ensures |InFlight(s', t)| == |InFlight(s, t)| + 1
  {
  }

  lemma OneLess(s: Shared, s': Shared, t: EventType, task: nat)
    requires task in InFlight(s, t) && InFlight(s', t) == InFlight(s, t) - {task}
    ensures |InFlight(s', t)| == |InFlight(s, t)| - 1
  {
  }

  lemma RunningBalances(s: Shared, s': Shared, task: nat, run: Task)
    requires CountersBalance(s) && run.Running? && (task in s.tasks ==> !s.tasks[task].Running?)
    requires s'.tasks == s.tasks[task := run]
    requires var c := Counters(s, run.eventType); s'.metrics == s.metrics[run.eventType := c.(started := c.started + 1)]
    ensures CountersBalance(s')
  {
    forall k ensures Counters(s', k).started == Counters(s', k).succeeded + Counters(s', k).failed + |InFlight(s', k)| {
      assert Counters(s, k).started == Counters(s, k).succeeded + Counters(s, k).failed + |InFlight(s, k)|;
      if k == run.eventType {
        assert InFlight(s', k) == InFlight(s, k) + {task};
        OneMore(s, s', k, task);
      } else {
        assert InFlight(s', k) == InFlight(s, k);
      }
    }
  }

  lemma StartBalances(s: Shared, task: nat, id: string, t: EventType, allowRetry: bool, existing: Option<Status>)
    requires CountersBalance(s) && (task in s.tasks ==> !s.tasks[task].Running?)
    ensures CountersBalance(Start(s, task, id, t, allowRetry, existing))
  {
    var s' := Start(s, task, id, t, allowRetry, existing);
    if existing.Some? && !allowRetry && Settled(existing.value) {
      SameInFlightBalances(s, s');
    } else {
      RunningBalances(s, s', task, Running(id, t));
    }
  }

  lemma FinishBalances(s: Shared, s': Shared, task: nat, succeeded: nat, failed: nat)
    requires CountersBalance(s) && task in s.tasks && s.tasks[task].Running?
    requires s'.tasks == s.tasks - {task} && succeeded + failed == 1
    requires var t := s.tasks[task].eventType; var c := Counters(s, t);
             s'.metrics == s.metrics[t := c.(succeeded := c.succeeded + succeeded, failed := c.failed + failed)]
    ensures CountersBalance(s')
  {
    forall k ensures Counters(s', k).started == Counters(s', k).succeeded + Counters(s', k).failed + |InFlight(s', k)| {
      assert Counters(s, k).started == Counters(s, k).succeeded + Counters(s, k).failed + |InFlight(s, k)|;
      if k == s.tasks[task].eventType {
        assert InFlight(s', k) == InFlight(s, k) - {task};
        OneLess(s, s', k, task);
      } else {
        assert InFlight(s', k) == InFlight(s, k);
      }
    }
  }

  lemma SameInFlightBalances(s: Shared, s': Shared)
    requires CountersBalance(s) && s'.metrics == s.metrics && forall t :: InFlight(s', t) == InFlight(s, t)
    ensures CountersBalance(s')
  {
    forall k ensures Counters(s', k).started == Counters(s', k).succeeded + Counters(s', k).failed + |InFlight(s', k)| {
      assert Counters(s', k) == Counters(s, k);
    }
  }

  lemma StepBalances(s: Shared, a: Action)
    requires Enabled(s, a) && CountersBalance(s)
    ensures CountersBalance(Apply(s, a))
  {
    match a {
      case Deliver(task, id, t, allowRetry) => StartBalances(s, task, id, t, allowRetry, Some(s.memory[id]));
      case LookupReturns(task, row) =>
        if s.tasks[task].LookingUp? {
          StartBalances(s, task, s.tasks[task].eventId, s.tasks[task].eventType, s.tasks[task].allowRetry, row);
        } else {
          SameInFlightBalances(s, Apply(s, a));
        }
      case RunnerSucceeds(task) => FinishBalances(s, Apply(s, a), task, 1, 0);
      case RunnerRaises(task) => FinishBalances(s, Apply(s, a), task, 0, 1);
      case _ => SameInFlightBalances(s, Apply(s, a));
    }
  }

  // Under every interleaving, reprocess calls and first deliveries included.
  lemma {:induction false} CountersAlwaysBalance(states: seq<Shared>, actions: seq<Action>)
    requires IsRun(states, actions) && CountersBalance(states[0])
    ensures CountersBalance(states[|actions|])
    decreases |actions|
  {
    if actions != [] {
      var n := |actions| - 1;
      CountersAlwaysBalance(states[..|states| - 1], actions[..n]);
      StepBalances(states[n], actions[n]);
    }
  }

  /* No double execution of a known id. */

  // Deliveries and cancels of ids that are in memory; no retries, no lookups.
  predicate Ordinary(a: Action) {
    match a
    case Deliver(_, _, _, allowRetry) => !allowRetry
    case RunnerSucceeds(_) => true
    case RunnerRaises(_) => true
    case CancelKnown(_) => true
    case _ => false
  }

  // An id in flight is processing or cancelled in memory, and is in flight once.
  ghost predicate OneExecutionEach(s: Shared) {
    && (forall k | k in s.tasks ::
          s.tasks[k].Running? && s.tasks[k].eventId in s.memory
              && s.memory[s.tasks[k].eventId] in {Processing, Cancelled})
    && (forall j, k | j in s.tasks && k in s.tasks && s.tasks[j].eventId == s.tasks[k].eventId :: j == k)
  }

  lemma OrdinaryStepKeepsOne(s: Shared, a: Action)
    requires Enabled(s, a) && Ordinary(a) && OneExecutionEach(s)
    ensures OneExecutionEach(Apply(s, a))
  {
  }

  // From a state with nothing in flight, no interleaving puts two executions of an id in flight.
  lemma {:induction false} NoDoubleExecution(states: seq<Shared>, actions: seq<Action>)
    requires IsRun(states, actions) && states[0].tasks == map[]
    requires forall a | a in actions :: Ordinary(a)
    ensures OneExecutionEach(states[|actions|])
    decreases |actions|
  {
    if actions != [] {
      var n := |actions| - 1;
      NoDoubleExecution(states[..|states| - 1], actions[..n]);
      assert actions[n] in actions;
      OrdinaryStepKeepsOne(states[n], actions[n]);
    }
  }

  // A cancelled or completed status in memory changes only because an execution of the id ends.
  lemma OnlyAnEndingOverwrites(s: Shared, a: Action, id: string)
    requires Enabled(s, a) && Ordinary(a) && id in s.memory && s.memory[id] in {Cancelled, Completed}
    ensures Apply(s, a).memory[id] != s.memory[id] ==>
              (a.RunnerSucceeds? || a.RunnerRaises?) && s.tasks[a.task].eventId == id
  {
  }

  // First deliveries of an id that is not in memory do run twice: both look the id up before
  // either is in memory. So it is in any state.
  lemma FirstDeliveriesMayDouble(s: Shared, id: string, t: EventType, a: nat, b: nat)
    requires id !in s.memory && a !in s.tasks && b !in s.tasks && a != b
    ensures DoubleDelivery(s, id, t, a, b)[4].tasks == s.tasks[a := Running(id, t)][b := Running(id, t)]
  {
  }

  function DoubleDelivery(s: Shared, id: string, t: EventType, a: nat, b: nat): (states: seq<Shared>)
    requires id !in s.memory && a !in s.tasks && b !in s.tasks && a != b
    ensures |states| == 5 && IsRun(states, DoubleActions(id, t, a, b))
  {
    var s1 := Apply(s, DeliverUnknown(a, id, t, false));
    var s2 := Apply(s1, DeliverUnknown(b, id, t, false));
    var s3 := Apply(s2, LookupReturns(a, None));
    [s, s1, s2, s3, Apply(s3, LookupReturns(b, None))]
  }

  function DoubleActions(id: string, t: EventType, a: nat, b: nat): seq<Action> {
    [DeliverUnknown(a, id, t, false), DeliverUnknown(b, id, t, false), LookupReturns(a, None), LookupReturns(b, None)]
  }

  // A cancel that meets a running execution does not last: the execution's end overwrites it.
  lemma CancelOfRunningIsOverwritten(s: Shared, task: nat)
    requires task in s.tasks && s.tasks[task].Running? && OneExecutionEach(s)
    ensures var id := s.tasks[task].eventId;
            var cancelled := Apply(s, CancelKnown(id));
            cancelled.memory[id] == Cancelled && Apply(cancelled, RunnerSucceeds(task)).memory[id] == Completed
  {
  }

  /* One id among all: whatever the others do. */

  // Anything but a delivery of this id that allows a retry.
  predicate PlainFor(a: Action, id: string) {
    match a
    case Deliver(_, i, _, allowRetry) => i == id ==> !allowRetry
    case DeliverUnknown(_, i, _, allowRetry) => i == id ==> !allowRetry
    case _ => true
  }

  ghost predicate IsPlainRun(s: Shared, states: seq<Shared>, actions: seq<Action>, id: string) {
    IsRun(states, actions) && states[0] == s && forall a | a in actions :: PlainFor(a, id)
  }

  function Executions(s: Shared, id: string): set<nat> {
    set k | k in s.tasks && s.tasks[k].Running? && s.tasks[k].eventId == id
  }

  ghost predicate NeverDoubled(s: Shared, id: string) {
    forall states: seq<Shared>, actions: seq<Action> :: IsPlainRun(s, states, actions, id) ==>
      |Executions(states[|actions|], id)| <= 1
  }

  // The id is in memory, and what waits for it is one execution at most, processing or cancelled.
  ghost predicate OneExecutionOf(s: Shared, id: string) {
    && id in s.memory
    && (forall k | k in s.tasks && s.tasks[k].eventId == id ::
          s.tasks[k].Running? && s.memory[id] in {Processing, Cancelled})
    && (forall j, k | j in s.tasks && k in s.tasks && s.tasks[j].eventId == id && s.tasks[k].eventId == id :: j == k)
  }

  lemma PlainStepKeepsOne(s: Shared, a: Action, id: string)
    requires Enabled(s, a) && PlainFor(a, id) && OneExecutionOf(s, id)
    ensures OneExecutionOf(Apply(s, a), id)
  {
  }

  lemma {:induction false} PlainRunKeepsOne(states: seq<Shared>, actions: seq<Action>, id: string)
    requires IsRun(states, actions) && (forall a | a in actions :: PlainFor(a, id))
    requires OneExecutionOf(states[0], id)
    ensures OneExecutionOf(states[|actions|], id)
    decreases |actions|
  {
    if actions != [] {
      var n := |actions| - 1;
      PlainRunKeepsOne(states[..|states| - 1], actions[..n], id);
      assert actions[n] in actions;
      PlainStepKeepsOne(states[n], actions[n], id);
    }
  }

  lemma OneIsAtMostOne(s: Shared, id: string)
    requires OneExecutionOf(s, id)
    ensures |Executions(s, id)| <= 1
  {
    if k :| k in Executions(s, id) {
      assert Executions(s, id) == {k};
    }
  }

  lemma {:induction false} AboveAll(ks: set<nat>) returns (n: nat)
    ensures forall k | k in ks :: k < n
    decreases ks
  {
    if ks == {} {
      n := 0;
    } else {
      var k :| k in ks;
      var m := AboveAll(ks - {k});
      n := if m <= k then k + 1 else m;
      forall j | j in ks ensures j < n {
        assert j == k || j in ks - {k};
      }
    }
  }

  // While nothing waits for an id, no interleaving of plain deliveries and cancels of it, and of anything
  // on other ids, puts two executions of it in flight, exactly if it is in memory.
  lemma NeverDoubledExactly(s: Shared, id: string)
    requires forall k | k in s.tasks :: s.tasks[k].eventId != id
    ensures NeverDoubled(s, id) <==> id in s.memory
  {
    if id in s.memory {
      forall states: seq<Shared>, actions: seq<Action> | IsPlainRun(s, states, actions, id)
        ensures |Executions(states[|actions|], id)| <= 1
      {
        PlainRunKeepsOne(states, actions, id);
        OneIsAtMostOne(states[|actions|], id);
      }
    } else {
      var a := AboveAll(s.tasks.Keys);
      FirstDeliveriesMayDouble(s, id, BoardReport, a, a + 1);
      var states, actions := DoubleDelivery(s, id, BoardReport, a, a + 1), DoubleActions(id, BoardReport, a, a + 1);
      assert IsPlainRun(s, states, actions, id);
      assert {a, a + 1} <= Executions(states[4], id);
      assert |{a, a + 1}| == 2;
      SubsetIsNoLarger({a, a + 1}, Executions(states[4], id));
    }
  }

  lemma {:induction false} SubsetIsNoLarger(a: set<nat>, b: set<nat>)
    requires a <= b
    ensures |a| <= |b|
  {
    if x :| x in a {
      SubsetIsNoLarger(a - {x}, b - {x});
    }
  }

  /* How long a settled status lasts. */

  // A waiting execution of the id, or, where it is completed, a cancel that waits for its row.
  predicate Threatens(task: Task, id: string, status: Status) {
    task.eventId == id && (task.CancelLookingUp? ==> status == Completed)
  }

  ghost predicate Unthreatened(s: Shared, id: string, status: Status) {
    id in s.memory && s.memory[id] == status && forall k | k in s.tasks :: !Threatens(s.tasks[k], id, status)
  }

  ghost predicate Lasts(s: Shared, id: string, status: Status) {
    forall states: seq<Shared>, actions: seq<Action> :: IsPlainRun(s, states, actions, id) ==>
      id in states[|actions|].memory && states[|actions|].memory[id] == status
  }

  lemma PlainStepKeepsSettled(s: Shared, a: Action, id: string, status: Status)
    requires Enabled(s, a) && PlainFor(a, id) && status in {Completed, Cancelled} && Unthreatened(s, id, status)
    ensures Unthreatened(Apply(s, a), id, status)
  {
  }

  lemma {:induction false} PlainRunKeepsSettled(states: seq<Shared>, actions: seq<Action>, id: string, status: Status)
    requires IsRun(states, actions) && (forall a | a in actions :: PlainFor(a, id))
    requires status in {Completed, Cancelled} && Unthreatened(states[0], id, status)
    ensures Unthreatened(states[|actions|], id, status)
    decreases |actions|
  {
    if actions != [] {
      var n := |actions| - 1;
      PlainRunKeepsSettled(states[..|states| - 1], actions[..n], id, status);
      assert actions[n] in actions;
      PlainStepKeepsSettled(states[n], actions[n], id, status);
    }
  }

  // The step of a threatening call that changes the status.
  function Overwrite(task: Task, k: nat): Action {
    match task
    case Running(_, _) => RunnerRaises(k)
    case LookingUp(_, _, _) => LookupReturns(k, None)
    case CancelLookingUp(_) => LookupReturns(k, Some(Failed))
  }

  // A completed or cancelled status of an id in memory lasts over every run of plain deliveries and cancels
  // of the id, and of anything on other ids, exactly if no execution of it waits and, where it is
  // completed, no cancel of it waits either.
  lemma SettledLastsExactly(s: Shared, id: string, status: Status)
    requires id in s.memory && s.memory[id] == status && status in {Completed, Cancelled}
    ensures Lasts(s, id, status) <==> forall k | k in s.tasks :: !Threatens(s.tasks[k], id, status)
  {
    if k :| k in s.tasks && Threatens(s.tasks[k], id, status) {
      var a := Overwrite(s.tasks[k], k);
      assert IsPlainRun(s, [s, Apply(s, a)], [a], id);
      assert Apply(s, a).memory[id] != status;
    } else {
      forall states: seq<Shared>, actions: seq<Action> | IsPlainRun(s, states, actions, id)
        ensures id in states[|actions|].memory && states[|actions|].memory[id] == status
      {
        PlainRunKeepsSettled(states, actions, id, status);
      }
    }
  }

  /* Calls that nothing interleaves with do what the sequential calls do. */

  function Statuses(memory: map<string, Event>): map<string, Status> {
    map id | id in memory :: memory[id].status
  }

  ghost predicate Shows(s: Shared, store: Store) {
    s.memory == Statuses(store.memory) && s.metrics == store.metrics
  }

  function RunnerStep(outcome: Outcome, task: nat): Action {
    if outcome.Succeeds? then RunnerSucceeds(task) else RunnerRaises(task)
  }

  lemma StatusesUpdate(memory: map<string, Event>, id: string, e: Event)
    ensures Statuses(memory[id := e]) == Statuses(memory)[id := e.status]
  {
  }

  lemma BeginIsDeliver(s: Shared, store: Store, task: nat, r: Request, allowRetry: bool)
    requires Shows(s, store) && r.eventId in store.memory && task !in s.tasks
    ensures var (t, response) := Begin(store, r, allowRetry);
            var d := Apply(s, Deliver(task, r.eventId, r.eventType, allowRetry));
            && Shows(d, t)
            && d.tasks == if response.None? then s.tasks[task := Running(r.eventId, r.eventType)] else s.tasks
  {
    StatusesUpdate(store.memory, r.eventId, NewEvent(r));
    assert s.tasks - {task} == s.tasks;
  }

  lemma FinishIsRunnerStep(s: Shared, store: Store, task: nat, r: Request, outcome: Outcome)
    requires Shows(s, store) && task in s.tasks && s.tasks[task] == Running(r.eventId, r.eventType)
    ensures Shows(Apply(s, RunnerStep(outcome, task)), Finish(store, r, outcome).0)
    ensures Apply(s, RunnerStep(outcome, task)).tasks == s.tasks - {task}
  {
    StatusesUpdate(store.memory, r.eventId, Final(r, outcome));
  }

  // A delivery of a known id whose two steps follow each other is the sequential execution.
  lemma UninterruptedDeliveryIsExecute(s: Shared, store: Store, task: nat, r: Request, allowRetry: bool,
          outcome: Outcome)
    requires Shows(s, store) && r.eventId in store.memory && task !in s.tasks
    ensures var d := Apply(s, Deliver(task, r.eventId, r.eventType, allowRetry));
            var after := if task !in d.tasks then d else Apply(d, RunnerStep(outcome, task));
            Shows(after, Execute(store, r, allowRetry, outcome).0) && after.tasks == s.tasks
  {
    BeginIsDeliver(s, store, task, r, allowRetry);
    ExecuteIsItsHalves(store, r, allowRetry, outcome);
    var d := Apply(s, Deliver(task, r.eventId, r.eventType, allowRetry));
    if task in d.tasks {
      FinishIsRunnerStep(d, Begin(store, r, allowRetry).0, task, r, outcome);
      assert s.tasks[task := Running(r.eventId, r.eventType)] - {task} == s.tasks;
    }
  }

  lemma ExecuteIsItsHalves(store: Store, r: Request, allowRetry: bool, outcome: Outcome)
    ensures var (t, response) := Begin(store, r, allowRetry);
            Execute(store, r, allowRetry, outcome).0 == if response.Some? then t else Finish(t, r, outcome).0
  {
  }

  // A cancel of a known id is one step, and it is the sequential one.
  lemma KnownCancelIsCancel(s: Shared, store: Store, id: string)
    requires Shows(s, store) && id in store.memory && store.memory[id].eventId == id
    ensures Shows(Apply(s, CancelKnown(id)), Cancel(store, id).0)
  {
    StatusesUpdate(store.memory, id, store.memory[id].(status := Cancelled));
  }
}
