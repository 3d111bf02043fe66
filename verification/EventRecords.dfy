// What is known of one event after any run of calls, read off the calls alone: which request counts, how far
// it came, and where its record is.
module EventRecords {
  import opened Wrappers
  import opened EventLifecycle

  // In the table only, in memory as its execution left it, or in memory as read back from the table.
  datatype Place = Away | Own | Reloaded

  datatype Life =
    | Unseen
    | Known(last: Request, status: Status, context: Content, result: Option<Content>, place: Place)

  // A delivery reaches the runner.
  predicate Starts(l: Life) {
    l.Unseen? || l.status == Failed
  }

  // A reprocess call reaches the runner.
  predicate Retries(l: Life) {
    l.Known? && l.status == Failed && l.place == Own
  }

  // The request that the last call hands to the runner, if it does.
  function Runs(calls: seq<Call>): Option<Request>
    requires calls != []
    decreases |calls|, 0
  {
    var front := calls[..|calls| - 1];
    match calls[|calls| - 1]
    case DeliverCall(r, _) => if Starts(LifeOf(front, r.eventId)) then Some(r) else None
    case CrashInDelivery(r, _) => if Starts(LifeOf(front, r.eventId)) then Some(r) else None
    case ReprocessCall(id, _) =>
      if Retries(LifeOf(front, id)) then Some(LifeOf(front, id).last) else None
    case CrashInReprocess(id, _) =>
      if Retries(LifeOf(front, id)) then Some(LifeOf(front, id).last) else None
    case _ => None
  }

  // The last call ends the process.
  predicate EndsProcess(calls: seq<Call>)
    requires calls != []
    decreases |calls|, 0
  {
    match calls[|calls| - 1]
    case RestartCall => true
    case CrashInDelivery(_, _) => true
    case CrashInReprocess(id, _) => Retries(LifeOf(calls[..|calls| - 1], id))
    case _ => false
  }

  function AfterRun(r: Request, call: Call): Life {
    match call
    case DeliverCall(_, Succeeds(x)) => Known(r, Completed, Given(r.context), Some(Given(x)), Own)
    case ReprocessCall(_, Succeeds(x)) => Known(r, Completed, Given(r.context), Some(Given(x)), Own)
    case DeliverCall(_, Raises(x)) => Known(r, Failed, Given(r.context), Some(Given(x)), Own)
    case ReprocessCall(_, Raises(x)) => Known(r, Failed, Given(r.context), Some(Given(x)), Own)
    case _ => Known(r, Processing, Given(r.context), None, Away)
  }

  // Cancelling a record that is in the table only reads it back, its columns as text.
  function AfterCancel(l: Life): Life {
    if l.Unseen? || l.status == Completed then l
    else if l.place != Away then l.(status := Cancelled)
    else Known(l.last, Cancelled, TextOf(l.context), AsText(l.result), Reloaded)
  }

  function AsText(result: Option<Content>): Option<Content> {
    match result
    case None => None
    case Some(c) => Some(TextOf(c))
  }

  function LifeOf(calls: seq<Call>, id: string): Life
    decreases |calls|, 1
  {
    if calls == [] then Unseen
    else
      var before, last := LifeOf(calls[..|calls| - 1], id), calls[|calls| - 1];
      var run := Runs(calls);
      if run.Some? && run.value.eventId == id then AfterRun(run.value, last)
      else if last == CancelCall(id) then AfterCancel(before)
      else if EndsProcess(calls) && before.Known? then before.(place := Away)
      else before
  }

  // The record in memory, the dead letter and the row of the event, to the last field.
  ghost predicate Records(s: Store, id: string, l: Life) {
    match l
    case Unseen => id !in s.memory && id !in s.dead && id !in s.rows
    case Known(r, status, context, result, place) =>
      && r.eventId == id && r.tenantId != ""
      && (place == Own ==> context == Given(r.context))
      && (status == Processing ==> place == Away)
      && id in s.rows && s.rows[id] == Row(r.eventType, context, r.tenantId, status, result)
      && (id in s.memory <==> place != Away)
      && (place != Away ==>
            s.memory[id] == Event(id, r.eventType, if place == Own then r.entityId else id, context, r.tenantId,
              status, result))
      && (id in s.dead <==> place == Own && status != Completed)
      && (id in s.dead ==> s.dead[id] == s.memory[id])
  }

  // The reply to a delivery.
  function DeliveryReply(l: Life, outcome: Outcome): Response {
    if Starts(l) then
      match outcome
      case Succeeds(result) => Done(result)
      case Raises(error) => RunFailed(error)
    else Duplicate(if l.place == Away then AsText(l.result) else l.result)
  }

  function ReprocessReply(l: Life, outcome: Outcome): Response {
    if l.Unseen? || l.status != Failed then NotFound
    else if l.place != Own then InvalidRequest
    else DeliveryReply(l, outcome)
  }

  function CancelReply(l: Life): Response {
    if l.Unseen? then NotFound else if l.status == Completed then AlreadyCompleted else WasCancelled
  }

  /* One call. */

  lemma ExecuteRecords(s: Store, l: Life, r: Request, allowRetry: bool, outcome: Outcome)
    requires Records(s, r.eventId, l) && r.tenantId != "" && (allowRetry ==> Retries(l))
    ensures var (t, response) := Execute(s, r, allowRetry, outcome);
            && response == DeliveryReply(l, outcome)
            && if Starts(l) then Records(t, r.eventId, AfterRun(r, DeliverCall(r, outcome))) else t == s
  {
    ExecuteWrites(s, r, allowRetry, outcome);
  }

  lemma ExecuteSparesOthers(s: Store, l: Life, r: Request, allowRetry: bool, outcome: Outcome, id: string)
    requires Records(s, id, l) && r.tenantId != "" && id != r.eventId
    ensures Records(Execute(s, r, allowRetry, outcome).0, id, l)
  {
    ExecuteWrites(s, r, allowRetry, outcome);
  }

  lemma CancelRecords(s: Store, l: Life, id: string)
    requires Records(s, id, l)
    ensures Records(Cancel(s, id).0, id, AfterCancel(l)) && Cancel(s, id).1 == CancelReply(l)
  {
  }

  lemma CancelSparesOthers(s: Store, l: Life, m: Life, i: string, id: string)
    requires Records(s, id, l) && Records(s, i, m) && i != id
    ensures Records(Cancel(s, i).0, id, l)
  {
  }

  function AwayNow(l: Life): Life {
    if l.Unseen? then l else l.(place := Away)
  }

  lemma CrashRecords(s: Store, l: Life, r: Request, allowRetry: bool, succeeded: bool)
    requires Records(s, r.eventId, l) && r.tenantId != "" && (allowRetry ==> Retries(l))
    ensures Records(Crash(s, r, allowRetry, succeeded), r.eventId,
              if Starts(l) then Known(r, Processing, Given(r.context), None, Away) else AwayNow(l))
  {
    CrashLeaves(s, r, allowRetry, succeeded);
  }

  lemma CrashSparesOthers(s: Store, l: Life, r: Request, allowRetry: bool, succeeded: bool, id: string)
    requires Records(s, id, l) && r.tenantId != "" && id != r.eventId
    ensures Records(Crash(s, r, allowRetry, succeeded), id, AwayNow(l))
  {
    CrashLeaves(s, r, allowRetry, succeeded);
  }

  // The request of a retry is the one that failed.
  lemma RetryIsTheRequest(s: Store, l: Life, id: string)
    requires Records(s, id, l)
    ensures if Retries(l) then RetryOf(s, id) == Success(l.last)
            else RetryOf(s, id) == Failure(ReprocessReply(l, Raises("")))
  {
  }

  lemma ReprocessRecords(s: Store, l: Life, id: string, outcome: Outcome)
    requires Records(s, id, l)
    ensures var (t, response) := Reprocess(s, id, outcome);
            && response == ReprocessReply(l, outcome)
            && Records(t, id, if Retries(l) then AfterRun(l.last, ReprocessCall(id, outcome)) else l)
  {
    RetryIsTheRequest(s, l, id);
    if Retries(l) {
      ExecuteRecords(s, l, l.last, true, outcome);
    }
  }

  lemma ReprocessSparesOthers(s: Store, l: Life, m: Life, i: string, outcome: Outcome, id: string)
    requires Records(s, id, l) && Records(s, i, m) && i != id
    ensures Records(Reprocess(s, i, outcome).0, id, l)
  {
    RetryIsTheRequest(s, m, i);
    if Retries(m) {
      ExecuteSparesOthers(s, l, m.last, true, outcome, id);
    }
  }

  // What a reprocess call refuses, whatever the store: no event, one that did not fail, one without a tenant,
  // and one whose context is only the text of a column.
  lemma RetryRefusals(s: Store, id: string, e: Event)
    requires if id in s.dead then e == s.dead[id] else id in s.rows && e == EventOf(id, s.rows[id])
    ensures RetryOf(s, id)
         == if e.status != Failed then Failure(NotFound)
            else if e.tenantId == "" then Failure(MissingTenant)
            else if e.context.TextOf? then Failure(InvalidRequest)
            else Success(Request(e.eventId, e.eventType, e.entityId, e.context.fields, e.tenantId))
  {
  }

  /* Whole runs. */

  lemma StepRecords(calls: seq<Call>, s: Store, id: string, other: string)
    requires calls != [] && Admissible(calls[|calls| - 1])
    requires var front := calls[..|calls| - 1];
             Records(s, id, LifeOf(front, id)) && Records(s, other, LifeOf(front, other))
    requires match calls[|calls| - 1]
             case DeliverCall(r, _) => other == r.eventId
             case CrashInDelivery(r, _) => other == r.eventId
             case ReprocessCall(i, _) => other == i
             case CrashInReprocess(i, _) => other == i
             case CancelCall(i) => other == i
             case RestartCall => true
    ensures Records(Step(s, calls[|calls| - 1]), id, LifeOf(calls, id))
  {
    var front := calls[..|calls| - 1];
    var l, m := LifeOf(front, id), LifeOf(front, other);
    match calls[|calls| - 1] {
      case DeliverCall(r, outcome) =>
        if other == id { ExecuteRecords(s, l, r, false, outcome); }
        else { ExecuteSparesOthers(s, l, r, false, outcome, id); }
      case CrashInDelivery(r, succeeded) =>
        if other == id { CrashRecords(s, l, r, false, succeeded); }
        else { CrashSparesOthers(s, l, r, false, succeeded, id); }
      case ReprocessCall(i, outcome) =>
        if other == id { ReprocessRecords(s, l, id, outcome); }
        else { ReprocessSparesOthers(s, l, m, i, outcome, id); }
      case CrashInReprocess(i, succeeded) =>
        RetryIsTheRequest(s, m, i);
        if Retries(m) {
          if other == id { CrashRecords(s, l, m.last, true, succeeded); }
          else { CrashSparesOthers(s, l, m.last, true, succeeded, id); }
        }
      case CancelCall(i) =>
        if other == id { CancelRecords(s, l, id); }
        else { CancelSparesOthers(s, l, m, i, id); }
      case RestartCall =>
    }
  }

  // The id that a call is about.
  function IdOf(call: Call): string {
    match call
    case DeliverCall(r, _) => r.eventId
    case CrashInDelivery(r, _) => r.eventId
    case ReprocessCall(i, _) => i
    case CrashInReprocess(i, _) => i
    case CancelCall(i) => i
    case RestartCall => ""
  }

  // After every run, the records of every event are those its calls left: the fields of the last delivery
  // that reached the runner, with what came of it since.
  lemma {:induction false} RecordsAre(calls: seq<Call>, id: string)
    requires forall c | c in calls :: Admissible(c)
    ensures Records(Run(calls), id, LifeOf(calls, id))
    decreases |calls|
  {
    if calls != [] {
      var front, last := calls[..|calls| - 1], calls[|calls| - 1];
      assert last in calls;
      RecordsAre(front, id);
      RecordsAre(front, IdOf(last));
      StepRecords(calls, Run(front), id, IdOf(last));
    }
  }

  // After every run, these are the replies to the next call.
  lemma RepliesAre(calls: seq<Call>, r: Request, id: string, outcome: Outcome)
    requires r.tenantId != "" && forall c | c in calls :: Admissible(c)
    ensures Execute(Run(calls), r, false, outcome).1 == DeliveryReply(LifeOf(calls, r.eventId), outcome)
    ensures Reprocess(Run(calls), id, outcome).1 == ReprocessReply(LifeOf(calls, id), outcome)
    ensures Cancel(Run(calls), id).1 == CancelReply(LifeOf(calls, id))
  {
    RecordsAre(calls, r.eventId);
    RecordsAre(calls, id);
    ExecuteRecords(Run(calls), LifeOf(calls, r.eventId), r, false, outcome);
    ReprocessRecords(Run(calls), LifeOf(calls, id), id, outcome);
    CancelRecords(Run(calls), LifeOf(calls, id), id);
  }

  // A failed delivery that reached the runner can be retried as it was delivered.
  lemma FailedDeliveryIsRetried(calls: seq<Call>, r: Request, error: string)
    requires r.tenantId != "" && forall c | c in calls :: Admissible(c)
    requires Starts(LifeOf(calls, r.eventId))
    ensures RetryOf(Run(calls + [DeliverCall(r, Raises(error))]), r.eventId) == Success(r)
  {
    var after := calls + [DeliverCall(r, Raises(error))];
    assert after[..|after| - 1] == calls;
    RecordsAre(after, r.eventId);
    RetryIsTheRequest(Run(after), LifeOf(after, r.eventId), r.eventId);
  }

  // A delivery of an event that completed in this process answers with what the runner gave.
  lemma DuplicateAnswersTheResult(calls: seq<Call>, r: Request, again: Request, result: string, outcome: Outcome)
    requires r.tenantId != "" && again.tenantId != "" && again.eventId == r.eventId
    requires Starts(LifeOf(calls, r.eventId)) && forall c | c in calls :: Admissible(c)
    ensures Execute(Run(calls + [DeliverCall(r, Succeeds(result))]), again, false, outcome).1
         == Duplicate(Some(Given(result)))
  {
    var after := calls + [DeliverCall(r, Succeeds(result))];
    assert after[..|after| - 1] == calls;
    RepliesAre(after, again, r.eventId, outcome);
  }

  // The k-th call delivers the event and reaches the runner.
  ghost predicate StartsAt(calls: seq<Call>, id: string, k: nat) {
    && k < |calls| && (calls[k].DeliverCall? || calls[k].CrashInDelivery?)
    && calls[k].request.eventId == id && Starts(LifeOf(calls[..k], id))
  }

  lemma {:induction false} LastHasItsId(calls: seq<Call>, id: string)
    ensures LifeOf(calls, id).Known? ==> LifeOf(calls, id).last.eventId == id
    decreases |calls|
  {
    if calls != [] {
      LastHasItsId(calls[..|calls| - 1], id);
    }
  }

  // The request that counts is the one last delivered among those that reached the runner.
  lemma {:induction false} LastDelivery(calls: seq<Call>, id: string) returns (k: nat)
    requires LifeOf(calls, id).Known?
    ensures StartsAt(calls, id, k) && calls[k].request == LifeOf(calls, id).last
    ensures forall m: nat | StartsAt(calls, id, m) :: m <= k
    decreases |calls|
  {
    var n := |calls| - 1;
    var front := calls[..n];
    if StartsAt(calls, id, n) {
      k := n;
    } else {
      LastHasItsId(front, IdOf(calls[n]));
      k := LastDelivery(front, id);
      assert front[..k] == calls[..k];
      forall m: nat | StartsAt(calls, id, m) ensures m <= k {
        assert front[..m] == calls[..m];
        assert StartsAt(front, id, m);
      }
    }
  }

  /* What is counted. */

  predicate Succeeded(call: Call) {
    match call
    case DeliverCall(_, outcome) => outcome.Succeeds?
    case ReprocessCall(_, outcome) => outcome.Succeeds?
    case CrashInDelivery(_, succeeded) => succeeded
    case CrashInReprocess(_, succeeded) => succeeded
    case _ => false
  }

  // Runner calls of a type since the process began.
  function Counts(calls: seq<Call>, t: EventType): FlowStats {
    if calls == [] || EndsProcess(calls) then FlowStats(0, 0, 0)
    else
      var before, run := Counts(calls[..|calls| - 1], t), Runs(calls);
      if run.Some? && run.value.eventType == t then OneMore(before, Succeeded(calls[|calls| - 1])) else before
  }

  function OneMore(c: FlowStats, succeeded: bool): FlowStats {
    if succeeded then FlowStats(c.started + 1, c.succeeded + 1, c.failed)
    else FlowStats(c.started + 1, c.succeeded, c.failed + 1)
  }

  // Runner calls for an id that succeeded.
  function SuccessCount(calls: seq<Call>, id: string): nat {
    if calls == [] then 0
    else
      var before, run := SuccessCount(calls[..|calls| - 1], id), Runs(calls);
      if run.Some? && run.value.eventId == id && Succeeded(calls[|calls| - 1]) then before + 1 else before
  }

  lemma ExecuteCountsAs(s: Store, r: Request, allowRetry: bool, outcome: Outcome, t: EventType, id: string)
    requires Begin(s, r, allowRetry).1.None?
    ensures var after, ok := Execute(s, r, allowRetry, outcome).0, outcome.Succeeds?;
            && Stats(after, t) == (if r.eventType == t then OneMore(Stats(s, t), ok) else Stats(s, t))
            && SuccessesOf(after, id) == SuccessesOf(s, id) + if ok && r.eventId == id then 1 else 0
  {
    ExecuteCounts(s, r, allowRetry, outcome);
  }

  lemma CrashCountsAs(s: Store, r: Request, allowRetry: bool, succeeded: bool, t: EventType, id: string)
    requires r.tenantId != ""
    ensures var after, ran := Crash(s, r, allowRetry, succeeded), Begin(s, r, allowRetry).1.None?;
            && Stats(after, t) == FlowStats(0, 0, 0)
            && SuccessesOf(after, id) == SuccessesOf(s, id) + if ran && succeeded && r.eventId == id then 1 else 0
  {
    CrashLeaves(s, r, allowRetry, succeeded);
  }

  lemma StartsExactly(s: Store, l: Life, r: Request, allowRetry: bool)
    requires Records(s, r.eventId, l) && (allowRetry ==> Retries(l))
    ensures Begin(s, r, allowRetry).1.None? <==> Starts(l)
  {
  }

  lemma DeliveryCounts(calls: seq<Call>, s: Store, t: EventType, id: string)
    requires calls != [] && calls[|calls| - 1].DeliverCall? && Tallied(calls, s, t, id)
    ensures Stats(Step(s, calls[|calls| - 1]), t) == Counts(calls, t)
    ensures SuccessesOf(Step(s, calls[|calls| - 1]), id) == SuccessCount(calls, id)
  {
    var r, outcome := calls[|calls| - 1].request, calls[|calls| - 1].outcome;
    var l := LifeOf(calls[..|calls| - 1], r.eventId);
    StartsExactly(s, l, r, false);
    if Starts(l) {
      ExecuteCountsAs(s, r, false, outcome, t, id);
    }
  }

  lemma ReprocessCounts(calls: seq<Call>, s: Store, t: EventType, id: string)
    requires calls != [] && calls[|calls| - 1].ReprocessCall? && Tallied(calls, s, t, id)
    ensures Stats(Step(s, calls[|calls| - 1]), t) == Counts(calls, t)
    ensures SuccessesOf(Step(s, calls[|calls| - 1]), id) == SuccessCount(calls, id)
  {
    var i, outcome := calls[|calls| - 1].id, calls[|calls| - 1].outcome;
    var l := LifeOf(calls[..|calls| - 1], i);
    RetryIsTheRequest(s, l, i);
    if Retries(l) {
      StartsExactly(s, l, l.last, true);
      ExecuteCountsAs(s, l.last, true, outcome, t, id);
    }
  }

  lemma CrashCounts(calls: seq<Call>, s: Store, t: EventType, id: string)
    requires calls != [] && Admissible(calls[|calls| - 1]) && Tallied(calls, s, t, id)
    requires calls[|calls| - 1].CrashInDelivery? || calls[|calls| - 1].CrashInReprocess?
    ensures Stats(Step(s, calls[|calls| - 1]), t) == Counts(calls, t)
    ensures SuccessesOf(Step(s, calls[|calls| - 1]), id) == SuccessCount(calls, id)
  {
    var i := IdOf(calls[|calls| - 1]);
    var l := LifeOf(calls[..|calls| - 1], i);
    match calls[|calls| - 1] {
      case CrashInDelivery(r, succeeded) =>
        StartsExactly(s, l, r, false);
        CrashCountsAs(s, r, false, succeeded, t, id);
      case CrashInReprocess(_, succeeded) =>
        RetryIsTheRequest(s, l, i);
        if Retries(l) {
          StartsExactly(s, l, l.last, true);
          CrashCountsAs(s, l.last, true, succeeded, t, id);
        }
    }
  }

  // The store before the last call has its counts, and the records of the call's event.
  ghost predicate Tallied(calls: seq<Call>, s: Store, t: EventType, id: string)
    requires calls != []
  {
    var front, i := calls[..|calls| - 1], IdOf(calls[|calls| - 1]);
    Records(s, i, LifeOf(front, i)) && Stats(s, t) == Counts(front, t) && SuccessesOf(s, id) == SuccessCount(front, id)
  }

  lemma StepCounts(calls: seq<Call>, s: Store, t: EventType, id: string)
    requires calls != [] && Admissible(calls[|calls| - 1]) && Tallied(calls, s, t, id)
    ensures Stats(Step(s, calls[|calls| - 1]), t) == Counts(calls, t)
    ensures SuccessesOf(Step(s, calls[|calls| - 1]), id) == SuccessCount(calls, id)
  {
    match calls[|calls| - 1] {
      case DeliverCall(_, _) => DeliveryCounts(calls, s, t, id);
      case ReprocessCall(_, _) => ReprocessCounts(calls, s, t, id);
      case CancelCall(_) =>
      case RestartCall =>
      case _ => CrashCounts(calls, s, t, id);
    }
  }

  // After every run, the metrics count the runner calls of this process, and the successes all that succeeded.
  lemma {:induction false} CountsAre(calls: seq<Call>, t: EventType, id: string)
    requires forall c | c in calls :: Admissible(c)
    ensures Stats(Run(calls), t) == Counts(calls, t)
    ensures SuccessesOf(Run(calls), id) == SuccessCount(calls, id)
    decreases |calls|
  {
    if calls != [] {
      var front, last := calls[..|calls| - 1], calls[|calls| - 1];
      assert last in calls;
      CountsAre(front, t, id);
      RecordsAre(front, IdOf(last));
      StepCounts(calls, Run(front), t, id);
    }
  }
}
