// The event lifecycle of apps/agent-orchestrator, one call at a time: what each call does to the
// event map, the dead letters and the durable table, and what every run of calls keeps.
module EventLifecycle {
  import opened Wrappers

  datatype Status = Processing | Completed | Failed | Cancelled

  datatype EventType = DealClosedWon | HealthAlert | ChurnRiskHigh | BoardReport

  datatype Request = Request(eventId: string, eventType: EventType, entityId: string, context: string, tenantId: string)

  // What a call handed over, or, once a JSON column was read back, the text of what was stored there.
  datatype Content = Given(fields: string) | TextOf(stored: Content)

  // The fields of an event record.
  datatype Event = Event(
    eventId: string, eventType: EventType, entityId: string, context: Content, tenantId: string,
    status: Status, result: Option<Content>)

  // A row of the durable table, which keeps no entity id.
  datatype Row = Row(eventType: EventType, context: Content, tenantId: string, status: Status, result: Option<Content>)

  datatype FlowStats = FlowStats(started: nat, succeeded: nat, failed: nat)

  datatype Outcome = Succeeds(result: string) | Raises(error: string)

  datatype Response =
    | Duplicate(result: Option<Content>)
    | Done(output: string)
    | RunFailed(error: string)
    | NotFound
    | MissingTenant
    | InvalidRequest
    | AlreadyCompleted
    | WasCancelled

  // The stored state: memory and dead letters die with the process, rows do not. Successes counts,
  // for the proofs, how often the runner succeeded for an id.
  datatype Store = Store(
    memory: map<string, Event>, dead: map<string, Event>, rows: map<string, Row>,
    metrics: map<EventType, FlowStats>, successes: map<string, nat>)

  function RowOf(e: Event): Row {
    Row(e.eventType, e.context, e.tenantId, e.status, e.result)
  }

  // A row read back: the entity id is not kept, the event id takes its place, and the JSON columns
  // come as text, no codec being set for them.
  function EventOf(id: string, row: Row): Event {
    Event(id, row.eventType, id, TextOf(row.context), row.tenantId, row.status,
          if row.result.Some? then Some(TextOf(row.result.value)) else None)
  }

  function Stats(s: Store, t: EventType): FlowStats {
    if t in s.metrics then s.metrics[t] else FlowStats(0, 0, 0)
  }

  function SuccessesOf(s: Store, id: string): nat {
    if id in s.successes then s.successes[id] else 0
  }

  function Persisted(s: Store, id: string): Option<Event> {
    if id in s.rows then Some(EventOf(id, s.rows[id])) else None
  }

  // EVENT_STORE.get(id) or the durable row.
  function Existing(s: Store, id: string): Option<Event> {
    if id in s.memory then Some(s.memory[id]) else Persisted(s, id)
  }

  // An event without a tenant is not persisted.
  function Upsert(s: Store, e: Event): Store {
    if e.tenantId == "" then s else s.(rows := s.rows[e.eventId := RowOf(e)])
  }

  function NewEvent(r: Request): Event {
    Event(r.eventId, r.eventType, r.entityId, Given(r.context), r.tenantId, Processing, None)
  }

  // The event that an execution leaves in memory and in the durable table.
  function Final(r: Request, outcome: Outcome): Event {
    match outcome
    case Succeeds(result) => NewEvent(r).(status := Completed, result := Some(Given(result)))
    case Raises(error) => NewEvent(r).(status := Failed, result := Some(Given(error)))
  }

  predicate Settled(status: Status) {
    status == Completed || status == Cancelled || status == Processing
  }

  /* The two halves of an execution, before and after the runner. */

  // The event goes into memory and into the table.
  function Put(s: Store, e: Event): Store {
    Upsert(s.(memory := s.memory[e.eventId := e]), e)
  }

  function Counted(s: Store, t: EventType, stats: FlowStats): Store {
    s.(metrics := s.metrics[t := stats])
  }

  // None when the runner is to be called; otherwise the response.
  function Begin(s: Store, r: Request, allowRetry: bool): (Store, Option<Response>) {
    var existing := Existing(s, r.eventId);
    if existing.Some? && !allowRetry && Settled(existing.value.status) then (s, Some(Duplicate(existing.value.result)))
    else
      var stats := Stats(s, r.eventType);
      (Put(Counted(s, r.eventType, stats.(started := stats.started + 1)), NewEvent(r)), None)
  }

  function CountedSuccess(s: Store, r: Request): Store {
    var stats := Stats(s, r.eventType);
    Counted(s, r.eventType, stats.(succeeded := stats.succeeded + 1))
      .(successes := s.successes[r.eventId := SuccessesOf(s, r.eventId) + 1])
  }

  function Complete(s: Store, r: Request, result: string): Store {
    Put(CountedSuccess(s, r).(dead := s.dead - {r.eventId}), Final(r, Succeeds(result)))
  }

  function Fail(s: Store, r: Request, error: string): Store {
    var stats := Stats(s, r.eventType);
    var e := Final(r, Raises(error));
    Put(Counted(s, r.eventType, stats.(failed := stats.failed + 1)).(dead := s.dead[r.eventId := e]), e)
  }

  function Finish(s: Store, r: Request, outcome: Outcome): (Store, Response) {
    match outcome
    case Succeeds(result) => (Complete(s, r, result), Done(result))
    case Raises(error) => (Fail(s, r, error), RunFailed(error))
  }

  function Execute(s: Store, r: Request, allowRetry: bool, outcome: Outcome): (Store, Response) {
    var (t, response) := Begin(s, r, allowRetry);
    if response.Some? then (t, response.value) else Finish(t, r, outcome)
  }

  // A request takes an object for its context; a text does not pass its validation.
  function RetryRequest(e: Event): Result<Request, Response> {
    match e.context
    case Given(fields) => Success(Request(e.eventId, e.eventType, e.entityId, fields, e.tenantId))
    case TextOf(_) => Failure(InvalidRequest)
  }

  // The dead letter, or the durable row, that a reprocess call works on.
  function DeadLetter(s: Store, id: string): Option<Event> {
    if id in s.dead then Some(s.dead[id]) else Persisted(s, id)
  }

  // The request a reprocess call runs, or why it does not.
  function RetryOf(s: Store, id: string): Result<Request, Response> {
    match DeadLetter(s, id)
    case None => Failure(NotFound)
    case Some(e) =>
      if e.status != Failed then Failure(NotFound)
      else if e.tenantId == "" then Failure(MissingTenant)
      else RetryRequest(e)
  }

  function Reprocess(s: Store, id: string, outcome: Outcome): (Store, Response) {
    match RetryOf(s, id)
    case Failure(response) => (s, response)
    case Success(request) =>
      var (t, response) := Execute(s, request, true, outcome);
      (if response.RunFailed? then t else t.(dead := t.dead - {id}), response)
  }

  // Cancelling marks the record; a dead letter is the same record.
  function Cancel(s: Store, id: string): (Store, Response) {
    match Existing(s, id)
    case None => (s, NotFound)
    case Some(e) =>
      if e.status == Completed then (s, AlreadyCompleted)
      else
        var cancelled := e.(status := Cancelled);
        (Put(s.(dead := if id in s.dead then s.dead[id := cancelled] else s.dead), cancelled),
         WasCancelled)
  }

  function Restart(s: Store): Store {
    s.(memory := map[], dead := map[], metrics := map[])
  }

  // The process dies while the runner runs, or just after it succeeded.
  function Crash(s: Store, r: Request, allowRetry: bool, succeeded: bool): Store {
    var (t, response) := Begin(s, r, allowRetry);
    Restart(if response.None? && succeeded
            then t.(successes := t.successes[r.eventId := SuccessesOf(t, r.eventId) + 1])
            else t)
  }

  datatype Call =
    | DeliverCall(request: Request, outcome: Outcome)
    | ReprocessCall(id: string, outcome: Outcome)
    | CancelCall(id: string)
    | RestartCall
    | CrashInDelivery(request: Request, succeeded: bool)
    | CrashInReprocess(id: string, succeeded: bool)

  // Requests come with a tenant: the transport refuses an empty one.
  predicate Admissible(call: Call) {
    call.DeliverCall? || call.CrashInDelivery? ==> call.request.tenantId != ""
  }

  function Step(s: Store, call: Call): Store {
    match call
    case DeliverCall(r, outcome) => Execute(s, r, false, outcome).0
    case ReprocessCall(id, outcome) => Reprocess(s, id, outcome).0
    case CancelCall(id) => Cancel(s, id).0
    case RestartCall => Restart(s)
    case CrashInDelivery(r, succeeded) => Crash(s, r, false, succeeded)
    case CrashInReprocess(id, succeeded) =>
      match RetryOf(s, id)
      case Failure(_) => s
      case Success(request) => Crash(s, request, true, succeeded)
  }

  const EMPTY := Store(map[], map[], map[], map[], map[])

  function Run(calls: seq<Call>): Store {
    if calls == [] then EMPTY else Step(Run(calls[..|calls| - 1]), calls[|calls| - 1])
  }

  /* What every state between calls keeps. */

  // A success leaves a row that no call runs again: completed, or, after a crash, processing and
  // then perhaps cancelled.
  ghost predicate SuccessesSettled(s: Store) {
    && (forall id | id in s.rows && s.rows[id].status == Completed :: SuccessesOf(s, id) == 1)
    && (forall id | id in s.successes ::
          SuccessesOf(s, id) <= 1 && (SuccessesOf(s, id) == 1 ==> id in s.rows && Settled(s.rows[id].status)))
  }

  // Memory agrees with the durable rows, and nothing is left processing in it.
  ghost predicate MemoryMatchesRows(s: Store) {
    && (forall id | id in s.memory ::
          && s.memory[id].eventId == id && s.memory[id].tenantId != "" && s.memory[id].status != Processing
          && id in s.rows && s.rows[id] == RowOf(s.memory[id]))
    && (forall id | id in s.rows :: s.rows[id].tenantId != "")
  }

  // Failed events are dead letters; a dead letter is its event, failed or cancelled.
  ghost predicate DeadLettersMatch(s: Store) {
    && (forall id | id in s.memory && s.memory[id].status == Failed :: id in s.dead)
    && (forall id | id in s.dead ::
          && id in s.memory && s.dead[id] == s.memory[id] && s.dead[id].context.Given?
          && (s.memory[id].status == Failed || s.memory[id].status == Cancelled))
  }

  ghost predicate StatsBalance(s: Store) {
    forall t :: Stats(s, t).started == Stats(s, t).succeeded + Stats(s, t).failed
  }

  ghost predicate GoodStore(s: Store) {
    MemoryMatchesRows(s) && DeadLettersMatch(s) && StatsBalance(s) && SuccessesSettled(s)
  }

  lemma BeginWrites(s: Store, r: Request, allowRetry: bool)
    requires r.tenantId != "" && Begin(s, r, allowRetry).1.None?
    ensures var t, e := Begin(s, r, allowRetry).0, NewEvent(r);
            t.memory == s.memory[r.eventId := e] && t.rows == s.rows[r.eventId := RowOf(e)] && t.dead == s.dead
  {
  }

  lemma FinishWrites(s: Store, r: Request, outcome: Outcome)
    requires r.tenantId != ""
    ensures var (t, response) := Finish(s, r, outcome);
            var e := Final(r, outcome);
            && t.memory == s.memory[r.eventId := e] && t.rows == s.rows[r.eventId := RowOf(e)]
            && t.dead == (if outcome.Raises? then s.dead[r.eventId := e] else s.dead - {r.eventId})
            && (response.RunFailed? <==> outcome.Raises?)
  {
  }

  // An execution either answers at once or writes its final event, a dead letter if it failed.
  lemma ExecuteWrites(s: Store, r: Request, allowRetry: bool, outcome: Outcome)
    requires r.tenantId != ""
    ensures var (t, response) := Execute(s, r, allowRetry, outcome);
            var e := Final(r, outcome);
            if Begin(s, r, allowRetry).1.Some? then t == s
            else
              && t.memory == s.memory[r.eventId := e] && t.rows == s.rows[r.eventId := RowOf(e)]
              && t.dead == (if outcome.Raises? then s.dead[r.eventId := e] else s.dead - {r.eventId})
              && (response.RunFailed? <==> outcome.Raises?)
  {
    if Begin(s, r, allowRetry).1.None? {
      BeginWrites(s, r, allowRetry);
      FinishWrites(Begin(s, r, allowRetry).0, r, outcome);
    }
  }

  lemma WriteKeepsRecords(s: Store, t: Store, id: string, e: Event)
    requires MemoryMatchesRows(s) && DeadLettersMatch(s) && e.eventId == id && e.tenantId != ""
    requires t.memory == s.memory[id := e] && t.rows == s.rows[id := RowOf(e)]
    requires match e.status
             case Completed => t.dead == s.dead - {id}
             case Failed => t.dead == s.dead[id := e] && e.context.Given?
             case Cancelled => t.dead == (if id in s.dead then s.dead[id := e] else s.dead)
                 && (id in s.dead ==> e.context.Given?)
             case Processing => false
    ensures MemoryMatchesRows(t) && DeadLettersMatch(t)
  {
  }

  lemma ExecuteKeepsRecords(s: Store, r: Request, allowRetry: bool, outcome: Outcome)
    requires MemoryMatchesRows(s) && DeadLettersMatch(s) && r.tenantId != ""
    ensures var t := Execute(s, r, allowRetry, outcome).0;
            MemoryMatchesRows(t) && DeadLettersMatch(t)
  {
    ExecuteWrites(s, r, allowRetry, outcome);
    if Begin(s, r, allowRetry).1.None? {
      WriteKeepsRecords(s, Execute(s, r, allowRetry, outcome).0, r.eventId, Final(r, outcome));
    }
  }

  lemma ExecuteKeepsSuccesses(s: Store, r: Request, allowRetry: bool, outcome: Outcome)
    requires MemoryMatchesRows(s) && SuccessesSettled(s) && r.tenantId != ""
    requires allowRetry ==> r.eventId in s.rows && s.rows[r.eventId].status == Failed
    ensures SuccessesSettled(Execute(s, r, allowRetry, outcome).0)
  {
  }

  lemma BeginCounts(s: Store, r: Request, allowRetry: bool)
    requires Begin(s, r, allowRetry).1.None?
    ensures var c := Stats(s, r.eventType);
            Begin(s, r, allowRetry).0.metrics == s.metrics[r.eventType := c.(started := c.started + 1)]
  {
  }

  lemma FinishCounts(s: Store, r: Request, outcome: Outcome)
    ensures var c := Stats(s, r.eventType);
            Finish(s, r, outcome).0.metrics
            == s.metrics[r.eventType := if outcome.Succeeds? then c.(succeeded := c.succeeded + 1)
                                        else c.(failed := c.failed + 1)]
  {
  }

  lemma ExecuteCounts(s: Store, r: Request, allowRetry: bool, outcome: Outcome)
    requires Begin(s, r, allowRetry).1.None?
    ensures var c := Stats(s, r.eventType);
            Execute(s, r, allowRetry, outcome).0.metrics
            == s.metrics[r.eventType := if outcome.Succeeds? then FlowStats(c.started + 1, c.succeeded + 1, c.failed)
                                        else FlowStats(c.started + 1, c.succeeded, c.failed + 1)]
  {
    BeginCounts(s, r, allowRetry);
    FinishCounts(Begin(s, r, allowRetry).0, r, outcome);
  }

  lemma ExecuteBalances(s: Store, r: Request, allowRetry: bool, outcome: Outcome)
    requires StatsBalance(s)
    ensures StatsBalance(Execute(s, r, allowRetry, outcome).0)
  {
    if Begin(s, r, allowRetry).1.None? {
      ExecuteCounts(s, r, allowRetry, outcome);
      var metrics := Execute(s, r, allowRetry, outcome).0.metrics;
      CountedBalances(s, s.(metrics := metrics), r.eventType);
      SameStatsBalance(s.(metrics := metrics), Execute(s, r, allowRetry, outcome).0);
    }
  }

  lemma CountedBalances(s: Store, t: Store, k: EventType)
    requires StatsBalance(s)
    requires Stats(t, k).started == Stats(t, k).succeeded + Stats(t, k).failed
    requires t.metrics == s.metrics[k := Stats(t, k)]
    ensures StatsBalance(t)
  {
    forall j ensures Stats(t, j).started == Stats(t, j).succeeded + Stats(t, j).failed {
      assert Stats(s, j).started == Stats(s, j).succeeded + Stats(s, j).failed;
    }
  }

  lemma ExecuteKeepsGood(s: Store, r: Request, allowRetry: bool, outcome: Outcome)
    requires GoodStore(s) && r.tenantId != ""
    requires allowRetry ==> r.eventId in s.rows && s.rows[r.eventId].status == Failed
    ensures GoodStore(Execute(s, r, allowRetry, outcome).0)
  {
    ExecuteKeepsRecords(s, r, allowRetry, outcome);
    ExecuteKeepsSuccesses(s, r, allowRetry, outcome);
    ExecuteBalances(s, r, allowRetry, outcome);
  }

  // Cancelling answers at once or writes the cancelled event.
  lemma CancelWrites(s: Store, id: string)
    requires MemoryMatchesRows(s)
    ensures var t := Cancel(s, id).0;
            if Cancel(s, id).1 != WasCancelled then t == s
            else
              var e := Existing(s, id).value.(status := Cancelled);
              && Existing(s, id).value.status != Completed
              && e.eventId == id && e.tenantId != "" && id in s.rows && s.rows[id].status != Completed
              && t.memory == s.memory[id := e] && t.rows == s.rows[id := RowOf(e)]
              && t.dead == (if id in s.dead then s.dead[id := e] else s.dead)
              && t.metrics == s.metrics && t.successes == s.successes
  {
  }

  lemma SameStatsBalance(s: Store, t: Store)
    requires StatsBalance(s) && t.metrics == s.metrics
    ensures StatsBalance(t)
  {
    forall k ensures Stats(t, k).started == Stats(t, k).succeeded + Stats(t, k).failed {
      assert Stats(t, k) == Stats(s, k);
    }
  }

  lemma CancelKeepsGood(s: Store, id: string)
    requires GoodStore(s)
    ensures GoodStore(Cancel(s, id).0)
  {
    CancelWrites(s, id);
    if Cancel(s, id).1 == WasCancelled {
      var t := Cancel(s, id).0;
      WriteKeepsRecords(s, t, id, Existing(s, id).value.(status := Cancelled));
      SameStatsBalance(s, t);
    }
  }

  lemma ReprocessKeepsGood(s: Store, id: string, outcome: Outcome)
    requires GoodStore(s)
    ensures GoodStore(Reprocess(s, id, outcome).0)
  {
    if RetryOf(s, id).Success? {
      var request := RetryOf(s, id).value;
      RetryIsOfFailed(s, id);
      ExecuteKeepsGood(s, request, true, outcome);
      var (t, response) := Execute(s, request, true, outcome);
      if !response.RunFailed? {
        assert t.dead - {id} == t.dead;
        assert t.(dead := t.dead - {id}) == t;
      }
    }
  }

  // What is left after a crash: the row, processing, if the runner was called.
  lemma CrashLeaves(s: Store, r: Request, allowRetry: bool, succeeded: bool)
    requires r.tenantId != ""
    ensures var t := Crash(s, r, allowRetry, succeeded);
            && t.memory == map[] && t.dead == map[] && t.metrics == map[]
            && if Begin(s, r, allowRetry).1.Some? then t.rows == s.rows && t.successes == s.successes
               else
                 && t.rows == s.rows[r.eventId := RowOf(NewEvent(r))]
                 && t.successes == if succeeded
                     then s.successes[r.eventId := SuccessesOf(s, r.eventId) + 1] else s.successes
  {
  }

  lemma CrashKeepsSuccesses(s: Store, r: Request, allowRetry: bool, succeeded: bool)
    requires MemoryMatchesRows(s) && SuccessesSettled(s) && r.tenantId != ""
    requires allowRetry ==> r.eventId in s.rows && s.rows[r.eventId].status == Failed
    ensures SuccessesSettled(Crash(s, r, allowRetry, succeeded))
  {
    CrashLeaves(s, r, allowRetry, succeeded);
  }

  lemma CrashKeepsRecords(s: Store, r: Request, allowRetry: bool, succeeded: bool)
    requires MemoryMatchesRows(s) && r.tenantId != ""
    ensures var t := Crash(s, r, allowRetry, succeeded);
            MemoryMatchesRows(t) && DeadLettersMatch(t) && StatsBalance(t)
  {
    CrashLeaves(s, r, allowRetry, succeeded);
  }

  lemma CrashKeepsGood(s: Store, r: Request, allowRetry: bool, succeeded: bool)
    requires GoodStore(s) && r.tenantId != ""
    requires allowRetry ==> r.eventId in s.rows && s.rows[r.eventId].status == Failed
    ensures GoodStore(Crash(s, r, allowRetry, succeeded))
  {
    CrashKeepsRecords(s, r, allowRetry, succeeded);
    CrashKeepsSuccesses(s, r, allowRetry, succeeded);
  }

  lemma RetryIsOfFailed(s: Store, id: string)
    requires GoodStore(s) && RetryOf(s, id).Success?
    ensures var r := RetryOf(s, id).value;
            r.eventId == id && r.tenantId != "" && id in s.rows && s.rows[id].status == Failed
  {
  }

  lemma StepKeepsGood(s: Store, call: Call)
    requires GoodStore(s) && Admissible(call)
    ensures GoodStore(Step(s, call))
  {
    match call {
      case DeliverCall(r, outcome) => ExecuteKeepsGood(s, r, false, outcome);
      case ReprocessCall(id, outcome) => ReprocessKeepsGood(s, id, outcome);
      case CancelCall(id) => CancelKeepsGood(s, id);
      case RestartCall =>
      case CrashInDelivery(r, succeeded) => CrashKeepsGood(s, r, false, succeeded);
      case CrashInReprocess(id, succeeded) =>
        if RetryOf(s, id).Success? {
          RetryIsOfFailed(s, id);
          CrashKeepsGood(s, RetryOf(s, id).value, true, succeeded);
        }
    }
  }

  // Over every run of deliver, reprocess, cancel, restart and crash.
  lemma {:induction false} EveryRunIsGood(calls: seq<Call>)
    requires forall c | c in calls :: Admissible(c)
    ensures GoodStore(Run(calls))
  {
    if calls != [] {
      EveryRunIsGood(calls[..|calls| - 1]);
      StepKeepsGood(Run(calls[..|calls| - 1]), calls[|calls| - 1]);
    }
  }

  // The runner succeeds at most once for an id, crashes included.
  lemma RunnerSucceedsAtMostOnce(calls: seq<Call>, id: string)
    requires forall c | c in calls :: Admissible(c)
    ensures SuccessesOf(Run(calls), id) <= 1
  {
    EveryRunIsGood(calls);
  }

  // Completed rows and cancelled rows are never written again, except that a cancelled one may be
  // cancelled once more.
  lemma ExecuteSparesSettled(s: Store, r: Request, allowRetry: bool, outcome: Outcome, id: string)
    requires MemoryMatchesRows(s) && r.tenantId != "" && id in s.rows && s.rows[id].status in {Completed, Cancelled}
    requires allowRetry ==> r.eventId in s.rows && s.rows[r.eventId].status == Failed
    ensures var t := Execute(s, r, allowRetry, outcome).0; id in t.rows && t.rows[id] == s.rows[id]
  {
    ExecuteWrites(s, r, allowRetry, outcome);
  }

  lemma CrashSparesSettled(s: Store, r: Request, allowRetry: bool, succeeded: bool, id: string)
    requires MemoryMatchesRows(s) && id in s.rows && s.rows[id].status in {Completed, Cancelled}
    requires allowRetry ==> r.eventId in s.rows && s.rows[r.eventId].status == Failed
    ensures var t := Crash(s, r, allowRetry, succeeded); id in t.rows && t.rows[id] == s.rows[id]
  {
  }

  // Only cancelling a cancelled event whose record is gone from memory writes a settled row again:
  // its columns are then the texts they were read back as.
  predicate WritesAgain(s: Store, call: Call, id: string) {
    call == CancelCall(id) && id !in s.memory && id in s.rows && s.rows[id].status == Cancelled
  }

  lemma {:induction false} TextIsNotItsContent(c: Content)
    ensures TextOf(c) != c
  {
    match c
    case Given(_) =>
    case TextOf(d) => TextIsNotItsContent(d);
  }

  lemma CancelSparesSettled(s: Store, i: string, id: string)
    requires MemoryMatchesRows(s) && id in s.rows && s.rows[id].status in {Completed, Cancelled}
    ensures var t := Cancel(s, i).0;
            && id in t.rows && SameButForColumns(s.rows[id], t.rows[id])
            && (t.rows[id] == s.rows[id] <==> !WritesAgain(s, CancelCall(i), id))
  {
    CancelWrites(s, i);
    TextIsNotItsContent(s.rows[id].context);
  }

  predicate SameButForColumns(before: Row, after: Row) {
    after == before.(context := after.context, result := after.result)
  }

  // After any call a completed row reads the same, and so does a cancelled one exactly unless the call
  // writes it again; even then its status, type and tenant stay.
  lemma SettledStatusIsAbsorbing(s: Store, call: Call, id: string)
    requires GoodStore(s) && Admissible(call) && id in s.rows && s.rows[id].status in {Completed, Cancelled}
    ensures var t := Step(s, call);
            && id in t.rows && SameButForColumns(s.rows[id], t.rows[id])
            && (t.rows[id] == s.rows[id] <==> !WritesAgain(s, call, id))
  {
    match call {
      case DeliverCall(r, outcome) => ExecuteSparesSettled(s, r, false, outcome, id);
      case ReprocessCall(i, outcome) =>
        if RetryOf(s, i).Success? {
          RetryIsOfFailed(s, i);
          ExecuteSparesSettled(s, RetryOf(s, i).value, true, outcome, id);
        }
      case CancelCall(i) => CancelSparesSettled(s, i, id);
      case RestartCall =>
      case CrashInDelivery(r, succeeded) => CrashSparesSettled(s, r, false, succeeded, id);
      case CrashInReprocess(i, succeeded) =>
        if RetryOf(s, i).Success? {
          RetryIsOfFailed(s, i);
          CrashSparesSettled(s, RetryOf(s, i).value, true, succeeded, id);
        }
    }
  }

  lemma {:induction false} SettledForever(calls: seq<Call>, k: nat, id: string)
    requires k <= |calls| && forall c | c in calls :: Admissible(c)
    requires id in Run(calls[..k]).rows && Run(calls[..k]).rows[id].status in {Completed, Cancelled}
    ensures var before, after := Run(calls[..k]).rows[id], Run(calls).rows;
            && id in after && SameButForColumns(before, after[id])
            && (before.status == Completed ==> after[id] == before)
    decreases |calls|
  {
    if k == |calls| {
      assert calls[..k] == calls;
    } else {
      var front := calls[..|calls| - 1];
      assert front[..k] == calls[..k];
      SettledForever(front, k, id);
      EveryRunIsGood(front);
      assert calls[|calls| - 1] in calls;
      SettledStatusIsAbsorbing(Run(front), calls[|calls| - 1], id);
    }
  }

  // Between calls, exactly the dead letters of this process can be reprocessed: of a failed event that
  // only its row remembers, the context does not pass for a request's.
  lemma ReprocessesExactlyDeadLetters(s: Store, id: string)
    requires GoodStore(s)
    ensures RetryOf(s, id).Success? <==> id in s.dead && s.dead[id].status == Failed
    ensures RetryOf(s, id) == Failure(InvalidRequest) <==> id !in s.dead && id in s.rows && s.rows[id].status == Failed
  {
  }
}
