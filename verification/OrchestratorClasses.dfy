// The orchestrator's objects: event records that the event map and the dead letters share.
module OrchestratorClasses {
  import opened Wrappers
  import opened EventLifecycle

  class EventRecord {
    var eventId: string
    var eventType: EventType
    var entityId: string
    var context: Content
    var tenantId: string
    var status: Status
    var result: Option<Content>

    constructor (e: Event)
      ensures Value() == e
    {
      eventId, eventType, entityId := e.eventId, e.eventType, e.entityId;
      context, tenantId, status, result := e.context, e.tenantId, e.status, e.result;
    }

    function Value(): Event
      reads this
    {
      Event(eventId, eventType, entityId, context, tenantId, status, result)
    }
  }

  // What the records of a map say now.
  ghost function Snapshot(m: map<string, EventRecord>): map<string, Event>
    reads m.Values
  {
    map id | id in m :: m[id].Value()
  }

  lemma SnapshotUpdate(m: map<string, EventRecord>, id: string, r: EventRecord)
    ensures Snapshot(m[id := r]) == Snapshot(m)[id := r.Value()]
  {
  }

  lemma SnapshotRemove(m: map<string, EventRecord>, id: string)
    ensures Snapshot(m - {id}) == Snapshot(m) - {id}
  {
  }

  // Where only the record filed under id changed, the snapshot changes there and nowhere else.
  lemma SnapshotMarked(m: map<string, EventRecord>, before: map<string, Event>, id: string, record: EventRecord)
    requires m.Keys == before.Keys && (id in m ==> m[id] == record)
    requires forall k | k in m && k != id :: m[k].Value() == before[k]
    ensures Snapshot(m) == if id in m then before[id := record.Value()] else before
  {
  }

  class Orchestrator {
    var eventStore: map<string, EventRecord>
    var dlqStore: map<string, EventRecord>
    var table: map<string, Row>
    var flowMetrics: map<EventType, FlowStats>
    ghost var successes: map<string, nat>

    constructor ()
      ensures Linked() && View() == EMPTY
    {
      eventStore, dlqStore, table, flowMetrics, successes := map[], map[], map[], map[], map[];
    }

    ghost function View(): Store
      reads this, eventStore.Values, dlqStore.Values
    {
      Store(Snapshot(eventStore), Snapshot(dlqStore), table, flowMetrics, successes)
    }

    // A record is filed under its own id, and a dead letter is the very record in the event map.
    ghost predicate Linked()
      reads this, eventStore.Values, dlqStore.Values
    {
      && (forall id | id in eventStore :: eventStore[id].eventId == id)
      && (forall id | id in dlqStore :: id in eventStore && dlqStore[id] == eventStore[id])
    }

    method LoadPersistedEvent(id: string) returns (e: Option<EventRecord>)
      ensures e.Some? <==> id in table
      ensures e.Some? ==> fresh(e.value) && e.value.Value() == EventOf(id, table[id])
    {
      if id !in table {
        return None;
      }
      var r := new EventRecord(EventOf(id, table[id]));
      return Some(r);
    }

    // EVENT_STORE.get(id), or the durable row as a record of its own.
    method FindEvent(id: string) returns (e: Option<EventRecord>)
      ensures e.Some? <==> Existing(View(), id).Some?
      ensures e.Some? ==> e.value.Value() == Existing(View(), id).value
      ensures e.Some? ==> if id in eventStore then e.value == eventStore[id] else fresh(e.value)
    {
      if id in eventStore {
        return Some(eventStore[id]);
      }
      e := LoadPersistedEvent(id);
    }

    // The durable upsert, which an event without a tenant does not get.
    method SafeUpsertEvent(record: EventRecord)
      modifies this`table
      ensures View() == Upsert(old(View()), record.Value())
    {
      if record.tenantId != "" {
        table := table[record.eventId := RowOf(record.Value())];
      }
    }

    // EVENT_STORE[id] = record
    method KeepInMemory(record: EventRecord)
      modifies this`eventStore
      ensures eventStore == old(eventStore)[record.eventId := record]
      ensures View() == old(View()).(memory := old(View()).memory[record.eventId := record.Value()])
    {
      SnapshotUpdate(eventStore, record.eventId, record);
      eventStore := eventStore[record.eventId := record];
    }

    // EVENT_STORE[id] = record, and the durable upsert right after it.
    method StoreEvent(record: EventRecord)
      modifies this`eventStore, this`table
      ensures eventStore == old(eventStore)[record.eventId := record]
      ensures View() == Put(old(View()), record.Value())
    {
      KeepInMemory(record);
      SafeUpsertEvent(record);
    }

    // DLQ_STORE.pop(id, None)
    method DropDeadLetter(id: string)
      modifies this`dlqStore
      ensures dlqStore == old(dlqStore) - {id}
      ensures View() == old(View()).(dead := old(View()).dead - {id})
    {
      SnapshotRemove(dlqStore, id);
      dlqStore := dlqStore - {id};
    }

    // DLQ_STORE[id] = record
    method KeepDeadLetter(id: string, record: EventRecord)
      modifies this`dlqStore
      ensures dlqStore == old(dlqStore)[id := record]
      ensures View() == old(View()).(dead := old(View()).dead[id := record.Value()])
    {
      SnapshotUpdate(dlqStore, id, record);
      dlqStore := dlqStore[id := record];
    }

    // Into memory, out of the dead letters, and the durable upsert.
    method StoreCompleted(record: EventRecord)
      modifies this`eventStore, this`dlqStore, this`table
      ensures eventStore == old(eventStore)[record.eventId := record] && dlqStore == old(dlqStore) - {record.eventId}
      ensures View() == Put(old(View()).(dead := old(View()).dead - {record.eventId}), record.Value())
    {
      KeepInMemory(record);
      DropDeadLetter(record.eventId);
      SafeUpsertEvent(record);
    }

    // Into memory and the dead letters, and the durable upsert.
    method StoreFailed(record: EventRecord)
      modifies this`eventStore, this`dlqStore, this`table
      ensures eventStore == old(eventStore)[record.eventId := record]
      ensures dlqStore == old(dlqStore)[record.eventId := record]
      ensures View() == Put(old(View()).(dead := old(View()).dead[record.eventId := record.Value()]), record.Value())
    {
      KeepInMemory(record);
      KeepDeadLetter(record.eventId, record);
      SafeUpsertEvent(record);
    }

    ghost method NoteSuccess(id: string)
      modifies this`successes
      ensures View() == old(View()).(successes := old(successes)[id := SuccessesOf(old(View()), id) + 1])
    {
      successes := successes[id := (if id in successes then successes[id] else 0) + 1];
    }

    // FLOW_METRICS[type], made when it is not there yet.
    method CountRun(t: EventType, started: nat, succeeded: nat, failed: nat)
      modifies this`flowMetrics
      ensures var s := Stats(old(View()), t);
              View() == Counted(old(View()), t,
                  FlowStats(s.started + started, s.succeeded + succeeded, s.failed + failed))
    {
      var stats := if t in flowMetrics then flowMetrics[t] else FlowStats(0, 0, 0);
      flowMetrics := flowMetrics[t :=
          FlowStats(stats.started + started, stats.succeeded + succeeded, stats.failed + failed)];
    }

    method StartEvent(request: Request)
      modifies this`eventStore, this`table, this`flowMetrics
      ensures var stats := Stats(old(View()), request.eventType);
              View() == Put(Counted(old(View()), request.eventType, stats.(started := stats.started + 1)),
                  NewEvent(request))
      ensures StoredUnder(old(eventStore), request.eventId)
    {
      CountRun(request.eventType, 1, 0, 0);
      var record := new EventRecord(NewEvent(request));
      StoreEvent(record);
    }

    // Up to the call of the runner; a response when the runner is not to be called.
    method BeginEvent(request: Request, allowRetry: bool) returns (response: Option<Response>)
      modifies this`eventStore, this`table, this`flowMetrics
      ensures View() == Begin(old(View()), request, allowRetry).0
          && response == Begin(old(View()), request, allowRetry).1
      ensures response.Some? ==> eventStore == old(eventStore)
      ensures response.None? ==> StoredUnder(old(eventStore), request.eventId)
    {
      var existing := FindEvent(request.eventId);
      if existing.Some? && !allowRetry && Settled(existing.value.status) {
        return Some(Duplicate(existing.value.result));
      }
      StartEvent(request);
      return None;
    }

    // The event map is the earlier one with a record under its own id.
    ghost predicate StoredUnder(earlier: map<string, EventRecord>, id: string)
      reads this, eventStore.Values
    {
      id in eventStore && eventStore[id].eventId == id && eventStore == earlier[id := eventStore[id]]
    }

    method CompleteEvent(request: Request, result: string)
      modifies this
      ensures View() == Complete(old(View()), request, result)
      ensures StoredUnder(old(eventStore), request.eventId) && dlqStore == old(dlqStore) - {request.eventId}
    {
      CountSuccess(request);
      var completed := new EventRecord(Final(request, Succeeds(result)));
      StoreCompleted(completed);
    }

    method CountSuccess(request: Request)
      modifies this`flowMetrics, this`successes
      ensures View() == CountedSuccess(old(View()), request)
    {
      CountRun(request.eventType, 0, 1, 0);
      NoteSuccess(request.eventId);
    }

    method FailEvent(request: Request, error: string)
      modifies this
      ensures View() == Fail(old(View()), request, error)
      ensures StoredUnder(old(eventStore), request.eventId)
      ensures dlqStore == old(dlqStore)[request.eventId := eventStore[request.eventId]]
    {
      CountRun(request.eventType, 0, 0, 1);
      var failed := new EventRecord(Final(request, Raises(error)));
      StoreFailed(failed);
    }

    // From the runner's outcome on: a dead letter is the record just stored.
    method FinishEvent(request: Request, outcome: Outcome) returns (response: Response)
      modifies this
      ensures View() == Finish(old(View()), request, outcome).0 && response == Finish(old(View()), request, outcome).1
      ensures StoredUnder(old(eventStore), request.eventId)
      ensures dlqStore == if outcome.Raises? then old(dlqStore)[request.eventId := eventStore[request.eventId]]
                          else old(dlqStore) - {request.eventId}
    {
      match outcome {
        case Succeeds(result) =>
          CompleteEvent(request, result);
          return Done(result);
        case Raises(error) =>
          FailEvent(request, error);
          return RunFailed(error);
      }
    }

    // A whole execution with the runner's outcome.
    method ExecuteEvent(request: Request, allowRetry: bool, outcome: Outcome) returns (response: Response)
      requires Linked()
      modifies this
      ensures Linked()
      ensures View() == Execute(old(View()), request, allowRetry, outcome).0
      ensures response == Execute(old(View()), request, allowRetry, outcome).1
    {
      var early := BeginEvent(request, allowRetry);
      if early.Some? {
        return early.value;
      }
      response := FinishEvent(request, outcome);
    }

    // The request to run again, from the dead letter or else the durable row, or why there is none.
    method FindRetry(id: string) returns (r: Result<Request, Response>)
      ensures r == RetryOf(View(), id)
    {
      var record: Option<EventRecord>;
      if id in dlqStore {
        record := Some(dlqStore[id]);
      } else {
        record := LoadPersistedEvent(id);
      }
      if record.None? || record.value.status != Failed {
        return Failure(NotFound);
      }
      if record.value.tenantId == "" {
        return Failure(MissingTenant);
      }
      return RetryRequest(record.value.Value());
    }

    method ReprocessDlqEvent(id: string, outcome: Outcome) returns (response: Response)
      requires Linked()
      modifies this
      ensures Linked()
      ensures View() == Reprocess(old(View()), id, outcome).0 && response == Reprocess(old(View()), id, outcome).1
    {
      var request := FindRetry(id);
      if request.Failure? {
        return request.error;
      }
      response := ExecuteEvent(request.value, true, outcome);
      if !response.RunFailed? {
        DropDeadLetter(id);
      }
    }

    // The record itself is marked, so a dead letter is marked with it.
    method CancelEvent(id: string) returns (response: Response)
      requires Linked()
      modifies this, eventStore.Values
      ensures Linked()
      ensures View() == Cancel(old(View()), id).0 && response == Cancel(old(View()), id).1
    {
      var record := FindEvent(id);
      if record.None? {
        return NotFound;
      }
      if record.value.status == Completed {
        return AlreadyCompleted;
      }
      MarkAndStore(id, record.value);
      return WasCancelled;
    }

    // The record marked, filed and persisted.
    method MarkAndStore(id: string, record: EventRecord)
      requires Linked() && record.eventId == id
      requires if id in eventStore then eventStore[id] == record else record !in eventStore.Values
      modifies this`eventStore, this`table, record`status
      ensures Linked()
      ensures var e := old(record.Value()).(status := Cancelled);
              var dead := old(View()).dead;
              View() == Put(old(View()).(dead := if id in dead then dead[id := e] else dead), e)
    {
      ghost var before := View();
      MarkCancelled(id, record);
      ghost var e := record.Value();
      assert before.memory[id := e][id := e] == before.memory[id := e];
      StoreEvent(record);
    }

    // record["status"] = "cancelled": every map that holds the record shows it.
    method MarkCancelled(id: string, record: EventRecord)
      requires Linked() && record.eventId == id
      requires if id in eventStore then eventStore[id] == record else record !in eventStore.Values
      modifies record`status
      ensures record.Value() == old(record.Value()).(status := Cancelled)
      ensures Linked()
      ensures Snapshot(eventStore)
          == (if id in eventStore then old(View()).memory[id := record.Value()] else old(View()).memory)
      ensures Snapshot(dlqStore)
          == (if id in dlqStore then old(View()).dead[id := record.Value()] else old(View()).dead)
    {
      ghost var memory, dead := Snapshot(eventStore), Snapshot(dlqStore);
      record.status := Cancelled;
      SnapshotMarked(eventStore, memory, id, record);
      SnapshotMarked(dlqStore, dead, id, record);
    }

    // A new process: only the table is left.
    method RestartProcess()
      modifies this
      ensures Linked() && View() == Restart(old(View()))
    {
      eventStore, dlqStore, flowMetrics := map[], map[], map[];
    }
  }
}
