// What holds of the registry after any sequence of calls.
module RegistryRuns {
  import opened Wrappers
  import opened Registry

  datatype Call =
    | CreateCall(input: CreateInput, now: int)
    | PublishCall(agentId: string, version: string, tenantId: string, now: int)
    | DeprecateCall(agentId: string, version: string, tenantId: string)
    | RollbackCall(agentId: string, tenantId: string, version: string, actorId: Option<string>, now: int)

  function Step(config: Config, s: State, call: Call): (State, Result<VersionRecord, RegistryError>) {
    match call
    case CreateCall(input, now) => Create(config, s, input, now)
    case PublishCall(a, v, t, now) => Publish(s, a, v, t, now)
    case DeprecateCall(a, v, t) => DeprecateVersion(s, a, v, t)
    case RollbackCall(a, t, v, actor, now) => Rollback(s, a, t, v, actor, now)
  }

  const EMPTY := State([], map[], map[], [])

  function Run(config: Config, calls: seq<Call>): State {
    if calls == [] then EMPTY else Step(config, Run(config, calls[..|calls| - 1]), calls[|calls| - 1]).0
  }

  // One agent's history is replaced and one event about the agent is recorded.
  lemma ReplacedHistoryKeepsGood(config: Config, s: State, t: State, agentId: string, after: seq<VersionRecord>,
          e: AuditEvent)
    requires GoodState(config, s) && GoodHistory(config, after) && e.agentId == agentId
    requires t.versions == s.versions[agentId := after] && t.audit == s.audit + [e]
    requires forall v :: StatusOf(after, v) == ReplayStep(e, agentId, v, StatusOf(VersionsOf(s, agentId), v))
    ensures GoodState(config, t)
  {
    assert t.audit[..|s.audit|] == s.audit;
    forall a, v ensures ReplayStatus(t.audit, a, v) == StatusOf(VersionsOf(t, a), v) {
      assert ReplayStatus(s.audit, a, v) == StatusOf(VersionsOf(s, a), v);
    }
  }

  lemma CreateKeepsGood(config: Config, s: State, input: CreateInput, now: int)
    requires GoodState(config, s)
    ensures GoodState(config, Create(config, s, input, now).0)
  {
    var (t, r) := Create(config, s, input, now);
    var history := VersionsOf(s, input.agentId);
    if r.Success? {
      AppendKeepsGood(config, history, input, now);
      var created := NewRecord(config, input, now);
      forall v
        ensures StatusOf(history + [created], v)
             == ReplayStep(t.audit[|s.audit|], input.agentId, v, StatusOf(history, v))
      {
        IndexOfAppend(history, created, v);
      }
      ReplacedHistoryKeepsGood(config, s, t, input.agentId, history + [created], t.audit[|s.audit|]);
    } else {
      assert t.versions == s.versions && t.audit == s.audit;
      assert AuditTells(t) by {
        forall a, v ensures ReplayStatus(t.audit, a, v) == StatusOf(VersionsOf(t, a), v) {
          assert ReplayStatus(s.audit, a, v) == StatusOf(VersionsOf(s, a), v);
        }
      }
    }
  }

  lemma PublishKeepsGood(config: Config, s: State, agentId: string, version: string, tenantId: string, now: int)
    requires GoodState(config, s)
    ensures GoodState(config, Publish(s, agentId, version, tenantId, now).0)
  {
    var history := VersionsOf(s, agentId);
    if Has(history, version) {
      var t, after := Publish(s, agentId, version, tenantId, now).0, Activate(history, version, now);
      ActivateKeepsGood(config, history, version, now);
      var e := VersionPublished(agentId, version, tenantId);
      forall v ensures StatusOf(after, v) == ReplayStep(e, agentId, v, StatusOf(history, v)) {
        ActivateStatus(history, version, now, v);
      }
      ReplacedHistoryKeepsGood(config, s, t, agentId, after, e);
    }
  }

  lemma DeprecationKeepsGood(config: Config, s: State, agentId: string, version: string, tenantId: string)
    requires GoodState(config, s)
    ensures GoodState(config, DeprecateVersion(s, agentId, version, tenantId).0)
  {
    var history := VersionsOf(s, agentId);
    if Has(history, version) {
      var t, after := DeprecateVersion(s, agentId, version, tenantId).0, Deprecate(history, version);
      DeprecateKeepsGood(config, history, version);
      var e := VersionDeprecated(agentId, version, tenantId);
      forall v ensures StatusOf(after, v) == ReplayStep(e, agentId, v, StatusOf(history, v)) {
        DeprecateStatus(history, version, v);
      }
      ReplacedHistoryKeepsGood(config, s, t, agentId, after, e);
    }
  }

  lemma RollbackKeepsGood(config: Config, s: State, agentId: string, tenantId: string, version: string,
          actor: Option<string>, now: int)
    requires GoodState(config, s)
    ensures GoodState(config, Rollback(s, agentId, tenantId, version, actor, now).0)
  {
    var history := VersionsOf(s, agentId);
    if Has(history, version) {
      var t, after := Rollback(s, agentId, tenantId, version, actor, now).0, Activate(history, version, now);
      ActivateKeepsGood(config, history, version, now);
      var e := VersionRolledBack(agentId, PublishedVersion(history), version, tenantId, actor);
      forall v ensures StatusOf(after, v) == ReplayStep(e, agentId, v, StatusOf(history, v)) {
        ActivateStatus(history, version, now, v);
        PublishedVersionExactly(config, history, v);
      }
      ReplacedHistoryKeepsGood(config, s, t, agentId, after, e);
    }
  }

  lemma StepKeepsGood(config: Config, s: State, call: Call)
    requires GoodState(config, s)
    ensures GoodState(config, Step(config, s, call).0)
  {
    match call
    case CreateCall(input, now) => CreateKeepsGood(config, s, input, now);
    case PublishCall(a, v, t, now) => PublishKeepsGood(config, s, a, v, t, now);
    case DeprecateCall(a, v, t) => DeprecationKeepsGood(config, s, a, v, t);
    case RollbackCall(a, t, v, actor, now) => RollbackKeepsGood(config, s, a, t, v, actor, now);
  }

  // After any calls, failing ones included, histories increase in precedence, at most one version
  // of an agent is published, digests and changelogs are right, and the audit trail alone tells
  // the status of every version of every agent.
  lemma {:induction false} EveryRunIsGood(config: Config, calls: seq<Call>)
    ensures GoodState(config, Run(config, calls))
  {
    if calls != [] {
      EveryRunIsGood(config, calls[..|calls| - 1]);
      StepKeepsGood(config, Run(config, calls[..|calls| - 1]), calls[|calls| - 1]);
    }
  }

  // A failed call changes no version and leaves no audit event.
  lemma FailedCallChangesNoVersion(config: Config, s: State, call: Call)
    ensures Step(config, s, call).1.Failure? ==>
              Step(config, s, call).0.versions == s.versions && Step(config, s, call).0.audit == s.audit
  {
    if call.CreateCall? && config.parse(call.input.version).Some? {
      var t := WithAgent(s, call.input, call.now);
      assert t.versions == s.versions && t.audit == s.audit;
    }
  }

  // Later is what earlier may become: records stay, in place, and only status and publish date
  // change; a version that left DRAFT does not return to it.
  ghost predicate Evolves(earlier: seq<VersionRecord>, later: seq<VersionRecord>) {
    && |earlier| <= |later|
    && forall i | 0 <= i < |earlier| ::
         && later[i] == earlier[i].(status := later[i].status, publishedAt := later[i].publishedAt)
         && (earlier[i].status != Draft ==> later[i].status != Draft)
         && (earlier[i].publishedAt.Some? ==> later[i].publishedAt.Some?)
  }

  lemma UpdatesEvolve(history: seq<VersionRecord>, version: string, now: int)
    ensures Evolves(history, history)
    ensures Evolves(history, Activate(history, version, now))
    ensures Evolves(history, Deprecate(history, version))
  {
  }

  lemma StepEvolves(config: Config, s: State, call: Call, a: string)
    ensures Evolves(VersionsOf(s, a), VersionsOf(Step(config, s, call).0, a))
  {
    match call {
      case CreateCall(input, now) =>
        assert VersionsOf(s, a) <= VersionsOf(Create(config, s, input, now).0, a);
      case PublishCall(_, v, _, now) => UpdatesEvolve(VersionsOf(s, a), v, now);
      case DeprecateCall(_, v, _) => UpdatesEvolve(VersionsOf(s, a), v, 0);
      case RollbackCall(_, _, v, _, now) => UpdatesEvolve(VersionsOf(s, a), v, now);
    }
  }

  lemma EvolvesTransitively(x: seq<VersionRecord>, y: seq<VersionRecord>, z: seq<VersionRecord>)
    requires Evolves(x, y) && Evolves(y, z)
    ensures Evolves(x, z)
  {
  }

  // Over every run, histories only evolve.
  lemma {:induction false} RunsEvolve(config: Config, calls: seq<Call>, k: nat, a: string)
    requires k <= |calls|
    ensures Evolves(VersionsOf(Run(config, calls[..k]), a), VersionsOf(Run(config, calls), a))
    decreases |calls|
  {
    if k == |calls| {
      assert calls[..k] == calls;
    } else {
      var front := calls[..|calls| - 1];
      RunsEvolve(config, front, k, a);
      assert front[..k] == calls[..k];
      StepEvolves(config, Run(config, front), calls[|calls| - 1], a);
      EvolvesTransitively(VersionsOf(Run(config, calls[..k]), a), VersionsOf(Run(config, front), a),
          VersionsOf(Run(config, calls), a));
    }
  }

  // After a successful publish or rollback the named version is the only published one.
  lemma PublishTakesOver(config: Config, s: State, call: Call, v: string)
    requires call.PublishCall? || call.RollbackCall?
    requires Step(config, s, call).1.Success?
    ensures var after := VersionsOf(Step(config, s, call).0, call.agentId);
            StatusOf(after, v) == Some(Published) <==> v == call.version
  {
    ActivateStatus(VersionsOf(s, call.agentId), call.version, call.now, v);
  }
}
