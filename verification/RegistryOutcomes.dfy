// What each call of the registry does, said of version numbers, texts and records alone.
module RegistryOutcomes {
  import opened Wrappers
  import opened SemVers
  import opened CanonicalJson
  import opened Registry
  import PromptText

  // Nothing to read in it.
  ghost predicate NoText(changelog: Option<string>) {
    changelog.Some? ==> forall i | 0 <= i < |changelog.value| :: PromptText.IsSpace(changelog.value[i])
  }

  lemma LacksChangelogMeansNoText(config: Config, changelog: Option<string>)
    ensures config.LacksChangelog(changelog) <==> NoText(changelog)
  {
    if changelog.Some? {
      var s := changelog.value;
      if PromptText.Blank(s) {
        PromptText.TrimBlank(s);
      } else {
        var f, l := PromptText.VisibleEnds(s);
        PromptText.TrimCuts(s, f, l);
        assert !PromptText.IsSpace(s[f]);
      }
    }
  }

  // Changes a changelog has to explain; with a pre-release on a side, the kind of change is given.
  ghost predicate NeedsChangelog(config: Config, previous: SemVer, next: SemVer) {
    if previous.pre == [] && next.pre == [] then previous.major != next.major || previous.minor != next.minor
    else config.mixedBump(previous, next).Major? || config.mixedBump(previous, next).Minor?
  }

  // Whether a version may follow the last one of the history, by section 11.
  ghost predicate MayFollow(config: Config, last: VersionRecord, input: CreateInput, now: int)
    requires config.parse(last.version).Some? && config.parse(input.version).Some?
  {
    var previous, next := config.parse(last.version).value, config.parse(input.version).value;
    && last.createdAt <= now
    && Precedes(previous, next)
    && (NeedsChangelog(config, previous, next) ==> !NoText(input.changelog))
  }

  // A new version is refused exactly for these reasons, the first that applies.
  lemma CreateRefusesExactly(config: Config, s: State, input: CreateInput, now: int)
    requires GoodState(config, s)
    ensures var r := Create(config, s, input, now).1;
            var history := if input.agentId in s.versions then s.versions[input.agentId] else [];
            && (r == Failure(InvalidVersion) <==> config.parse(input.version).None?)
            && (config.parse(input.version).Some? && history == [] ==> r.Success?)
            && (config.parse(input.version).Some? && history != [] ==>
                var last := history[|history| - 1];
                && config.parse(last.version).Some?
                && var previous, next := config.parse(last.version).value, config.parse(input.version).value;
                   && (r == Failure(FutureTimestamp) <==> now < last.createdAt)
                   && (r == Failure(NotGreater) <==> last.createdAt <= now && !Precedes(previous, next))
                   && (r == Failure(ChangelogRequired) <==>
                       && last.createdAt <= now && Precedes(previous, next)
                       && NeedsChangelog(config, previous, next) && NoText(input.changelog))
                   && (r.Success? <==> MayFollow(config, last, input, now)))
  {
    var history := VersionsOf(s, input.agentId);
    assert VersionsOf(WithAgent(s, input, now), input.agentId) == history;
    LacksChangelogMeansNoText(config, input.changelog);
    if config.parse(input.version).Some? && history != [] {
      LessIsPrecedes(config.Prec(history[|history| - 1].version), config.Prec(input.version));
    }
  }

  // An accepted version is a new draft at the end of its agent's history, and the audit trail names it.
  lemma CreateAppendsDraft(config: Config, s: State, input: CreateInput, now: int)
    requires Create(config, s, input, now).1.Success?
    ensures var (t, r) := Create(config, s, input, now);
            var history := if input.agentId in s.versions then s.versions[input.agentId] else [];
            && r.value == VersionRecord("agent_version_" + input.agentId + "_" + input.version, input.agentId,
                 input.version, Draft, input.manifest, r.value.manifestDigest, r.value.changelog, now, None)
            && r.value.manifestDigest == config.digest(StableJson(input.manifest, config.less))
            && r.value.changelog == (if input.changelog == Some("") then None else input.changelog)
            && t.versions == s.versions[input.agentId := history + [r.value]]
            && t.audit == s.audit
                 + [VersionCreated(input.agentId, input.version, r.value.manifestDigest, input.tenantId)]
  {
  }

  // The call writes the agent down even where it refuses the version, and only an invalid version stops it.
  lemma CreateWritesAgent(config: Config, s: State, input: CreateInput, now: int)
    requires config.parse(input.version).Some?
    ensures var t := Create(config, s, input, now).0;
            && t.agentIds == (if input.agentId in s.agents then s.agentIds else s.agentIds + [input.agentId])
            && input.agentId in t.agents
            && var agent := t.agents[input.agentId];
               && t.agents == s.agents[input.agentId := agent]
               && agent.name == input.name && agent.tags == input.tags && agent.updatedAt == now
               && if input.agentId in s.agents then
                    var before := s.agents[input.agentId];
                    agent.id == before.id && agent.tenantId == before.tenantId && agent.createdAt == before.createdAt
                  else agent.id == input.agentId && agent.tenantId == input.tenantId && agent.createdAt == now
  {
  }

  /* Changing the status of a version. */

  ghost predicate Holds(history: seq<VersionRecord>, version: string) {
    exists i | 0 <= i < |history| :: history[i].version == version
  }

  lemma HasMeansHolds(history: seq<VersionRecord>, version: string)
    ensures Has(history, version) <==> Holds(history, version)
  {
  }

  // One version is published now, the one published before is deprecated, and all else is as it was.
  ghost predicate NowPublished(before: seq<VersionRecord>, after: seq<VersionRecord>, version: string, now: int) {
    && |after| == |before|
    && forall i | 0 <= i < |before| ::
         after[i] == if before[i].version == version then
                       before[i].(status := Status.Published, publishedAt := Some(now))
                     else before[i].(status :=
                         if before[i].status == Status.Published then Status.Deprecated else before[i].status)
  }

  ghost predicate NowDeprecated(before: seq<VersionRecord>, after: seq<VersionRecord>, version: string) {
    && |after| == |before|
    && forall i | 0 <= i < |before| ::
         after[i] == if before[i].version == version then before[i].(status := Status.Deprecated) else before[i]
  }

  // What a call leaves of a history, and the event it records, if the version is there.
  ghost predicate Changes(s: State, t: State, r: Result<VersionRecord, RegistryError>, agentId: string,
      version: string, e: AuditEvent)
  {
    var history := if agentId in s.versions then s.versions[agentId] else [];
    if Holds(history, version) then
      && r.Success? && r.value.version == version
      && agentId in t.versions && r.value in t.versions[agentId]
      && t.versions == s.versions[agentId := t.versions[agentId]]
      && t.audit == s.audit + [e]
      && t.agentIds == s.agentIds && t.agents == s.agents
    else r == Failure(MissingVersion) && t == s
  }

  lemma PublishChanges(s: State, agentId: string, version: string, tenantId: string, now: int)
    ensures var (t, r) := Publish(s, agentId, version, tenantId, now);
            && Changes(s, t, r, agentId, version, VersionPublished(agentId, version, tenantId))
            && (r.Success? ==> NowPublished(s.versions[agentId], t.versions[agentId], version, now))
  {
    var history := VersionsOf(s, agentId);
    HasMeansHolds(history, version);
    if Has(history, version) {
      assert Activate(history, version, now)[IndexOf(history, version)] in Activate(history, version, now);
    }
  }

  lemma DeprecationChanges(s: State, agentId: string, version: string, tenantId: string)
    ensures var (t, r) := DeprecateVersion(s, agentId, version, tenantId);
            && Changes(s, t, r, agentId, version, VersionDeprecated(agentId, version, tenantId))
            && (r.Success? ==> NowDeprecated(s.versions[agentId], t.versions[agentId], version))
  {
    var history := VersionsOf(s, agentId);
    HasMeansHolds(history, version);
    if Has(history, version) {
      assert Deprecate(history, version)[IndexOf(history, version)] in Deprecate(history, version);
    }
  }

  // The event of a rollback names the version published before it, if there was one.
  lemma RollbackChanges(config: Config, s: State, agentId: string, tenantId: string, version: string,
          actorId: Option<string>, now: int) returns (from: Option<string>)
    requires GoodState(config, s)
    ensures var (t, r) := Rollback(s, agentId, tenantId, version, actorId, now);
            && Changes(s, t, r, agentId, version, VersionRolledBack(agentId, from, version, tenantId, actorId))
            && (r.Success? ==>
                && NowPublished(s.versions[agentId], t.versions[agentId], version, now)
                && forall i | 0 <= i < |s.versions[agentId]| ::
                     s.versions[agentId][i].status == Status.Published
                     <==> from == Some(s.versions[agentId][i].version))
  {
    var history := VersionsOf(s, agentId);
    from := PublishedVersion(history);
    HasMeansHolds(history, version);
    if Has(history, version) {
      assert Activate(history, version, now)[IndexOf(history, version)] in Activate(history, version, now);
      PublishedVersionIs(history);
      forall i | 0 <= i < |history|
        ensures history[i].status == Status.Published <==> from == Some(history[i].version)
      {
        if from.Some? {
          var k :| 0 <= k < |history| && history[k].status == Status.Published && history[k].version == from.value;
          if history[i].version == from.value {
            DistinctVersions(config, history, i, k);
          }
        }
      }
    }
  }
}
