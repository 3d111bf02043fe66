// The agent version registry of packages/agents-registry, over its in-memory store.
module Registry {
  import opened Wrappers
  import opened SemVers
  import opened CanonicalJson
  import PromptText

  datatype Status = Draft | Published | Deprecated

  datatype AgentRecord = AgentRecord(
    id: string, tenantId: string, name: string, tags: seq<string>, createdAt: int, updatedAt: int)

  datatype VersionRecord = VersionRecord(
    id: string, agentId: string, version: string, status: Status, manifest: Json, manifestDigest: string,
    changelog: Option<string>, createdAt: int, publishedAt: Option<int>)

  datatype CreateInput = CreateInput(
    agentId: string, tenantId: string, name: string, tags: seq<string>, version: string,
    manifest: Json, changelog: Option<string>)

  datatype AuditEvent =
    | VersionCreated(agentId: string, version: string, manifestDigest: string, tenantId: string)
    | VersionPublished(agentId: string, version: string, tenantId: string)
    | VersionDeprecated(agentId: string, version: string, tenantId: string)
    | VersionRolledBack(agentId: string, fromVersion: Option<string>, toVersion: string, tenantId: string,
        actorId: Option<string>)

  datatype RegistryError = InvalidVersion | FutureTimestamp | NotGreater | ChangelogRequired | MissingVersion

  datatype Bump = Major | Minor | Patch | OtherBump

  // What the registry takes from elsewhere: parsing a version string, the kind of change between
  // versions one of which is a pre-release, and the key order and the digest of manifests.
  datatype Config = Config(
    parse: string -> Option<SemVer>,
    mixedBump: (SemVer, SemVer) -> Bump,
    less: KeyOrder,
    digest: Digest)
  {
    function BumpOf(previous: SemVer, next: SemVer): Bump {
      if IsPlain(previous) && IsPlain(next) then
        if previous.major != next.major then Major
        else if previous.minor != next.minor then Minor
        else if previous.patch != next.patch then Patch
        else OtherBump
      else mixedBump(previous, next)
    }

    // The precedence of a stored version; all of them parse.
    function Prec(version: string): SemVer {
      match parse(version)
      case Some(v) => v
      case None => SemVer(0, 0, 0, [])
    }

    function LacksChangelog(changelog: Option<string>): bool {
      changelog == None || PromptText.Trim(changelog.value) == ""
    }
  }

  datatype State = State(
    agentIds: seq<string>, agents: map<string, AgentRecord>,
    versions: map<string, seq<VersionRecord>>, audit: seq<AuditEvent>)

  function VersionsOf(s: State, agentId: string): seq<VersionRecord> {
    if agentId in s.versions then s.versions[agentId] else []
  }

  /* What each call does, said without its searches and updates. */

  function WithAgent(s: State, input: CreateInput, now: int): State {
    if input.agentId in s.agents then
      s.(agents := s.agents[input.agentId :=
          s.agents[input.agentId].(name := input.name, tags := input.tags, updatedAt := now)])
    else
      s.(agentIds := s.agentIds + [input.agentId],
         agents := s.agents[input.agentId :=
             AgentRecord(input.agentId, input.tenantId, input.name, input.tags, now, now)])
  }

  function NewRecord(config: Config, input: CreateInput, now: int): VersionRecord {
    VersionRecord("agent_version_" + input.agentId + "_" + input.version, input.agentId, input.version, Draft,
                  input.manifest, HashManifest(input.manifest, config.less, config.digest),
                  if input.changelog == Some("") then None else input.changelog, now, None)
  }

  // Why the version may not follow the history, if it may not.
  function Refusal(config: Config, history: seq<VersionRecord>, input: CreateInput, now: int): Option<RegistryError> {
    if history == [] then None
    else
      var latest := history[|history| - 1];
      var previous, next := config.Prec(latest.version), config.Prec(input.version);
      if latest.createdAt > now then Some(FutureTimestamp)
      else if !Less(previous, next) then Some(NotGreater)
      else if config.BumpOf(previous, next) in {Major, Minor} && config.LacksChangelog(input.changelog)
      then Some(ChangelogRequired)
      else None
  }

  function Create(config: Config, s: State, input: CreateInput, now: int)
    : (State, Result<VersionRecord, RegistryError>)
  {
    if config.parse(input.version) == None then (s, Failure(InvalidVersion))
    else
      var s := WithAgent(s, input, now);
      var history := VersionsOf(s, input.agentId);
      match Refusal(config, history, input, now)
      case Some(e) => (s, Failure(e))
      case None =>
        var created := NewRecord(config, input, now);
        (s.(versions := s.versions[input.agentId := history + [created]],
            audit := s.audit + [VersionCreated(input.agentId, input.version, created.manifestDigest, input.tenantId)]),
         Success(created))
  }

  function IndexOf(history: seq<VersionRecord>, version: string): (i: nat)
    ensures i <= |history|
    ensures i < |history| ==> history[i].version == version
    ensures forall j | 0 <= j < i :: history[j].version != version
  {
    if history == [] || history[0].version == version then 0 else 1 + IndexOf(history[1..], version)
  }

  predicate Has(history: seq<VersionRecord>, version: string) {
    IndexOf(history, version) < |history|
  }

  // The version becomes the published one and any other published one is deprecated.
  function Activate(history: seq<VersionRecord>, version: string, now: int): (r: seq<VersionRecord>)
    ensures |r| == |history|
  {
    seq(|history|, i requires 0 <= i < |history| =>
      if history[i].version == version then history[i].(status := Published, publishedAt := Some(now))
      else if history[i].status == Published then history[i].(status := Deprecated)
      else history[i])
  }

  function Deprecate(history: seq<VersionRecord>, version: string): (r: seq<VersionRecord>)
    ensures |r| == |history|
  {
    seq(|history|, i requires 0 <= i < |history| =>
      if history[i].version == version then history[i].(status := Deprecated) else history[i])
  }

  function PublishedVersion(history: seq<VersionRecord>): Option<string> {
    if history == [] then None
    else if history[0].status == Published then Some(history[0].version)
    else PublishedVersion(history[1..])
  }

  function Publish(s: State, agentId: string, version: string, tenantId: string, now: int)
    : (State, Result<VersionRecord, RegistryError>)
  {
    var history := VersionsOf(s, agentId);
    if !Has(history, version) then (s, Failure(MissingVersion))
    else
      var after := Activate(history, version, now);
      (s.(versions := s.versions[agentId := after], audit := s.audit + [VersionPublished(agentId, version, tenantId)]),
       Success(after[IndexOf(history, version)]))
  }

  function DeprecateVersion(s: State, agentId: string, version: string, tenantId: string)
    : (State, Result<VersionRecord, RegistryError>)
  {
    var history := VersionsOf(s, agentId);
    if !Has(history, version) then (s, Failure(MissingVersion))
    else
      var after := Deprecate(history, version);
      (s.(versions := s.versions[agentId := after], audit := s.audit + [VersionDeprecated(agentId, version, tenantId)]),
       Success(after[IndexOf(history, version)]))
  }

  function Rollback(s: State, agentId: string, tenantId: string, version: string, actorId: Option<string>, now: int)
    : (State, Result<VersionRecord, RegistryError>)
  {
    var history := VersionsOf(s, agentId);
    if !Has(history, version) then (s, Failure(MissingVersion))
    else
      var after := Activate(history, version, now);
      (s.(versions := s.versions[agentId := after],
          audit := s.audit + [VersionRolledBack(agentId, PublishedVersion(history), version, tenantId, actorId)]),
       Success(after[IndexOf(history, version)]))
  }

  /* What every state of the registry keeps. */

  ghost predicate IncreasingVersions(config: Config, history: seq<VersionRecord>) {
    && (forall i | 0 <= i < |history| :: config.parse(history[i].version).Some?)
    && (forall i, j | 0 <= i < j < |history| :: Less(config.Prec(history[i].version), config.Prec(history[j].version)))
  }

  // At most one version is published, and a published version has a publish date.
  ghost predicate OnePublished(history: seq<VersionRecord>) {
    && (forall i, j | 0 <= i < j < |history| :: history[i].status == Published ==> history[j].status != Published)
    && (forall i | 0 <= i < |history| && history[i].status == Published :: history[i].publishedAt.Some?)
  }

  ghost predicate DigestsMatch(config: Config, history: seq<VersionRecord>) {
    forall i | 0 <= i < |history| ::
        history[i].manifestDigest == HashManifest(history[i].manifest, config.less, config.digest)
  }

  // Adjacent plain releases that differ in major or minor have a changelog on the later one.
  ghost predicate ChangelogsPresent(config: Config, history: seq<VersionRecord>) {
    forall i | 0 < i < |history| ::
      var previous, next := config.Prec(history[i - 1].version), config.Prec(history[i].version);
      IsPlain(previous) && IsPlain(next) && (previous.major != next.major || previous.minor != next.minor)
      ==> !config.LacksChangelog(history[i].changelog)
  }

  ghost predicate GoodHistory(config: Config, history: seq<VersionRecord>) {
    IncreasingVersions(config, history) && OnePublished(history) && DigestsMatch(config, history)
        && ChangelogsPresent(config, history)
  }

  function StatusOf(history: seq<VersionRecord>, version: string): Option<Status> {
    var i := IndexOf(history, version);
    if i < |history| then Some(history[i].status) else None
  }

  // What an audit event says of the status of a version.
  function ReplayStep(e: AuditEvent, agentId: string, version: string, before: Option<Status>): Option<Status> {
    if e.agentId != agentId then before
    else
      match e
      case VersionCreated(_, v, _, _) => if v == version then Some(Draft) else before
      case VersionPublished(_, v, _) =>
        if v == version then Some(Published)
        else if before == Some(Published) then Some(Deprecated)
        else before
      case VersionDeprecated(_, v, _) => if v == version then Some(Deprecated) else before
      case VersionRolledBack(_, from, v, _, _) =>
        if v == version then Some(Published)
        else if from == Some(version) then Some(Deprecated)
        else before
  }

  // The status of a version, read off the audit trail alone.
  function ReplayStatus(audit: seq<AuditEvent>, agentId: string, version: string): Option<Status> {
    if audit == [] then None
    else ReplayStep(audit[|audit| - 1], agentId, version, ReplayStatus(audit[..|audit| - 1], agentId, version))
  }

  ghost predicate AuditTells(s: State) {
    forall a, v :: ReplayStatus(s.audit, a, v) == StatusOf(VersionsOf(s, a), v)
  }

  ghost predicate GoodState(config: Config, s: State) {
    && (forall a | a in s.versions :: GoodHistory(config, s.versions[a]))
    && AuditTells(s)
  }

  /* Each operation keeps it. */

  lemma DistinctVersions(config: Config, history: seq<VersionRecord>, i: nat, j: nat)
    requires IncreasingVersions(config, history) && i < |history| && j < |history|
        && history[i].version == history[j].version
    ensures i == j
  {
    var p := config.Prec(history[i].version);
    PrecedenceOrder(p, p, p);
    assert i < j ==> Less(p, p);
    assert j < i ==> Less(p, p);
  }

  lemma ActivateKeepsGood(config: Config, history: seq<VersionRecord>, version: string, now: int)
    requires GoodHistory(config, history)
    ensures GoodHistory(config, Activate(history, version, now))
  {
    var after := Activate(history, version, now);
    assert forall i | 0 <= i < |after| :: after[i].version == history[i].version;
    assert forall i | 0 <= i < |after| :: after[i].changelog == history[i].changelog;
    forall i, j | 0 <= i < j < |after| ensures after[i].status == Published ==> after[j].status != Published {
      if history[i].version == version && history[j].version == version {
        DistinctVersions(config, history, i, j);
      }
    }
  }

  lemma DeprecateKeepsGood(config: Config, history: seq<VersionRecord>, version: string)
    requires GoodHistory(config, history)
    ensures GoodHistory(config, Deprecate(history, version))
  {
    var after := Deprecate(history, version);
    assert forall i | 0 <= i < |after| :: after[i].version == history[i].version;
    assert forall i | 0 <= i < |after| :: after[i].changelog == history[i].changelog;
  }

  lemma AppendIncreases(config: Config, history: seq<VersionRecord>, r: VersionRecord)
    requires IncreasingVersions(config, history) && config.parse(r.version).Some?
    requires history != [] ==> Less(config.Prec(history[|history| - 1].version), config.Prec(r.version))
    ensures IncreasingVersions(config, history + [r])
    ensures !Has(history, r.version)
  {
    var next := config.Prec(r.version);
    forall i | 0 <= i < |history| ensures Less(config.Prec(history[i].version), next) {
      PrecedenceOrder(config.Prec(history[i].version), config.Prec(history[|history| - 1].version), next);
    }
    PrecedenceOrder(next, next, next);
  }

  lemma AppendKeepsDrafts(config: Config, history: seq<VersionRecord>, r: VersionRecord)
    requires OnePublished(history) && DigestsMatch(config, history)
    requires r.status == Draft && r.manifestDigest == HashManifest(r.manifest, config.less, config.digest)
    ensures OnePublished(history + [r]) && DigestsMatch(config, history + [r])
  {
  }

  lemma AppendKeepsChangelogs(config: Config, history: seq<VersionRecord>, r: VersionRecord)
    requires ChangelogsPresent(config, history)
    requires history != [] ==>
               var previous, next := config.Prec(history[|history| - 1].version), config.Prec(r.version);
               IsPlain(previous) && IsPlain(next) && (previous.major != next.major || previous.minor != next.minor)
               ==> !config.LacksChangelog(r.changelog)
    ensures ChangelogsPresent(config, history + [r])
  {
    var after := history + [r];
    assert forall i | 0 <= i < |history| :: after[i] == history[i];
  }

  lemma AppendKeepsGood(config: Config, history: seq<VersionRecord>, input: CreateInput, now: int)
    requires GoodHistory(config, history) && config.parse(input.version).Some?
    requires Refusal(config, history, input, now) == None
    ensures GoodHistory(config, history + [NewRecord(config, input, now)])
    ensures !Has(history, input.version)
  {
    var r := NewRecord(config, input, now);
    AppendIncreases(config, history, r);
    AppendKeepsDrafts(config, history, r);
    AppendKeepsChangelogs(config, history, r);
  }

  lemma {:induction false} IndexOfAppend(history: seq<VersionRecord>, r: VersionRecord, version: string)
    ensures IndexOf(history + [r], version) ==
            if Has(history, version) then IndexOf(history, version)
            else if r.version == version then |history| else |history| + 1
  {
    if history == [] {
      assert (history + [r])[1..] == [];
    } else {
      assert (history + [r])[1..] == history[1..] + [r];
      if history[0].version != version {
        IndexOfAppend(history[1..], r, version);
      }
    }
  }

  lemma {:induction false} SameVersionsSameIndex(a: seq<VersionRecord>, b: seq<VersionRecord>, version: string)
    requires |a| == |b| && forall i | 0 <= i < |a| :: a[i].version == b[i].version
    ensures IndexOf(a, version) == IndexOf(b, version)
  {
    if a != [] && a[0].version != version {
      SameVersionsSameIndex(a[1..], b[1..], version);
    }
  }

  lemma ActivateStatus(history: seq<VersionRecord>, version: string, now: int, v: string)
    requires Has(history, version)
    ensures StatusOf(Activate(history, version, now), v) ==
            if v == version then Some(Published)
            else if StatusOf(history, v) == Some(Published) then Some(Deprecated)
            else StatusOf(history, v)
  {
    SameVersionsSameIndex(Activate(history, version, now), history, v);
  }

  lemma DeprecateStatus(history: seq<VersionRecord>, version: string, v: string)
    requires Has(history, version)
    ensures StatusOf(Deprecate(history, version), v) == if v == version then Some(Deprecated) else StatusOf(history, v)
  {
    SameVersionsSameIndex(Deprecate(history, version), history, v);
  }

  lemma {:induction false} PublishedVersionIs(history: seq<VersionRecord>)
    ensures PublishedVersion(history).None? ==> forall i | 0 <= i < |history| :: history[i].status != Published
    ensures PublishedVersion(history).Some? ==>
              exists i :: 0 <= i < |history| && history[i].status == Published
                  && history[i].version == PublishedVersion(history).value
  {
    if history != [] && history[0].status != Published {
      PublishedVersionIs(history[1..]);
      if PublishedVersion(history[1..]).Some? {
        var i :| 0 <= i < |history[1..]| && history[1..][i].status == Published
            && history[1..][i].version == PublishedVersion(history).value;
        assert history[i + 1].status == Published;
      }
    }
  }

  // In a good history, a version is published exactly when it is the published version.
  lemma PublishedVersionExactly(config: Config, history: seq<VersionRecord>, v: string)
    requires GoodHistory(config, history)
    ensures StatusOf(history, v) == Some(Published) <==> PublishedVersion(history) == Some(v)
  {
    PublishedVersionIs(history);
    var k := IndexOf(history, v);
    if PublishedVersion(history).Some? {
      var i :| 0 <= i < |history| && history[i].status == Published
          && history[i].version == PublishedVersion(history).value;
      if history[i].version == v {
        DistinctVersions(config, history, i, k);
      }
    }
  }
}
