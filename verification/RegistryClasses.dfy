// The registry's objects: the in-memory store and the registry over it, updated in place.
module RegistryClasses {
  import opened Wrappers
  import opened SemVers
  import opened Registry
  import opened RegistryRuns

  /* versions.slice().sort(semver.rcompare): highest precedence first, stable. */

  function InsertDescending(config: Config, r: VersionRecord, sorted: seq<VersionRecord>): seq<VersionRecord> {
    if sorted == [] || !Less(config.Prec(r.version), config.Prec(sorted[0].version)) then [r] + sorted
    else [sorted[0]] + InsertDescending(config, r, sorted[1..])
  }

  function SortDescending(config: Config, history: seq<VersionRecord>): seq<VersionRecord> {
    if history == [] then []
    else InsertDescending(config, history[0], SortDescending(config, history[1..]))
  }

  function Reverse(history: seq<VersionRecord>): (r: seq<VersionRecord>)
    ensures |r| == |history|
  {
    seq(|history|, i requires 0 <= i < |history| => history[|history| - 1 - i])
  }

  lemma {:induction false} InsertLast(config: Config, r: VersionRecord, sorted: seq<VersionRecord>)
    requires forall i | 0 <= i < |sorted| :: Less(config.Prec(r.version), config.Prec(sorted[i].version))
    ensures InsertDescending(config, r, sorted) == sorted + [r]
  {
    if sorted != [] {
      InsertLast(config, r, sorted[1..]);
      assert sorted == [sorted[0]] + sorted[1..];
    }
  }

  // Histories are kept in increasing precedence, so sorting a history reverses it.
  lemma {:induction false} SortReverses(config: Config, history: seq<VersionRecord>)
    requires IncreasingVersions(config, history)
    ensures SortDescending(config, history) == Reverse(history)
  {
    if history != [] {
      var rest := history[1..];
      assert IncreasingVersions(config, rest) by {
        forall i, j | 0 <= i < j < |rest| ensures Less(config.Prec(rest[i].version), config.Prec(rest[j].version)) {
          assert rest[i] == history[i + 1] && rest[j] == history[j + 1];
        }
      }
      SortReverses(config, rest);
      forall i | 0 <= i < |Reverse(rest)|
          ensures Less(config.Prec(history[0].version), config.Prec(Reverse(rest)[i].version)) {
        assert Reverse(rest)[i] == history[|history| - 1 - i];
      }
      InsertLast(config, history[0], Reverse(rest));
      assert Reverse(history) == Reverse(rest) + [history[0]];
    }
  }

  // versions.find(...)
  function Find(list: seq<VersionRecord>, p: VersionRecord -> bool): (r: Option<VersionRecord>)
    ensures r.Some? ==> r.value in list && p(r.value)
    ensures r.None? ==> forall v | v in list :: !p(v)
  {
    if list == [] then None
    else if p(list[0]) then Some(list[0])
    else Find(list[1..], p)
  }

  lemma ReverseHolds(history: seq<VersionRecord>, r: VersionRecord)
    ensures r in Reverse(history) <==> r in history
  {
    if r in history {
      var i :| 0 <= i < |history| && history[i] == r;
      assert Reverse(history)[|history| - 1 - i] == r;
    }
  }

  class InMemoryAgentRegistryStore {
    var agentIds: seq<string>
    var agents: map<string, AgentRecord>
    var versions: map<string, seq<VersionRecord>>

    constructor ()
      ensures agentIds == [] && agents == map[] && versions == map[]
    {
      agentIds, agents, versions := [], map[], map[];
    }

    ghost function Contents(): State
      reads this
    {
      State(agentIds, agents, versions, [])
    }

    method EnsureAgent(input: CreateInput, now: int)
      modifies this
      ensures Contents() == WithAgent(old(Contents()), input, now)
    {
      if input.agentId in agents {
        var current := agents[input.agentId];
        agents := agents[input.agentId := current.(name := input.name, tags := input.tags, updatedAt := now)];
      } else {
        agentIds := agentIds + [input.agentId];
        agents := agents[input.agentId := AgentRecord(input.agentId, input.tenantId, input.name, input.tags, now, now)];
      }
    }

    method CreateVersion(created: VersionRecord)
      modifies this`versions
      ensures versions == old(versions)[created.agentId := VersionsOf(old(Contents()), created.agentId) + [created]]
    {
      var current := if created.agentId in versions then versions[created.agentId] else [];
      versions := versions[created.agentId := current + [created]];
    }

    method ListVersions(config: Config, agentId: string) returns (list: seq<VersionRecord>)
      ensures list == SortDescending(config, VersionsOf(Contents(), agentId))
    {
      list := SortDescending(config, if agentId in versions then versions[agentId] else []);
    }

    // The first record of the version gets the status and, when there is one, the publish date.
    method UpdateVersion(agentId: string, version: string, status: Status, publishedAt: Option<int>)
      returns (r: Result<VersionRecord, RegistryError>)
      modifies this`versions
      ensures var history := VersionsOf(old(Contents()), agentId);
              if Has(history, version) then
                var i := IndexOf(history, version);
                var updated := Patched(history[i], status, publishedAt);
                r == Success(updated) && versions == old(versions)[agentId := history[i := updated]]
              else r == Failure(MissingVersion) && versions == old(versions)
    {
      var list := if agentId in versions then versions[agentId] else [];
      var index := 0;
      while index < |list| && list[index].version != version
        invariant 0 <= index <= |list|
        invariant IndexOf(list, version) >= index
        invariant versions == old(versions)
      {
        IndexOfPasses(list, version, index);
        index := index + 1;
      }
      if index == |list| {
        return Failure(MissingVersion);
      }
      var updated := Patched(list[index], status, publishedAt);
      versions := versions[agentId := list[index := updated]];
      return Success(updated);
    }

    method ListAgentsByTenant(tenantId: string) returns (list: seq<AgentRecord>)
      ensures list == AgentsOfTenant(agentIds, agents, tenantId)
    {
      list := [];
      var i := 0;
      while i < |agentIds|
        invariant 0 <= i <= |agentIds|
        invariant list == AgentsOfTenant(agentIds[..i], agents, tenantId)
      {
        assert agentIds[..i + 1][..i] == agentIds[..i];
        if agentIds[i] in agents && agents[agentIds[i]].tenantId == tenantId {
          list := list + [agents[agentIds[i]]];
        }
        i := i + 1;
      }
      assert agentIds[..i] == agentIds;
    }
  }

  function AgentsOfTenant(ids: seq<string>, agents: map<string, AgentRecord>, tenantId: string): seq<AgentRecord> {
    if ids == [] then []
    else
      var id := ids[|ids| - 1];
      AgentsOfTenant(ids[..|ids| - 1], agents, tenantId)
      + (if id in agents && agents[id].tenantId == tenantId then [agents[id]] else [])
  }

  function Patched(r: VersionRecord, status: Status, publishedAt: Option<int>): VersionRecord {
    r.(status := status, publishedAt := if publishedAt.Some? then publishedAt else r.publishedAt)
  }

  lemma {:induction false} IndexOfPasses(list: seq<VersionRecord>, version: string, i: nat)
    requires i < |list| && list[i].version != version && IndexOf(list, version) >= i
    ensures IndexOf(list, version) >= i + 1
  {
  }

  /* Two updates in place amount to one pass over the history. */

  // The history after the store's updates that publish a version.
  function Republished(history: seq<VersionRecord>, other: Option<string>, version: string, now: int)
    : seq<VersionRecord>
    requires Has(history, version) && (other.Some? ==> Has(history, other.value))
  {
    var first :=
      if other.Some? then
        var i := IndexOf(history, other.value);
        history[i := Patched(history[i], Deprecated, None)]
      else history;
    SameVersionsSameIndex(first, history, version);
    var i := IndexOf(first, version);
    first[i := Patched(first[i], Published, Some(now))]
  }

  lemma RepublishedAt(history: seq<VersionRecord>, other: Option<string>, version: string, now: int, i: nat)
    requires Has(history, version) && (other.Some? ==> Has(history, other.value) && other.value != version)
    requires i < |history|
    ensures |Republished(history, other, version, now)| == |history|
    ensures Republished(history, other, version, now)[i]
            == if i == IndexOf(history, version) then Patched(history[i], Published, Some(now))
               else if other.Some? && i == IndexOf(history, other.value) then Patched(history[i], Deprecated, None)
               else history[i]
  {
    if other.Some? {
      var m := IndexOf(history, other.value);
      SameVersionsSameIndex(history[m := Patched(history[m], Deprecated, None)], history, version);
    }
  }

  lemma SamePublished(history: seq<VersionRecord>, i: nat, j: nat)
    requires OnePublished(history) && i < |history| && j < |history|
    requires history[i].status == Published && history[j].status == Published
    ensures i == j
  {
  }

  // Whatever the search returned as the other published version, the updates activate the version.
  lemma RepublishedIsActivate(config: Config, history: seq<VersionRecord>, other: Option<string>, version: string,
          now: int)
    requires GoodHistory(config, history) && Has(history, version)
    requires other.Some? ==> other.value != version && StatusOf(history, other.value) == Some(Published)
    requires other.None? ==> forall r | r in history && r.status == Published :: r.version == version
    ensures Republished(history, other, version, now) == Activate(history, version, now)
  {
    var k := IndexOf(history, version);
    RepublishedAt(history, other, version, now, k);
    forall i | 0 <= i < |history|
      ensures Republished(history, other, version, now)[i] == Activate(history, version, now)[i]
    {
      RepublishedAt(history, other, version, now, i);
      assert history[i] in history;
      if history[i].version == version {
        DistinctVersions(config, history, i, k);
      } else if other.Some? && history[i].status == Published {
        SamePublished(history, IndexOf(history, other.value), i);
      }
    }
  }

  // What searching the sorted list finds.
  lemma SearchFinds(config: Config, history: seq<VersionRecord>, version: string)
    requires GoodHistory(config, history)
    ensures Find(SortDescending(config, history), (r: VersionRecord) => r.version == version).Some?
        <==> Has(history, version)
  {
    SortReverses(config, history);
    forall r ensures r in Reverse(history) <==> r in history { ReverseHolds(history, r); }
    var found := Find(SortDescending(config, history), (r: VersionRecord) => r.version == version);
    if found.Some? {
      var i :| 0 <= i < |history| && history[i] == found.value;
    }
    if Has(history, version) {
      assert history[IndexOf(history, version)] in history;
    }
  }

  lemma PublishedSearchFinds(config: Config, history: seq<VersionRecord>, found: Option<VersionRecord>,
          p: VersionRecord -> bool)
    requires GoodHistory(config, history) && found == Find(SortDescending(config, history), p)
    requires forall r | p(r) :: r.status == Published
    ensures found.Some? ==> StatusOf(history, found.value.version) == Some(Published) && p(found.value)
    ensures found.None? ==> forall r | r in history :: !p(r)
  {
    SortReverses(config, history);
    forall r ensures r in Reverse(history) <==> r in history { ReverseHolds(history, r); }
    if found.Some? {
      var i :| 0 <= i < |history| && history[i] == found.value;
      DistinctVersions(config, history, i, IndexOf(history, found.value.version));
    }
  }

  class AgentRegistry {
    const config: Config
    const store: InMemoryAgentRegistryStore
    var auditTrail: seq<AuditEvent>

    constructor (config: Config)
      ensures this.config == config && Valid() && State() == EMPTY
      ensures fresh(store)
    {
      this.config := config;
      store := new InMemoryAgentRegistryStore();
      auditTrail := [];
    }

    ghost function State(): State
      reads this, store
    {
      Registry.State(store.agentIds, store.agents, store.versions, auditTrail)
    }

    ghost predicate Valid()
      reads this, store
    {
      GoodState(config, State())
    }

    // What every call ensures: it does what its specification says of the old state.
    ghost predicate Does(call: Call, before: State, r: Result<VersionRecord, RegistryError>)
      reads this, store
    {
      Valid() && State() == Step(config, before, call).0 && r == Step(config, before, call).1
    }

    method CreateVersion(input: CreateInput, now: int) returns (r: Result<VersionRecord, RegistryError>)
      requires Valid()
      modifies this, store
      ensures Does(CreateCall(input, now), old(State()), r)
    {
      ghost var s := State();
      StepKeepsGood(config, s, CreateCall(input, now));
      if config.parse(input.version) == None {
        return Failure(InvalidVersion);
      }
      store.EnsureAgent(input, now);
      var versions := store.ListVersions(config, input.agentId);
      ghost var history := VersionsOf(s, input.agentId);
      assert VersionsOf(WithAgent(s, input, now), input.agentId) == history;
      LatestIsLast(config, history);
      if versions != [] {
        var latest := versions[0];
        if latest.createdAt > now {
          return Failure(FutureTimestamp);
        }
        var previous, next := config.Prec(latest.version), config.Prec(input.version);
        PrecedenceOrder(previous, next, next);
        if !(Compare(next, previous) > 0) {
          return Failure(NotGreater);
        }
        var bump := config.BumpOf(previous, next);
        if (bump == Major || bump == Minor) && config.LacksChangelog(input.changelog) {
          return Failure(ChangelogRequired);
        }
      }
      var created := NewRecord(config, input, now);
      store.CreateVersion(created);
      auditTrail := auditTrail + [VersionCreated(input.agentId, input.version, created.manifestDigest, input.tenantId)];
      return Success(created);
    }

    method PublishVersion(agentId: string, version: string, tenantId: string, now: int)
      returns (r: Result<VersionRecord, RegistryError>)
      requires Valid()
      modifies this, store
      ensures Does(PublishCall(agentId, version, tenantId, now), old(State()), r)
    {
      ghost var s, history := State(), VersionsOf(State(), agentId);
      StepKeepsGood(config, s, PublishCall(agentId, version, tenantId, now));
      EmptyIsGood(config);
      var versions := store.ListVersions(config, agentId);
      SearchFinds(config, history, version);
      var target := Find(versions, (r: VersionRecord) => r.version == version);
      if target.None? {
        return Failure(MissingVersion);
      }
      var isOther := (r: VersionRecord) => r.status == Published && r.version != version;
      var published := Find(versions, isOther);
      PublishedSearchFinds(config, history, published, isOther);
      ghost var other := if published.Some? then Some(published.value.version) else None;
      RepublishedIsActivate(config, history, other, version, now);
      r := ActivateVersion(agentId, if published.Some? then Some(published.value.version) else None, version, now);
      auditTrail := auditTrail + [VersionPublished(agentId, version, tenantId)];
    }

    // The two updates, where they amount to activating the version.
    method ActivateVersion(agentId: string, other: Option<string>, version: string, now: int)
      returns (r: Result<VersionRecord, RegistryError>)
      requires var history := VersionsOf(State(), agentId);
               && Has(history, version) && (other.Some? ==> Has(history, other.value))
               && Republished(history, other, version, now) == Activate(history, version, now)
      modifies store`versions
      ensures var s := old(State());
              var after := Activate(VersionsOf(s, agentId), version, now);
              && State() == s.(versions := s.versions[agentId := after])
              && r == Success(after[IndexOf(VersionsOf(s, agentId), version)])
    {
      r := SwitchTo(agentId, other, version, now);
    }

    // Deprecates the other version, if any, then publishes this one.
    method SwitchTo(agentId: string, other: Option<string>, version: string, now: int)
      returns (r: Result<VersionRecord, RegistryError>)
      requires agentId in store.versions && Has(store.versions[agentId], version)
      requires other.Some? ==> Has(store.versions[agentId], other.value)
      modifies store`versions
      ensures var after := Republished(old(store.versions[agentId]), other, version, now);
              && store.versions == old(store.versions)[agentId := after]
              && SameIndex(old(store.versions[agentId]), after, version)
              && r == Success(after[IndexOf(after, version)])
    {
      ghost var history := store.versions[agentId];
      if other.Some? {
        var _ := store.UpdateVersion(agentId, other.value, Deprecated, None);
        SameVersionsSameIndex(store.versions[agentId], history, version);
      }
      r := store.UpdateVersion(agentId, version, Published, Some(now));
      SameVersionsSameIndex(store.versions[agentId], history, version);
    }

    method DeprecateVersion(agentId: string, version: string, tenantId: string)
            returns (r: Result<VersionRecord, RegistryError>)
      requires Valid()
      modifies this, store
      ensures Does(DeprecateCall(agentId, version, tenantId), old(State()), r)
    {
      ghost var s, history := State(), VersionsOf(State(), agentId);
      StepKeepsGood(config, s, DeprecateCall(agentId, version, tenantId));
      EmptyIsGood(config);
      r := store.UpdateVersion(agentId, version, Deprecated, None);
      if r.Failure? {
        return;
      }
      PatchedIsDeprecate(config, history, version);
      auditTrail := auditTrail + [VersionDeprecated(agentId, version, tenantId)];
    }

    method RollbackVersion(agentId: string, tenantId: string, targetVersion: string, actorId: Option<string>, now: int)
      returns (r: Result<VersionRecord, RegistryError>)
      requires Valid()
      modifies this, store
      ensures Does(RollbackCall(agentId, tenantId, targetVersion, actorId, now), old(State()), r)
    {
      ghost var s, history := State(), VersionsOf(State(), agentId);
      StepKeepsGood(config, s, RollbackCall(agentId, tenantId, targetVersion, actorId, now));
      EmptyIsGood(config);
      var versions := store.ListVersions(config, agentId);
      var current := CurrentVersion(agentId, versions);
      SearchFinds(config, history, targetVersion);
      var target := Find(versions, (r: VersionRecord) => r.version == targetVersion);
      if target.None? {
        return Failure(MissingVersion);
      }
      var other := if current == Some(targetVersion) then None else current;
      CurrentReplaced(config, history, targetVersion, now);
      r := ActivateVersion(agentId, other, targetVersion, now);
      auditTrail := auditTrail + [VersionRolledBack(agentId, current, targetVersion, tenantId, actorId)];
    }

    // The version that is found published in the sorted list.
    method CurrentVersion(ghost agentId: string, versions: seq<VersionRecord>) returns (current: Option<string>)
      requires Valid() && versions == SortDescending(config, VersionsOf(State(), agentId))
      ensures current == PublishedVersion(VersionsOf(State(), agentId))
    {
      ghost var history := VersionsOf(State(), agentId);
      EmptyIsGood(config);
      var isPublished := (r: VersionRecord) => r.status == Published;
      var found := Find(versions, isPublished);
      PublishedSearchFinds(config, history, found, isPublished);
      CurrentIsPublished(config, history, found);
      current := if found.Some? then Some(found.value.version) else None;
    }
  }

  ghost predicate SameIndex(a: seq<VersionRecord>, b: seq<VersionRecord>, version: string) {
    |a| == |b| && IndexOf(a, version) == IndexOf(b, version) < |b|
  }

  lemma EmptyIsGood(config: Config)
    ensures GoodHistory(config, [])
  {
  }

  // The latest version is the first of the sorted list and the last of the history.
  lemma LatestIsLast(config: Config, history: seq<VersionRecord>)
    requires history == [] || GoodHistory(config, history)
    ensures SortDescending(config, history) == [] <==> history == []
    ensures history != [] ==> SortDescending(config, history)[0] == history[|history| - 1]
  {
    if history != [] {
      SortReverses(config, history);
    }
  }

  lemma PatchedIsDeprecate(config: Config, history: seq<VersionRecord>, version: string)
    requires GoodHistory(config, history) && Has(history, version)
    ensures var i := IndexOf(history, version);
            history[i := Patched(history[i], Deprecated, None)] == Deprecate(history, version)
  {
    var k := IndexOf(history, version);
    forall i | 0 <= i < |history| && history[i].version == version ensures i == k {
      DistinctVersions(config, history, i, k);
    }
  }

  // Taking the published version, unless it is the wanted one, for the other one activates the version.
  lemma CurrentReplaced(config: Config, history: seq<VersionRecord>, version: string, now: int)
    requires GoodHistory(config, history) && Has(history, version)
    ensures var current := PublishedVersion(history);
            var other := if current == Some(version) then None else current;
            && (other.Some? ==> Has(history, other.value))
            && Republished(history, other, version, now) == Activate(history, version, now)
  {
    var current := PublishedVersion(history);
    PublishedVersionIs(history);
    if current.Some? {
      PublishedVersionExactly(config, history, current.value);
    }
    forall r | r in history && r.status == Published ensures current == Some(r.version) {
      var i :| 0 <= i < |history| && history[i] == r;
      DistinctVersions(config, history, i, IndexOf(history, r.version));
      PublishedVersionExactly(config, history, r.version);
    }
    RepublishedIsActivate(config, history, if current == Some(version) then None else current, version, now);
  }

  lemma CurrentIsPublished(config: Config, history: seq<VersionRecord>, current: Option<VersionRecord>)
    requires GoodHistory(config, history)
    requires current.Some? ==> StatusOf(history, current.value.version) == Some(Published)
    requires current.None? ==> forall r | r in history :: r.status != Published
    ensures PublishedVersion(history) == if current.Some? then Some(current.value.version) else None
  {
    if current.Some? {
      PublishedVersionExactly(config, history, current.value.version);
    } else {
      forall i | 0 <= i < |history| ensures history[i].status != Published {
        assert history[i] in history;
      }
      PublishedVersionIs(history);
    }
  }
}

// The paged index of a tenant's agents.
module RegistryIndex {
  import opened Wrappers
  import opened Registry
  import opened RegistryClasses
  import opened Cursors

  datatype IndexQuery = IndexQuery(
    tenantId: string, cursor: Option<string>, limit: Option<int>, status: Option<Status>,
    version: Option<string>, tag: Option<string>, search: Option<string>)

  datatype IndexItem = IndexItem(agent: AgentRecord, latest: Option<VersionRecord>, published: Option<VersionRecord>)

  // An absent or empty filter lets everything pass.
  predicate IsSet(filter: Option<string>) {
    filter.Some? && filter.value != ""
  }

  predicate Includes(text: string, part: string) {
    |part| <= |text| && (text[..|part|] == part || (text != "" && Includes(text[1..], part)))
  }

  function JoinWords(words: seq<string>): string {
    if words == [] then "" else if |words| == 1 then words[0] else words[0] + " " + JoinWords(words[1..])
  }

  predicate WantedVersion(q: IndexQuery, r: VersionRecord) {
    (IsSet(q.version) ==> r.version == q.version.value)
        && r.status == (if q.status.Some? then q.status.value else Published)
  }

  predicate WantedAgent(q: IndexQuery, agent: AgentRecord, lower: string -> string) {
    && (IsSet(q.tag) ==> q.tag.value in agent.tags)
    && (IsSet(q.search) ==> Includes(lower(agent.name + " " + JoinWords(agent.tags)), lower(q.search.value)))
  }

  // The published record of a history, searched from its latest version down.
  function PublishedRecord(history: seq<VersionRecord>): Option<VersionRecord> {
    if history == [] then None
    else if history[|history| - 1].status == Published then Some(history[|history| - 1])
    else PublishedRecord(history[..|history| - 1])
  }

  function ItemOf(agent: AgentRecord, history: seq<VersionRecord>): IndexItem {
    IndexItem(agent, if history == [] then None else Some(history[|history| - 1]), PublishedRecord(history))
  }

  // The entry of an agent, when one of its versions is wanted and the agent is.
  function Entry(s: State, q: IndexQuery, lower: string -> string, agent: AgentRecord): seq<IndexItem> {
    var history := VersionsOf(s, agent.id);
    if (exists r :: r in history && WantedVersion(q, r)) && WantedAgent(q, agent, lower)
    then [ItemOf(agent, history)]
    else []
  }

  // The items a query asks for, in the order of the tenant's agents.
  function Index(s: State, q: IndexQuery, lower: string -> string, agents: seq<AgentRecord>): seq<IndexItem> {
    if agents == [] then []
    else Index(s, q, lower, agents[..|agents| - 1]) + Entry(s, q, lower, agents[|agents| - 1])
  }

  function Filter(list: seq<VersionRecord>, p: VersionRecord -> bool): (r: seq<VersionRecord>)
    ensures forall x :: x in r <==> x in list && p(x)
  {
    if list == [] then []
    else
      assert list == [list[0]] + list[1..];
      (if p(list[0]) then [list[0]] else []) + Filter(list[1..], p)
  }

  predicate IsPublished(r: VersionRecord) {
    r.status == Published
  }

  lemma {:induction false} FindFromLatest(history: seq<VersionRecord>)
    ensures Find(Reverse(history), IsPublished) == PublishedRecord(history)
  {
    if history != [] {
      var front := history[..|history| - 1];
      assert Reverse(history)[1..] == Reverse(front);
      FindFromLatest(front);
    }
  }

  // The closure run for each agent: list, filter twice, and look up.
  method IndexAgent(registry: AgentRegistry, q: IndexQuery, lower: string -> string, agent: AgentRecord)
    returns (entry: seq<IndexItem>)
    requires registry.Valid()
    ensures entry == Entry(registry.State(), q, lower, agent)
  {
    var versions := registry.store.ListVersions(registry.config, agent.id);
    EntryOfSorted(registry.config, registry.State(), q, lower, agent);
    var byStatus := FilteredByStatus(q, versions);
    var published := Find(versions, IsPublished);
    entry := [];
    if byStatus != [] && WantedAgent(q, agent, lower) {
      entry := [IndexItem(agent, if versions == [] then None else Some(versions[0]), published)];
    }
  }

  // An agent's entry, said of its versions as the store lists them.
  lemma EntryOfSorted(config: Config, s: State, q: IndexQuery, lower: string -> string, agent: AgentRecord)
    requires GoodState(config, s)
    ensures var versions := SortDescending(config, VersionsOf(s, agent.id));
            Entry(s, q, lower, agent)
            == if FilteredByStatus(q, versions) != [] && WantedAgent(q, agent, lower)
               then [IndexItem(agent, if versions == [] then None else Some(versions[0]), Find(versions, IsPublished))]
               else []
  {
    var history := VersionsOf(s, agent.id);
    var versions := SortDescending(config, history);
    VersionsAreHistory(config, s, agent.id);
    FilteredExactly(q, history, versions);
    FindFromLatest(history);
  }

  function FilteredByStatus(q: IndexQuery, versions: seq<VersionRecord>): seq<VersionRecord> {
    var byVersion :=
      if IsSet(q.version) then Filter(versions, (r: VersionRecord) => r.version == q.version.value) else versions;
    var wanted := if q.status.Some? then q.status.value else Published;
    Filter(byVersion, (r: VersionRecord) => r.status == wanted)
  }

  lemma FilteredExactly(q: IndexQuery, history: seq<VersionRecord>, versions: seq<VersionRecord>)
    requires forall r :: r in versions <==> r in history
    ensures FilteredByStatus(q, versions) != [] <==> exists r :: r in history && WantedVersion(q, r)
  {
    var byStatus := FilteredByStatus(q, versions);
    assert forall r :: r in byStatus <==> r in history && WantedVersion(q, r);
    assert byStatus != [] ==> byStatus[0] in byStatus;
  }

  // One page of the index: the store is searched agent by agent, then the page is cut.
  method ListByTenant(registry: AgentRegistry, q: IndexQuery, lower: string -> string) returns (page: Page<IndexItem>)
    requires registry.Valid()
    ensures var agents := AgentsOfTenant(registry.State().agentIds, registry.State().agents, q.tenantId);
            page == ListPage(Index(registry.State(), q, lower, agents), q.limit, q.cursor)
  {
    var agents := registry.store.ListAgentsByTenant(q.tenantId);
    var filtered: seq<IndexItem> := [];
    var i := 0;
    while i < |agents|
      invariant 0 <= i <= |agents|
      invariant filtered == Index(registry.State(), q, lower, agents[..i])
    {
      assert agents[..i + 1][..i] == agents[..i];
      var entry := IndexAgent(registry, q, lower, agents[i]);
      filtered := filtered + entry;
      i := i + 1;
    }
    assert agents[..i] == agents;
    page := ListPage(filtered, q.limit, q.cursor);
  }

  lemma VersionsAreHistory(config: Config, s: State, agentId: string)
    requires GoodState(config, s)
    ensures var history := VersionsOf(s, agentId);
            SortDescending(config, history) == Reverse(history) && forall r :: r in Reverse(history) <==> r in history
  {
    var history := VersionsOf(s, agentId);
    EmptyIsGood(config);
    SortReverses(config, history);
    forall r ensures r in Reverse(history) <==> r in history {
      ReverseHolds(history, r);
    }
  }
}
