// Which agents a tenant's index lists, with what, and which of them a page holds.
module RegistryListings {
  import opened Wrappers
  import opened Registry
  import opened RegistryClasses
  import opened RegistryIndex
  import opened Cursors

  // A filter lets everything pass if it is absent or empty.
  predicate Passes(filter: Option<string>, text: string) {
    filter == None || filter == Some("") || filter == Some(text)
  }

  // The words with one space between two of them, from the first on.
  function Spaced(words: seq<string>): string {
    if words == [] then ""
    else if |words| == 1 then words[0]
    else Spaced(words[..|words| - 1]) + " " + words[|words| - 1]
  }

  // The text of the agent that is searched, in lower case, has the lowered search text in it.
  ghost predicate Matches(agent: AgentRecord, search: string, lower: string -> string) {
    Contains(lower(agent.name + " " + Spaced(agent.tags)), lower(search))
  }

  ghost predicate PartAt(text: string, part: string, i: nat) {
    i + |part| <= |text| && text[i..i + |part|] == part
  }

  ghost predicate Contains(text: string, part: string) {
    exists i: nat :: PartAt(text, part, i)
  }

  // The agent of the id is listed: it is the tenant's, a version of it has the status and the version asked for,
  // a published one if no status is, and it has the tag and matches the search.
  ghost predicate Listed(s: State, q: IndexQuery, lower: string -> string, id: string) {
    && id in s.agents && s.agents[id].tenantId == q.tenantId
    && var agent := s.agents[id];
       && agent.id in s.versions
       && (exists r | r in s.versions[agent.id] ::
             Passes(q.version, r.version) && r.status == (if q.status.Some? then q.status.value else Published))
       && (q.tag == None || q.tag == Some("") || q.tag.value in agent.tags)
       && (q.search == None || q.search == Some("") || Matches(agent, q.search.value, lower))
  }

  // What is shown of an agent: its last version, and the published one if there is one.
  ghost predicate Shows(s: State, item: IndexItem, agent: AgentRecord) {
    && item.agent == agent && agent.id in s.versions
    && var history := s.versions[agent.id];
       && history != [] && item.latest == Some(history[|history| - 1])
       && (item.published.Some? ==> item.published.value in history && item.published.value.status == Published)
       && (item.published.None? ==> forall r | r in history :: r.status != Published)
  }

  lemma {:induction false} IncludesExactly(text: string, part: string)
    ensures Includes(text, part) <==> Contains(text, part)
  {
    if |part| <= |text| && text[..|part|] == part {
      assert PartAt(text, part, 0);
    } else if text != "" {
      IncludesExactly(text[1..], part);
      if i: nat :| PartAt(text[1..], part, i) {
        assert text[i + 1..i + 1 + |part|] == text[1..][i..i + |part|];
        assert PartAt(text, part, i + 1);
      }
      if i: nat :| PartAt(text, part, i) {
        assert text[1..][i - 1..i - 1 + |part|] == text[i..i + |part|];
        assert PartAt(text[1..], part, i - 1);
      }
    }
  }

  lemma {:induction false} JoinWordsSnoc(words: seq<string>, last: string)
    requires words != []
    ensures JoinWords(words + [last]) == JoinWords(words) + " " + last
  {
    assert (words + [last])[1..] == words[1..] + [last];
    if |words| > 1 {
      JoinWordsSnoc(words[1..], last);
    }
  }

  lemma {:induction false} JoinWordsAreSpaced(words: seq<string>)
    ensures JoinWords(words) == Spaced(words)
  {
    if |words| > 1 {
      var front, last := words[..|words| - 1], words[|words| - 1];
      JoinWordsAreSpaced(front);
      JoinWordsSnoc(front, last);
      assert front + [last] == words;
    }
  }

  lemma {:induction false} PublishedRecordIs(history: seq<VersionRecord>)
    ensures PublishedRecord(history).Some? ==>
              PublishedRecord(history).value in history && PublishedRecord(history).value.status == Published
    ensures PublishedRecord(history).None? ==> forall r | r in history :: r.status != Published
  {
    if history != [] && history[|history| - 1].status != Published {
      PublishedRecordIs(history[..|history| - 1]);
      assert history == history[..|history| - 1] + [history[|history| - 1]];
    }
  }

  lemma WantedAgentIs(q: IndexQuery, agent: AgentRecord, lower: string -> string)
    ensures WantedAgent(q, agent, lower)
       <==> && (q.tag == None || q.tag == Some("") || q.tag.value in agent.tags)
            && (q.search == None || q.search == Some("") || Matches(agent, q.search.value, lower))
  {
    JoinWordsAreSpaced(agent.tags);
    if q.search.Some? {
      IncludesExactly(lower(agent.name + " " + JoinWords(agent.tags)), lower(q.search.value));
    }
  }

  lemma WantedVersionIs(q: IndexQuery, r: VersionRecord)
    ensures WantedVersion(q, r)
       <==> Passes(q.version, r.version) && r.status == (if q.status.Some? then q.status.value else Published)
  {
  }

  lemma ListedExactly(s: State, q: IndexQuery, lower: string -> string, id: string)
    requires id in s.agents && s.agents[id].tenantId == q.tenantId
    ensures var agent := s.agents[id];
            Listed(s, q, lower, id)
            <==> (exists r :: r in VersionsOf(s, agent.id) && WantedVersion(q, r)) && WantedAgent(q, agent, lower)
  {
    WantedAgentIs(q, s.agents[id], lower);
    forall r: VersionRecord
      ensures WantedVersion(q, r)
         <==> Passes(q.version, r.version) && r.status == (if q.status.Some? then q.status.value else Published)
    {
      WantedVersionIs(q, r);
    }
  }

  lemma EntryIs(s: State, q: IndexQuery, lower: string -> string, id: string)
    requires id in s.agents && s.agents[id].tenantId == q.tenantId
    ensures var entry := Entry(s, q, lower, s.agents[id]);
            if Listed(s, q, lower, id) then |entry| == 1 && Shows(s, entry[0], s.agents[id]) else entry == []
  {
    ListedExactly(s, q, lower, id);
    PublishedRecordIs(VersionsOf(s, s.agents[id].id));
  }

  // The k-th item shows the agent of the at[k]-th id, which is listed.
  ghost predicate ShowsAt(s: State, q: IndexQuery, lower: string -> string, ids: seq<string>, items: seq<IndexItem>,
      at: seq<nat>, k: nat)
  {
    && k < |items| == |at| && at[k] < |ids|
    && Listed(s, q, lower, ids[at[k]]) && Shows(s, items[k], s.agents[ids[at[k]]])
  }

  ghost predicate Increasing(at: seq<nat>) {
    forall j, k | 0 <= j < k < |at| :: at[j] < at[k]
  }

  // The items show exactly the listed agents, each once, in the order of their ids.
  ghost predicate ShowsListed(s: State, q: IndexQuery, lower: string -> string, ids: seq<string>,
      items: seq<IndexItem>, at: seq<nat>)
  {
    && |at| == |items| && Increasing(at)
    && (forall k | 0 <= k < |at| :: ShowsAt(s, q, lower, ids, items, at, k))
    && (forall i: nat | i < |ids| && Listed(s, q, lower, ids[i]) :: i in at)
  }

  lemma OneMoreId(s: State, q: IndexQuery, lower: string -> string, ids: seq<string>, id: string,
          items: seq<IndexItem>, at: seq<nat>, entry: seq<IndexItem>)
    requires ShowsListed(s, q, lower, ids, items, at)
    requires if Listed(s, q, lower, id) then |entry| == 1 && Shows(s, entry[0], s.agents[id]) else entry == []
    ensures ShowsListed(s, q, lower, ids + [id], items + entry,
              if Listed(s, q, lower, id) then at + [|ids|] else at)
  {
    var more, longer := items + entry, ids + [id];
    var to := if Listed(s, q, lower, id) then at + [|ids|] else at;
    forall k | 0 <= k < |at| ensures ShowsAt(s, q, lower, longer, more, to, k) {
      assert ShowsAt(s, q, lower, ids, items, at, k);
      assert to[k] == at[k] && longer[at[k]] == ids[at[k]] && more[k] == items[k];
    }
    forall i: nat | i < |longer| && Listed(s, q, lower, longer[i]) ensures i in to {
      if i < |ids| {
        assert longer[i] == ids[i];
      }
    }
    forall j, k | 0 <= j < k < |to| ensures to[j] < to[k] {
      if k == |at| {
        assert ShowsAt(s, q, lower, ids, items, at, j);
      }
    }
  }

  // The index of a tenant is this.
  lemma {:induction false} IndexIs(s: State, q: IndexQuery, lower: string -> string, ids: seq<string>)
    returns (at: seq<nat>)
    ensures ShowsListed(s, q, lower, ids, Index(s, q, lower, AgentsOfTenant(ids, s.agents, q.tenantId)), at)
  {
    if ids == [] {
      at := [];
    } else {
      var n := |ids| - 1;
      var front, id := ids[..n], ids[n];
      var before := IndexIs(s, q, lower, front);
      var agents := AgentsOfTenant(front, s.agents, q.tenantId);
      var items, entry := Index(s, q, lower, agents), [];
      if id in s.agents && s.agents[id].tenantId == q.tenantId {
        assert (agents + [s.agents[id]])[..|agents|] == agents;
        EntryIs(s, q, lower, id);
        entry := Entry(s, q, lower, s.agents[id]);
      } else {
        assert agents + [] == agents && items + [] == items;
      }
      OneMoreId(s, q, lower, front, id, items, before, entry);
      assert front + [id] == ids;
      at := if Listed(s, q, lower, id) then before + [n] else before;
    }
  }

  /* A page. */

  // Twenty items if no number is asked for, and from 1 to 100 otherwise.
  lemma LimitIs(limit: Option<int>)
    ensures Limit(None) == 20
    ensures limit.Some? && 1 <= limit.value <= 100 ==> Limit(limit) == limit.value
    ensures limit.Some? && limit.value < 1 ==> Limit(limit) == 1
    ensures limit.Some? && limit.value > 100 ==> Limit(limit) == 100
  {
  }

  lemma SliceLength<T>(list: seq<T>, from: int, to: int)
    ensures var a := if from >= 0 then from else if |list| + from < 0 then 0 else |list| + from;
            var b := if to < 0 then |list| + to else if to > |list| then |list| else to;
            |Slice(list, from, to)| == if a < b then b - a else 0
  {
  }

  lemma SliceItems<T>(list: seq<T>, from: int, to: int, k: nat)
    requires k < |Slice(list, from, to)|
    ensures var a := if from >= 0 then from else if |list| + from < 0 then 0 else |list| + from;
            a + k < |list| && Slice(list, from, to)[k] == list[a + k]
  {
  }

  // The items from the offset on, at most the limit.
  lemma PageIs<T>(filtered: seq<T>, limit: Option<int>, cursor: Option<string>)
    requires DecodeCursor(cursor) >= 0
    ensures var n, offset, items := Limit(limit), DecodeCursor(cursor), ListPage(filtered, limit, cursor).items;
            && |items| == (if offset >= |filtered| then 0
                           else if offset + n < |filtered| then n else |filtered| - offset)
            && forall k | 0 <= k < |items| :: items[k] == filtered[offset + k]
  {
    var n, offset, items := Limit(limit), DecodeCursor(cursor), ListPage(filtered, limit, cursor).items;
    SliceLength(filtered, offset, offset + n);
    forall k | 0 <= k < |items| ensures items[k] == filtered[offset + k] {
      SliceItems(filtered, offset, offset + n, k);
    }
  }

  // There is a next page exactly if there is more, and it goes on from there.
  lemma NextPageIs<T>(filtered: seq<T>, limit: Option<int>, cursor: Option<string>)
    ensures var end, next := DecodeCursor(cursor) + Limit(limit), ListPage(filtered, limit, cursor).nextCursor;
            && (next.Some? <==> end < |filtered|)
            && (next.Some? ==> DecodeCursor(next) == end)
  {
    DecodeEncodeCursor(DecodeCursor(cursor) + Limit(limit));
  }

  // Where a negative offset points to.
  function FromEnd(length: nat, offset: int): nat
    requires offset < 0
  {
    if length + offset < 0 then 0 else length + offset
  }

  lemma NegativeSlice<T>(list: seq<T>, offset: int, n: nat, items: seq<T>)
    requires offset < 0 && items == Slice(list, offset, offset + n)
    ensures var from := FromEnd(|list|, offset);
            var to := if offset + n >= 0 then offset + n else |list| + offset + n;
            && |items| == (if to < from then 0 else if to < |list| then to - from else |list| - from)
            && forall k | 0 <= k < |items| :: from + k < |list| && items[k] == list[from + k]
  {
    SliceLength(list, offset, offset + n);
    forall k | 0 <= k < |items|
      ensures FromEnd(|list|, offset) + k < |list| && items[k] == list[FromEnd(|list|, offset) + k]
    {
      SliceItems(list, offset, offset + n, k);
    }
  }

  // A negative offset counts from the end, unless the page's end does not.
  lemma NegativePageIs<T>(filtered: seq<T>, limit: Option<int>, cursor: Option<string>)
    requires DecodeCursor(cursor) < 0
    ensures var n, offset, items := Limit(limit), DecodeCursor(cursor), ListPage(filtered, limit, cursor).items;
            var from := FromEnd(|filtered|, offset);
            var to := if offset + n >= 0 then offset + n else |filtered| + offset + n;
            && |items| == (if to < from then 0 else if to < |filtered| then to - from else |filtered| - from)
            && forall k | 0 <= k < |items| :: from + k < |filtered| && items[k] == filtered[from + k]
  {
    NegativeSlice(filtered, DecodeCursor(cursor), Limit(limit), ListPage(filtered, limit, cursor).items);
  }
}
