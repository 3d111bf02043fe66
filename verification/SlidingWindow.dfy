// The in-process limiter of packages/security/index.ts: a map from key to the
// time stamps of its calls, pruned on every call, against the plain definition
// that counts every call ever made.

module SlidingWindows {

  datatype Call = Call(key: string, now: int)

  datatype Limits = Limits(max: int, windowMs: int)

  type Store = map<string, seq<int>>

  // --- the limiter's own step -----------------------------------------------------

  /** The stamps less than a window old, order kept. */
  function Recent(stamps: seq<int>, now: int, windowMs: int): seq<int> {
    if stamps == [] then []
    else
      var rest := Recent(stamps[..|stamps| - 1], now, windowMs);
      var t := stamps[|stamps| - 1];
      if now - t < windowMs then rest + [t] else rest
  }

  function Items(store: Store, key: string): seq<int> {
    if key in store then store[key] else []
  }

  /** The stamps kept for the key once this call is in. */
  function Kept(store: Store, call: Call, windowMs: int): seq<int> {
    Recent(Items(store, call.key), call.now, windowMs) + [call.now]
  }

  function StoreAfter(calls: seq<Call>, windowMs: int): Store {
    if calls == [] then map[]
    else
      var before := StoreAfter(calls[..|calls| - 1], windowMs);
      var call := calls[|calls| - 1];
      before[call.key := Kept(before, call, windowMs)]
  }

  /** The limiter's answer to a call made after the given ones. */
  predicate Allows(limits: Limits, calls: seq<Call>, call: Call) {
    |Kept(StoreAfter(calls, limits.windowMs), call, limits.windowMs)| <= limits.max
  }

  class RateLimiter {
    const max: int
    const windowMs: int
    var store: Store
    ghost var history: seq<Call>

    constructor (max: int, windowMs: int)
      ensures Valid() && history == []
      ensures this.max == max && this.windowMs == windowMs
    {
      this.max, this.windowMs := max, windowMs;
      store, history := map[], [];
    }

    ghost predicate Valid()
      reads this
    {
      store == StoreAfter(history, windowMs)
    }

    /** One call: if the clock has hidden no call of the key, the answer is the one that counting every call gives. */
    method Check(key: string, now: int) returns (allowed: bool)
      requires Valid()
      modifies this
      ensures Valid() && history == old(history) + [Call(key, now)]
      ensures allowed == Allows(Limits(max, windowMs), old(history), Call(key, now))
      ensures !Hidden(old(history), key, now, windowMs)
          ==> allowed == Permits(Limits(max, windowMs), old(history), Call(key, now))
    {
      var items := if key in store then store[key] else [];
      items := Recent(items, now, windowMs);
      items := items + [now];
      ghost var before := history;
      store := store[key := items];
      history := history + [Call(key, now)];
      assert history[..|history| - 1] == before;
      allowed := |items| <= max;
      HidesExactly(before, key, now, windowMs);
    }
  }

  // --- the plain form: every call is remembered ----------------------------------

  /** How many of the calls were made for the key less than a window before `now`, refused ones included. */
  function Earlier(calls: seq<Call>, key: string, now: int, windowMs: int): nat {
    if calls == [] then 0
    else
      var last := calls[|calls| - 1];
      Earlier(calls[..|calls| - 1], key, now, windowMs)
      + (if last.key == key && now - last.now < windowMs then 1 else 0)
  }

  predicate Permits(limits: Limits, calls: seq<Call>, call: Call) {
    Earlier(calls, call.key, call.now, limits.windowMs) + 1 <= limits.max
  }

  /** A call of the key that still counts was pruned by a later one, whose clock was ahead of now. */
  ghost predicate Hidden(calls: seq<Call>, key: string, now: int, windowMs: int) {
    exists j, i :: 0 <= j < i < |calls| && Hides(calls, key, now, windowMs, j, i)
  }

  predicate Hides(calls: seq<Call>, key: string, now: int, windowMs: int, j: nat, i: nat)
    requires j < |calls| && i < |calls|
  {
    calls[j].key == key && calls[i].key == key
    && now - calls[j].now < windowMs <= calls[i].now - calls[j].now
  }

  /** The clock never goes back for the key. */
  predicate InOrder(calls: seq<Call>, key: string) {
    forall i, j :: 0 <= i <= j < |calls| && calls[i].key == key && calls[j].key == key ==> calls[i].now <= calls[j].now
  }

  lemma RecentOfLonger(stamps: seq<int>, t: int, now: int, windowMs: int)
    ensures Recent(stamps + [t], now, windowMs)
         == Recent(stamps, now, windowMs) + (if now - t < windowMs then [t] else [])
  {
    assert (stamps + [t])[..|stamps + [t]| - 1] == stamps;
  }

  function Max(a: int, b: int): int { if a < b then b else a }

  /** Pruning at two times is pruning at the later of them, whichever came first. */
  lemma {:induction false} PruningTwice(stamps: seq<int>, first: int, second: int, windowMs: int)
    ensures Recent(Recent(stamps, first, windowMs), second, windowMs) == Recent(stamps, Max(first, second), windowMs)
  {
    if stamps == [] {
    } else {
      var init, t := stamps[..|stamps| - 1], stamps[|stamps| - 1];
      PruningTwice(init, first, second, windowMs);
      RecentOfLonger(Recent(init, first, windowMs), t, second, windowMs);
    }
  }

  /** How many earlier calls the limiter counts. */
  function Counted(calls: seq<Call>, key: string, now: int, windowMs: int): nat {
    |Recent(Items(StoreAfter(calls, windowMs), key), now, windowMs)|
  }

  lemma CountedOfLonger(calls: seq<Call>, key: string, now: int, windowMs: int)
    requires calls != []
    ensures var init, last := calls[..|calls| - 1], calls[|calls| - 1];
      Counted(calls, key, now, windowMs)
      == if last.key != key then Counted(init, key, now, windowMs)
         else Counted(init, key, Max(last.now, now), windowMs) + (if now - last.now < windowMs then 1 else 0)
  {
    var init, last := calls[..|calls| - 1], calls[|calls| - 1];
    if last.key == key {
      var before := Items(StoreAfter(init, windowMs), key);
      RecentOfLonger(Recent(before, last.now, windowMs), last.now, now, windowMs);
      PruningTwice(before, last.now, now, windowMs);
    }
  }

  /** As time goes on, no more of the calls count; none drops out exactly if all that counted are still young. */
  lemma {:induction false} EarlierShrinks(calls: seq<Call>, key: string, now: int, later: int, windowMs: int)
    requires now <= later
    ensures Earlier(calls, key, later, windowMs) <= Earlier(calls, key, now, windowMs)
    ensures Earlier(calls, key, later, windowMs) == Earlier(calls, key, now, windowMs)
       <==> forall j :: 0 <= j < |calls| && calls[j].key == key && now - calls[j].now < windowMs
              ==> later - calls[j].now < windowMs
  {
    if calls != [] {
      var init := calls[..|calls| - 1];
      EarlierShrinks(init, key, now, later, windowMs);
      assert forall j :: 0 <= j < |init| ==> init[j] == calls[j];
    }
  }

  /** The limiter counts no call that is not there, and all that count exactly if none is hidden. */
  lemma {:induction false} HidesExactly(calls: seq<Call>, key: string, now: int, windowMs: int)
    ensures Counted(calls, key, now, windowMs) <= Earlier(calls, key, now, windowMs)
    ensures Counted(calls, key, now, windowMs) == Earlier(calls, key, now, windowMs)
        <==> !Hidden(calls, key, now, windowMs)
    decreases |calls|
  {
    if calls != [] {
      var init, last := calls[..|calls| - 1], calls[|calls| - 1];
      CountedOfLonger(calls, key, now, windowMs);
      var later := if last.key == key then Max(last.now, now) else now;
      HidesExactly(init, key, later, windowMs);
      EarlierShrinks(init, key, now, later, windowMs);
      HiddenByLast(calls, key, now, later, windowMs);
    }
  }

  /** A call is hidden in a longer history if it was before, seen from the later time, or if the last call prunes it. */
  lemma HiddenByLast(calls: seq<Call>, key: string, now: int, later: int, windowMs: int)
    requires calls != []
    requires later == if calls[|calls| - 1].key == key then Max(calls[|calls| - 1].now, now) else now
    ensures var init := calls[..|calls| - 1];
      Hidden(calls, key, now, windowMs)
      <==> Hidden(init, key, later, windowMs)
           || !(forall j :: 0 <= j < |init| && init[j].key == key && now - init[j].now < windowMs
                  ==> later - init[j].now < windowMs)
  {
    var n := |calls| - 1;
    var init := calls[..n];
    if Hidden(calls, key, now, windowMs) {
      var j, i :| 0 <= j < i < |calls| && Hides(calls, key, now, windowMs, j, i);
      assert init[j] == calls[j];
      if i < n && later - init[j].now < windowMs {
        assert Hides(init, key, later, windowMs, j, i);
      }
    }
    if Hidden(init, key, later, windowMs) {
      var j, i :| 0 <= j < i < |init| && Hides(init, key, later, windowMs, j, i);
      assert Hides(calls, key, now, windowMs, j, i);
    }
    if j :| 0 <= j < n && init[j].key == key && now - init[j].now < windowMs <= later - init[j].now {
      assert Hides(calls, key, now, windowMs, j, n);
    }
  }

  /**
   * Whatever the clock does, the limiter answers as the one that counts every call, for every maximum,
   * exactly if none is hidden.
   */
  lemma AnswersAgreeExactly(calls: seq<Call>, call: Call, windowMs: int)
    ensures (forall max: int ::
               Allows(Limits(max, windowMs), calls, call) == Permits(Limits(max, windowMs), calls, call))
       <==> !Hidden(calls, call.key, call.now, windowMs)
  {
    HidesExactly(calls, call.key, call.now, windowMs);
    var fast := Counted(calls, call.key, call.now, windowMs) + 1;
    var slow := Earlier(calls, call.key, call.now, windowMs) + 1;
    if fast < slow {
      assert Allows(Limits(fast, windowMs), calls, call) && !Permits(Limits(fast, windowMs), calls, call);
    }
  }

  /** While the clock never goes back for the key, the pruning limiter answers as the one that counts every call. */
  lemma AnswersAreHistoryCounts(limits: Limits, calls: seq<Call>, call: Call)
    requires InOrder(calls + [call], call.key)
    ensures Allows(limits, calls, call) == Permits(limits, calls, call)
  {
    forall j, i | 0 <= j < i < |calls| ensures !Hides(calls, call.key, call.now, limits.windowMs, j, i) {
      assert (calls + [call])[i] == calls[i] && (calls + [call])[|calls|] == call;
    }
    HidesExactly(calls, call.key, call.now, limits.windowMs);
  }

  /** It happens: after a step back, the pruned call is missed and a call too many is allowed. */
  lemma ClockGoingBackMisleads(windowMs: int, ahead: int)
    requires 0 < windowMs <= ahead
    ensures var calls, call := [Call("k", 0), Call("k", ahead)], Call("k", 0);
      Allows(Limits(2, windowMs), calls, call) && !Permits(Limits(2, windowMs), calls, call)
  {
    var calls := [Call("k", 0), Call("k", ahead)];
    assert calls[..1] == [Call("k", 0)] && [Call("k", 0)][..0] == [];
    assert Hides(calls, "k", 0, windowMs, 0, 1);
    HidesExactly(calls, "k", 0, windowMs);
    assert Earlier([Call("k", 0)], "k", 0, windowMs) == 1;
    assert Earlier(calls, "k", 0, windowMs) == 2;
  }

  // --- what a caller gets ----------------------------------------------------------

  predicate Within(limits: Limits, call: Call, key: string, from: int) {
    call.key == key && from <= call.now < from + limits.windowMs
  }

  /** Calls for the key less than a window after `from`. */
  function CallsWithin(limits: Limits, calls: seq<Call>, key: string, from: int): nat {
    if calls == [] then 0
    else
      CallsWithin(limits, calls[..|calls| - 1], key, from)
      + (if Within(limits, calls[|calls| - 1], key, from) then 1 else 0)
  }

  /** Those of them that the limiter allows. */
  function AllowedWithin(limits: Limits, calls: seq<Call>, key: string, from: int): nat {
    if calls == [] then 0
    else
      var init, last := calls[..|calls| - 1], calls[|calls| - 1];
      AllowedWithin(limits, init, key, from)
          + (if Within(limits, last, key, from) && Allows(limits, init, last) then 1 else 0)
  }

  lemma {:induction false} AllowedAreCalls(limits: Limits, calls: seq<Call>, key: string, from: int)
    ensures AllowedWithin(limits, calls, key, from) <= CallsWithin(limits, calls, key, from)
  {
    if calls != [] {
      AllowedAreCalls(limits, calls[..|calls| - 1], key, from);
    }
  }

  lemma {:induction false} SpanIsCounted(limits: Limits, calls: seq<Call>, key: string, from: int, now: int)
    requires from <= now < from + limits.windowMs
    ensures CallsWithin(limits, calls, key, from) <= Earlier(calls, key, now, limits.windowMs)
  {
    if calls != [] {
      SpanIsCounted(limits, calls[..|calls| - 1], key, from, now);
    }
  }

  /** No call of the key was answered while a call was hidden from it. */
  ghost predicate NoneHidden(calls: seq<Call>, key: string, windowMs: int) {
    forall k | 0 <= k < |calls| && calls[k].key == key :: !Hidden(calls[..k], key, calls[k].now, windowMs)
  }

  /** So it is while the clock never goes back for the key. */
  lemma InOrderHidesNone(calls: seq<Call>, key: string, windowMs: int)
    requires InOrder(calls, key)
    ensures NoneHidden(calls, key, windowMs)
  {
    forall k | 0 <= k < |calls| && calls[k].key == key ensures !Hidden(calls[..k], key, calls[k].now, windowMs) {
      forall j, i | 0 <= j < i < k ensures !Hides(calls[..k], key, calls[k].now, windowMs, j, i) {
        assert calls[..k][i] == calls[i];
      }
    }
  }

  /** As long as no call is hidden, no span of the clock shorter than the window holds more than `max` allowed calls. */
  lemma {:induction false} AtMostMaxPerSpan(limits: Limits, calls: seq<Call>, key: string, from: int)
    requires NoneHidden(calls, key, limits.windowMs)
    requires 0 <= limits.max
    ensures AllowedWithin(limits, calls, key, from) <= limits.max
  {
    if calls != [] {
      var n := |calls| - 1;
      var init, last := calls[..n], calls[n];
      forall k | 0 <= k < n && init[k].key == key ensures !Hidden(init[..k], key, init[k].now, limits.windowMs) {
        assert init[..k] == calls[..k];
      }
      AtMostMaxPerSpan(limits, init, key, from);
      if Within(limits, last, key, from) {
        AllowedAreCalls(limits, init, key, from);
        SpanIsCounted(limits, init, key, from, last.now);
        HidesExactly(init, key, last.now, limits.windowMs);
      }
    }
  }
}
