// The shared limiter of agents/shared/rate_limiter.py: one sorted set of time
// stamps per key and bucket of the clock, pruned and expired by the server.
// Times are whole microseconds, the resolution of a member's name.

module BucketLimiters {

  /** `windowMicros` is the window in microseconds; dividing by a zero window raises in the Python code. */
  datatype Settings = Settings(windowMicros: int, max: int) {
    ghost predicate Valid() { 0 < windowMicros }
  }

  datatype Slot = Slot(key: string, bucket: int)

  /** A sorted set and the time at which the server drops it. */
  datatype Bucket = Bucket(stamps: set<int>, deadline: int)

  type Sets = map<Slot, Bucket>

  /**
   * A check reads the clock for the stamp (`now`) and once more for the bucket (`keyNow`). Asking what
   * remains reads them in the other order; it prunes, which is the operation here, and counts in a second
   * call to the server. `up` says that the server was there and answered.
   */
  datatype Op =
    | Check(key: string, now: int, keyNow: int, up: bool)
    | Remaining(key: string, now: int, keyNow: int, up: bool)

  /** The server keeps a set for a second longer than the window. */
  const GRACE: int := 1_000_000

  function SlotOf(cfg: Settings, op: Op): Slot
    requires cfg.Valid()
  {
    Slot(op.key, op.keyNow / cfg.windowMicros)
  }

  function Live(sets: Sets, slot: Slot, now: int): set<int> {
    if slot in sets && now < sets[slot].deadline then sets[slot].stamps else {}
  }

  /** What removing the scores from 0 to a window ago leaves. */
  function Pruned(stamps: set<int>, now: int, windowMicros: int): set<int> {
    set t | t in stamps && !(0 <= t <= now - windowMicros)
  }

  function NextSets(cfg: Settings, sets: Sets, op: Op): Sets
    requires cfg.Valid()
  {
    var slot := SlotOf(cfg, op);
    var stamps := Pruned(Live(sets, slot, op.now), op.now, cfg.windowMicros);
    if !op.up then sets
    else if op.Check? then sets[slot := Bucket(stamps + {op.now}, op.now + cfg.windowMicros + GRACE)]
    else if slot in sets then sets[slot := Bucket(stamps, sets[slot].deadline)]
    else sets
  }

  /** How many stamps the server reports to a check, its own included. */
  function Count(cfg: Settings, sets: Sets, op: Op): nat
    requires cfg.Valid()
  {
    |Pruned(Live(sets, SlotOf(cfg, op), op.now), op.now, cfg.windowMicros) + {op.now}|
  }

  function SetsAfter(cfg: Settings, ops: seq<Op>): Sets
    requires cfg.Valid()
  {
    if ops == [] then map[] else NextSets(cfg, SetsAfter(cfg, ops[..|ops| - 1]), ops[|ops| - 1])
  }

  /** The answer to a check after the given operations; without the server the limiter lets everything through. */
  predicate Allows(cfg: Settings, ops: seq<Op>, op: Op)
    requires cfg.Valid()
  {
    !op.up || Count(cfg, SetsAfter(cfg, ops), op) <= cfg.max
  }

  /** The free places that the server's count leaves, read at a time after the given operations. */
  function Left(cfg: Settings, ops: seq<Op>, slot: Slot, now: int): int
    requires cfg.Valid()
  {
    var free := cfg.max - |Live(SetsAfter(cfg, ops), slot, now)|;
    if 0 < free then free else 0
  }

  class RateLimiter {
    const cfg: Settings
    const configured: bool
    var connected: bool
    var sets: Sets
    ghost var history: seq<Op>

    constructor (cfg: Settings, configured: bool)
      requires cfg.Valid()
      ensures Valid() && history == [] && !connected
      ensures this.cfg == cfg && this.configured == configured
    {
      this.cfg, this.configured := cfg, configured;
      connected, sets, history := false, map[], [];
    }

    ghost predicate Valid()
      reads this
    {
      cfg.Valid() && sets == SetsAfter(cfg, history)
    }

    /** Whether there is a client: a connection once made is kept, a failed one is tried again next time. */
    method Client(reachable: bool) returns (ok: bool)
      modifies this`connected
      ensures ok == (old(connected) || (configured && reachable))
      ensures connected == ok
    {
      if connected {
        return true;
      }
      if !configured {
        return false;
      }
      connected := reachable;
      return connected;
    }

    method CheckAndIncrement(key: string, now: int, keyNow: int, reachable: bool, answers: bool)
      returns (allowed: bool, count: nat, ghost op: Op)
      requires Valid()
      modifies this
      ensures Valid() && history == old(history) + [op]
      ensures op == Check(key, now, keyNow, (old(connected) || (configured && reachable)) && answers)
      ensures allowed == Allows(cfg, old(history), op)
      ensures count == if op.up then Count(cfg, old(sets), op) else 0
      ensures allowed <==> !op.up || count <= cfg.max
      ensures op.up ==>
        var slot := Slot(key, keyNow / cfg.windowMicros);
        && slot in sets && now in sets[slot].stamps && |sets[slot].stamps| == count
        && sets[slot].deadline == now + cfg.windowMicros + 1_000_000
    {
      var ok := Client(reachable);
      op := Check(key, now, keyNow, ok && answers);
      ghost var before := history;
      history := history + [op];
      assert history[..|history| - 1] == before;
      if !ok || !answers {
        return true, 0, op;
      }
      var slot := Slot(key, keyNow / cfg.windowMicros);
      var stamps := Pruned(Live(sets, slot, now), now, cfg.windowMicros);
      stamps := stamps + {now};
      sets := sets[slot := Bucket(stamps, now + cfg.windowMicros + GRACE)];
      count := |stamps|;
      allowed := count <= cfg.max;
    }

    /** Uninterrupted between its two calls; either may fail. */
    method GetRemaining(key: string, keyNow: int, now: int, reachable: bool, prunes: bool, counts: bool)
      returns (left: int, ghost op: Op)
      requires Valid()
      modifies this
      ensures Valid() && history == old(history) + [op]
      ensures op == Remaining(key, now, keyNow, (old(connected) || (configured && reachable)) && prunes)
      ensures left == if op.up && counts then Left(cfg, history, SlotOf(cfg, op), now) else cfg.max
    {
      var ok := Client(reachable);
      op := Remaining(key, now, keyNow, ok && prunes);
      ghost var before := history;
      history := history + [op];
      assert history[..|history| - 1] == before;
      if !ok || !prunes {
        return cfg.max, op;
      }
      var slot := Slot(key, keyNow / cfg.windowMicros);
      var stamps := Pruned(Live(sets, slot, now), now, cfg.windowMicros);
      if slot in sets {
        sets := sets[slot := Bucket(stamps, sets[slot].deadline)];
      }
      if !counts {
        return cfg.max, op;
      }
      var count := |Live(sets, slot, now)|;
      left := if 0 < cfg.max - count then cfg.max - count else 0;
    }
  }

  // --- the plain form: the stamps ever counted in a bucket -------------------------

  predicate CountedIn(cfg: Settings, op: Op, slot: Slot)
    requires cfg.Valid()
  {
    op.Check? && op.up && SlotOf(cfg, op) == slot
  }

  function StampsIn(cfg: Settings, ops: seq<Op>, slot: Slot): set<int>
    requires cfg.Valid()
  {
    if ops == [] then {}
    else
      StampsIn(cfg, ops[..|ops| - 1], slot)
      + (if CountedIn(cfg, ops[|ops| - 1], slot) then {ops[|ops| - 1].now} else {})
  }

  function ChecksIn(cfg: Settings, ops: seq<Op>, slot: Slot): nat
    requires cfg.Valid()
  {
    if ops == [] then 0
    else ChecksIn(cfg, ops[..|ops| - 1], slot) + (if CountedIn(cfg, ops[|ops| - 1], slot) then 1 else 0)
  }

  /** Both readings of the clock fall into one bucket, as when the clock is read once. */
  ghost predicate OneReading(cfg: Settings, op: Op)
    requires cfg.Valid()
  {
    op.now / cfg.windowMicros == op.keyNow / cfg.windowMicros
  }

  /** So it is for every operation; they may reach the server in any order. */
  ghost predicate Steady(cfg: Settings, ops: seq<Op>)
    requires cfg.Valid()
  {
    forall i :: 0 <= i < |ops| ==> OneReading(cfg, ops[i])
  }

  /** No two counted checks of one bucket share a microsecond. */
  ghost predicate Distinct(cfg: Settings, ops: seq<Op>)
    requires cfg.Valid()
  {
    if ops == [] then true
    else
      var init, last := ops[..|ops| - 1], ops[|ops| - 1];
      Distinct(cfg, init)
      && (last.Check? && last.up ==> last.now !in StampsIn(cfg, init, SlotOf(cfg, last)))
  }

  lemma SameBucketIsClose(a: int, b: int, w: int)
    requires 0 < w && a / w == b / w
    ensures -w < a - b < w
  {
    assert a == w * (a / w) + a % w;
    assert b == w * (b / w) + b % w;
  }

  lemma {:induction false} StampsAreOfTheBucket(cfg: Settings, ops: seq<Op>, slot: Slot)
    requires cfg.Valid() && Steady(cfg, ops)
    ensures forall t :: t in StampsIn(cfg, ops, slot) ==> t / cfg.windowMicros == slot.bucket
  {
    if ops != [] {
      StampsAreOfTheBucket(cfg, ops[..|ops| - 1], slot);
    }
  }

  /** Stamps of the bucket that the clock is in are too young to be pruned. */
  lemma NothingToPrune(stamps: set<int>, bucket: int, now: int, w: int)
    requires 0 < w && now / w == bucket
    requires forall t :: t in stamps ==> t / w == bucket
    ensures Pruned(stamps, now, w) == stamps
  {
    forall t | t in stamps ensures now - w < t {
      SameBucketIsClose(now, t, w);
    }
  }

  /** For a reading in a bucket, neither pruning nor expiry has lost any of the bucket's stamps. */
  lemma {:induction false} CurrentBucketIsWhole(cfg: Settings, ops: seq<Op>, slot: Slot, now: int)
    requires cfg.Valid() && Steady(cfg, ops)
    requires now / cfg.windowMicros == slot.bucket
    ensures Live(SetsAfter(cfg, ops), slot, now) == StampsIn(cfg, ops, slot)
    decreases |ops|, 0
  {
    if ops != [] {
      var init, last := ops[..|ops| - 1], ops[|ops| - 1];
      CurrentBucketIsWhole(cfg, init, slot, now);
      if last.up && SlotOf(cfg, last) == slot {
        LastOpKeepsBucket(cfg, init, last, slot, now);
      }
    }
  }

  lemma LastOpKeepsBucket(cfg: Settings, init: seq<Op>, last: Op, slot: Slot, now: int)
    requires cfg.Valid() && Steady(cfg, init) && OneReading(cfg, last)
    requires now / cfg.windowMicros == slot.bucket
    requires last.up && SlotOf(cfg, last) == slot
    requires Live(SetsAfter(cfg, init), slot, now) == StampsIn(cfg, init, slot)
    ensures Live(NextSets(cfg, SetsAfter(cfg, init), last), slot, now)
         == StampsIn(cfg, init, slot) + (if last.Check? then {last.now} else {})
    decreases |init|, 1
  {
    CurrentBucketIsWhole(cfg, init, slot, last.now);
    StampsAreOfTheBucket(cfg, init, slot);
    NothingToPrune(StampsIn(cfg, init, slot), slot.bucket, last.now, cfg.windowMicros);
    SameBucketIsClose(now, last.now, cfg.windowMicros);
  }

  lemma {:induction false} DistinctStampsAreChecks(cfg: Settings, ops: seq<Op>, slot: Slot)
    requires cfg.Valid() && Distinct(cfg, ops)
    ensures |StampsIn(cfg, ops, slot)| == ChecksIn(cfg, ops, slot)
  {
    if ops != [] {
      DistinctStampsAreChecks(cfg, ops[..|ops| - 1], slot);
    }
  }

  lemma SteadyLast(cfg: Settings, ops: seq<Op>, op: Op)
    requires cfg.Valid() && Steady(cfg, ops + [op])
    ensures Steady(cfg, ops) && OneReading(cfg, op)
  {
    assert (ops + [op])[|ops|] == op;
    assert forall i :: 0 <= i < |ops| ==> (ops + [op])[i] == ops[i];
  }

  /** The server counts the distinct stamps ever given to the current bucket, nothing more and nothing less. */
  lemma CountsTheBucket(cfg: Settings, ops: seq<Op>, op: Op)
    requires cfg.Valid() && Steady(cfg, ops + [op])
    ensures Count(cfg, SetsAfter(cfg, ops), op) == |StampsIn(cfg, ops, SlotOf(cfg, op)) + {op.now}|
  {
    var slot := SlotOf(cfg, op);
    SteadyLast(cfg, ops, op);
    CurrentBucketIsWhole(cfg, ops, slot, op.now);
    StampsAreOfTheBucket(cfg, ops, slot);
    NothingToPrune(StampsIn(cfg, ops, slot), slot.bucket, op.now, cfg.windowMicros);
  }

  /** With distinct stamps a check is let through exactly while fewer than `max` checks of its bucket came before. */
  lemma AllowsFirstOfBucket(cfg: Settings, ops: seq<Op>, op: Op)
    requires cfg.Valid() && Steady(cfg, ops + [op]) && Distinct(cfg, ops + [op])
    requires op.Check? && op.up
    ensures Allows(cfg, ops, op) <==> ChecksIn(cfg, ops, SlotOf(cfg, op)) < cfg.max
  {
    assert (ops + [op])[..|ops + [op]| - 1] == ops;
    CountsTheBucket(cfg, ops, op);
    DistinctStampsAreChecks(cfg, ops, SlotOf(cfg, op));
  }

  /**
   * What remains is counted after whatever came since the pruning, and is exactly what the bucket still
   * lets through: the next check passes iff some remains.
   */
  lemma RemainingPredictsTheNextCheck(cfg: Settings, ops: seq<Op>, now: int, check: Op)
    requires cfg.Valid() && Steady(cfg, ops + [check]) && Distinct(cfg, ops + [check])
    requires check.Check? && check.up && SlotOf(cfg, check).bucket == now / cfg.windowMicros
    ensures var slot := SlotOf(cfg, check);
      Left(cfg, ops, slot, now) == if ChecksIn(cfg, ops, slot) < cfg.max then cfg.max - ChecksIn(cfg, ops, slot) else 0
    ensures Allows(cfg, ops, check) <==> 0 < Left(cfg, ops, SlotOf(cfg, check), now)
  {
    assert (ops + [check])[..|ops + [check]| - 1] == ops;
    SteadyLast(cfg, ops, check);
    CurrentBucketIsWhole(cfg, ops, SlotOf(cfg, check), now);
    DistinctStampsAreChecks(cfg, ops, SlotOf(cfg, check));
    AllowsFirstOfBucket(cfg, ops, check);
  }

  // --- bounds -----------------------------------------------------------------------

  predicate LetThrough(cfg: Settings, ops: seq<Op>, op: Op)
    requires cfg.Valid()
  {
    op.Check? && op.up && Allows(cfg, ops, op)
  }

  function AllowedIn(cfg: Settings, ops: seq<Op>, slot: Slot): nat
    requires cfg.Valid()
  {
    if ops == [] then 0
    else
      var init, last := ops[..|ops| - 1], ops[|ops| - 1];
      AllowedIn(cfg, init, slot) + (if SlotOf(cfg, last) == slot && LetThrough(cfg, init, last) then 1 else 0)
  }

  lemma OneMoreCheck(cfg: Settings, init: seq<Op>, last: Op, slot: Slot)
    requires cfg.Valid() && Steady(cfg, init + [last]) && Distinct(cfg, init + [last])
    ensures AllowedIn(cfg, init + [last], slot)
         == AllowedIn(cfg, init, slot)
            + (if CountedIn(cfg, last, slot) && ChecksIn(cfg, init, slot) < cfg.max then 1 else 0)
    ensures ChecksIn(cfg, init + [last], slot)
        == ChecksIn(cfg, init, slot) + (if CountedIn(cfg, last, slot) then 1 else 0)
  {
    assert (init + [last])[..|init + [last]| - 1] == init;
    if CountedIn(cfg, last, slot) {
      AllowsFirstOfBucket(cfg, init, last);
    }
  }

  /** Each bucket lets through its first `max` checks and no other. */
  lemma {:induction false} BucketAllowsExactlyMax(cfg: Settings, ops: seq<Op>, slot: Slot)
    requires cfg.Valid() && Steady(cfg, ops) && Distinct(cfg, ops)
    requires 0 <= cfg.max
    ensures AllowedIn(cfg, ops, slot)
         == if ChecksIn(cfg, ops, slot) < cfg.max then ChecksIn(cfg, ops, slot) else cfg.max
  {
    if ops != [] {
      var init, last := ops[..|ops| - 1], ops[|ops| - 1];
      assert init + [last] == ops;
      SteadyLast(cfg, init, last);
      BucketAllowsExactlyMax(cfg, init, slot);
      OneMoreCheck(cfg, init, last, slot);
    }
  }

  predicate Within(cfg: Settings, op: Op, from: int) {
    from <= op.now < from + cfg.windowMicros
  }

  /** Checks of the key let through with a reading less than a window after `from`, in whatever order they came. */
  function AllowedWithin(cfg: Settings, ops: seq<Op>, key: string, from: int): nat
    requires cfg.Valid()
  {
    if ops == [] then 0
    else
      var init, last := ops[..|ops| - 1], ops[|ops| - 1];
      AllowedWithin(cfg, init, key, from)
      + (if last.key == key && Within(cfg, last, from) && LetThrough(cfg, init, last) then 1 else 0)
  }

  lemma NextBucketAtMost(x: int, y: int, w: int)
    requires 0 < w && x <= y && y - x < w
    ensures y / w == x / w || y / w == x / w + 1
  {
    var q, r := x / w, x % w;
    assert x == w * q + r;
    if y < w * (q + 1) {
      QuotientIs(y, q, w);
    } else {
      QuotientIs(y, q + 1, w);
    }
  }

  lemma ProductsGrow(w: int, a: int, b: int)
    requires 0 < w && a <= b
    ensures w * a <= w * b
  {
  }

  lemma QuotientIs(y: int, q: int, w: int)
    requires 0 < w && w * q <= y < w * (q + 1)
    ensures y / w == q
  {
    var p := y / w;
    assert y == w * p + y % w;
    if p < q {
      ProductsGrow(w, p + 1, q);
    } else if q < p {
      ProductsGrow(w, q + 1, p);
    }
  }

  lemma {:induction false} SpanTouchesTwoBuckets(cfg: Settings, ops: seq<Op>, key: string, from: int)
    requires cfg.Valid() && Steady(cfg, ops)
    ensures AllowedWithin(cfg, ops, key, from)
         <= AllowedIn(cfg, ops, Slot(key, from / cfg.windowMicros))
            + AllowedIn(cfg, ops, Slot(key, from / cfg.windowMicros + 1))
  {
    if ops != [] {
      var last := ops[|ops| - 1];
      SpanTouchesTwoBuckets(cfg, ops[..|ops| - 1], key, from);
      if Within(cfg, last, from) {
        NextBucketAtMost(from, last.now, cfg.windowMicros);
      }
    }
  }

  /** No span of the clock shorter than the window holds more than twice `max` checks let through for a key. */
  lemma AtMostTwiceMaxPerSpan(cfg: Settings, ops: seq<Op>, key: string, from: int)
    requires cfg.Valid() && Steady(cfg, ops) && Distinct(cfg, ops)
    requires 0 <= cfg.max
    ensures AllowedWithin(cfg, ops, key, from) <= 2 * cfg.max
  {
    var b := from / cfg.windowMicros;
    SpanTouchesTwoBuckets(cfg, ops, key, from);
    BucketAllowsExactlyMax(cfg, ops, Slot(key, b));
    BucketAllowsExactlyMax(cfg, ops, Slot(key, b + 1));
  }

  // --- where that bound is reached ----------------------------------------------------

  /** The first n checks of a burst, a microsecond apart, around the edge between two buckets. */
  function Burst(cfg: Settings, n: nat): (ops: seq<Op>)
    ensures |ops| == n
  {
    if n == 0 then []
    else
      var t := cfg.windowMicros - cfg.max + n - 1;
      Burst(cfg, n - 1) + [Check("k", t, t, true)]
  }

  lemma {:induction false} BurstIs(cfg: Settings, n: nat)
    requires cfg.Valid() && 0 <= cfg.max && 2 * cfg.max <= cfg.windowMicros && n <= 2 * cfg.max
    ensures Steady(cfg, Burst(cfg, n)) && Distinct(cfg, Burst(cfg, n))
    ensures forall slot, t :: t in StampsIn(cfg, Burst(cfg, n), slot) ==> t < cfg.windowMicros - cfg.max + n
  {
    if n > 0 {
      BurstIs(cfg, n - 1);
      BurstGrows(cfg, n);
    }
  }

  lemma {:induction false} BurstFills(cfg: Settings, n: nat)
    requires cfg.Valid() && 0 <= cfg.max && 2 * cfg.max <= cfg.windowMicros && n <= 2 * cfg.max
    ensures ChecksIn(cfg, Burst(cfg, n), Slot("k", 0)) == if n <= cfg.max then n else cfg.max
    ensures ChecksIn(cfg, Burst(cfg, n), Slot("k", 1)) == if n <= cfg.max then 0 else n - cfg.max
  {
    if n > 0 {
      BurstFills(cfg, n - 1);
      BurstGrows(cfg, n);
      BurstTail(cfg, n);
    }
  }

  lemma BurstGrows(cfg: Settings, n: nat)
    requires n > 0
    ensures Burst(cfg, n)[..n - 1] == Burst(cfg, n - 1)
  {
  }

  lemma BurstTail(cfg: Settings, n: nat)
    requires cfg.Valid() && 0 <= cfg.max && 2 * cfg.max <= cfg.windowMicros && 0 < n <= 2 * cfg.max
    ensures var last := Burst(cfg, n)[n - 1];
      last.key == "k" && Within(cfg, last, cfg.windowMicros - cfg.max)
      && SlotOf(cfg, last) == Slot("k", if n <= cfg.max then 0 else 1)
  {
    QuotientIs(cfg.windowMicros - cfg.max + n - 1, if n <= cfg.max then 0 else 1, cfg.windowMicros);
  }

  lemma {:induction false} BurstCounts(cfg: Settings, n: nat)
    requires cfg.Valid() && 0 <= cfg.max && 2 * cfg.max <= cfg.windowMicros && n <= 2 * cfg.max
    ensures AllowedWithin(cfg, Burst(cfg, n), "k", cfg.windowMicros - cfg.max)
         == AllowedIn(cfg, Burst(cfg, n), Slot("k", 0)) + AllowedIn(cfg, Burst(cfg, n), Slot("k", 1))
  {
    if n > 0 {
      BurstCounts(cfg, n - 1);
      BurstTail(cfg, n);
      CountsGrow(cfg, Burst(cfg, n), "k", cfg.windowMicros - cfg.max);
      BurstGrows(cfg, n);
    }
  }

  lemma CountsGrow(cfg: Settings, ops: seq<Op>, key: string, from: int)
    requires cfg.Valid() && ops != []
    requires ops[|ops| - 1].key == key && Within(cfg, ops[|ops| - 1], from)
    requires SlotOf(cfg, ops[|ops| - 1]) == Slot(key, 0) || SlotOf(cfg, ops[|ops| - 1]) == Slot(key, 1)
    ensures var init := ops[..|ops| - 1];
      AllowedWithin(cfg, ops, key, from) - AllowedWithin(cfg, init, key, from)
      == AllowedIn(cfg, ops, Slot(key, 0)) - AllowedIn(cfg, init, Slot(key, 0))
         + AllowedIn(cfg, ops, Slot(key, 1)) - AllowedIn(cfg, init, Slot(key, 1))
  {
  }

  lemma TwiceMaxIsReached(cfg: Settings)
    requires cfg.Valid() && 0 <= cfg.max && 2 * cfg.max <= cfg.windowMicros
    ensures var ops := Burst(cfg, 2 * cfg.max);
      Steady(cfg, ops) && Distinct(cfg, ops)
      && AllowedWithin(cfg, ops, "k", cfg.windowMicros - cfg.max) == 2 * cfg.max
  {
    BurstIs(cfg, 2 * cfg.max);
    BurstFills(cfg, 2 * cfg.max);
    BurstCounts(cfg, 2 * cfg.max);
    BucketAllowsExactlyMax(cfg, Burst(cfg, 2 * cfg.max), Slot("k", 0));
    BucketAllowsExactlyMax(cfg, Burst(cfg, 2 * cfg.max), Slot("k", 1));
  }

  /** The readings of the checks that AllowedWithin counts. */
  function StampsWithin(cfg: Settings, ops: seq<Op>, key: string, from: int): set<int>
    requires cfg.Valid()
  {
    if ops == [] then {}
    else
      var init, last := ops[..|ops| - 1], ops[|ops| - 1];
      StampsWithin(cfg, init, key, from)
      + (if last.key == key && Within(cfg, last, from) && LetThrough(cfg, init, last) then {last.now} else {})
  }

  lemma {:induction false} StampsWithinAre(cfg: Settings, ops: seq<Op>, key: string, from: int)
    requires cfg.Valid() && Steady(cfg, ops) && Distinct(cfg, ops)
    ensures |StampsWithin(cfg, ops, key, from)| == AllowedWithin(cfg, ops, key, from)
    ensures forall t :: t in StampsWithin(cfg, ops, key, from) ==>
      from <= t < from + cfg.windowMicros && t in StampsIn(cfg, ops, Slot(key, t / cfg.windowMicros))
  {
    if ops != [] {
      StampsWithinAre(cfg, ops[..|ops| - 1], key, from);
    }
  }

  lemma {:induction false} SpanHolds(stamps: set<int>, from: int, n: nat)
    requires forall t :: t in stamps ==> from <= t < from + n
    ensures |stamps| <= n
  {
    if n > 0 {
      SpanHolds(stamps - {from + n - 1}, from, n - 1);
    } else {
      assert forall t :: t !in stamps;
    }
  }

  ghost predicate Reaches(cfg: Settings, ops: seq<Op>, key: string, from: int)
    requires cfg.Valid()
  {
    Steady(cfg, ops) && Distinct(cfg, ops) && AllowedWithin(cfg, ops, key, from) == 2 * cfg.max
  }

  /** Twice `max` is reached exactly when a window has room for that many microseconds. */
  lemma TwiceMaxIsReachedExactly(cfg: Settings)
    requires cfg.Valid() && 0 <= cfg.max
    ensures (exists ops, key, from :: Reaches(cfg, ops, key, from)) <==> 2 * cfg.max <= cfg.windowMicros
  {
    if 2 * cfg.max <= cfg.windowMicros {
      TwiceMaxIsReached(cfg);
      assert Reaches(cfg, Burst(cfg, 2 * cfg.max), "k", cfg.windowMicros - cfg.max);
    }
    forall ops, key, from | Reaches(cfg, ops, key, from) ensures 2 * cfg.max <= cfg.windowMicros {
      StampsWithinAre(cfg, ops, key, from);
      SpanHolds(StampsWithin(cfg, ops, key, from), from, cfg.windowMicros);
    }
  }

  // --- any readings, two buckets for one call included ----------------------------------

  /**
   * Stamps are times after the epoch, and an operation reaches the server at most the grace after one
   * with a later reading.
   */
  ghost predicate Prompt(ops: seq<Op>) {
    forall i, j :: 0 <= i <= j < |ops| ==> 0 <= ops[i].now <= ops[j].now + GRACE
  }

  predicate Touches(cfg: Settings, op: Op, slot: Slot)
    requires cfg.Valid()
  {
    op.up && SlotOf(cfg, op) == slot
  }

  function Max(a: int, b: int): int { if a < b then b else a }

  /** The bucket's stamps that no later operation on it, nor the given reading, is a window ahead of. */
  function Survivors(cfg: Settings, ops: seq<Op>, slot: Slot, now: int): set<int>
    requires cfg.Valid()
  {
    if ops == [] then {}
    else
      var init, last := ops[..|ops| - 1], ops[|ops| - 1];
      if !Touches(cfg, last, slot) then Survivors(cfg, init, slot, now)
      else
        Survivors(cfg, init, slot, Max(now, last.now))
        + (if last.Check? && now - last.now < cfg.windowMicros then {last.now} else {})
  }

  /** Said of one check: it was filed in the bucket, and is younger than a window for all that came after. */
  ghost predicate Survives(cfg: Settings, ops: seq<Op>, slot: Slot, now: int, i: nat)
    requires cfg.Valid()
  {
    && i < |ops| && CountedIn(cfg, ops[i], slot) && now - ops[i].now < cfg.windowMicros
    && forall j :: i < j < |ops| && Touches(cfg, ops[j], slot) ==> ops[j].now - ops[i].now < cfg.windowMicros
  }

  lemma {:induction false} SurvivorsAre(cfg: Settings, ops: seq<Op>, slot: Slot, now: int)
    requires cfg.Valid()
    ensures forall t :: t in Survivors(cfg, ops, slot, now) <==>
                          exists i: nat :: Survives(cfg, ops, slot, now, i) && ops[i].now == t
  {
    if ops != [] {
      var n := |ops| - 1;
      var init, last := ops[..n], ops[n];
      var later := if Touches(cfg, last, slot) then Max(now, last.now) else now;
      SurvivorsAre(cfg, init, slot, later);
      forall i: nat | i < n ensures Survives(cfg, ops, slot, now, i) == Survives(cfg, init, slot, later, i) {
        SurvivesLonger(cfg, ops, slot, now, i);
      }
      forall t ensures t in Survivors(cfg, ops, slot, now)
        <==> exists i: nat :: Survives(cfg, ops, slot, now, i) && ops[i].now == t
      {
        if i: nat :| Survives(cfg, ops, slot, now, i) && ops[i].now == t {
          if i < n {
            assert Survives(cfg, init, slot, later, i) && init[i].now == t;
          }
        }
        if i: nat :| Survives(cfg, init, slot, later, i) && init[i].now == t {
          assert Survives(cfg, ops, slot, now, i) && ops[i].now == t;
        }
        if t == last.now && Survives(cfg, ops, slot, now, n) {
          assert ops[n].now == t;
        }
      }
    }
  }

  lemma SurvivesLonger(cfg: Settings, ops: seq<Op>, slot: Slot, now: int, i: nat)
    requires cfg.Valid() && ops != [] && i < |ops| - 1
    ensures var init, last := ops[..|ops| - 1], ops[|ops| - 1];
      Survives(cfg, ops, slot, now, i)
      == Survives(cfg, init, slot, if Touches(cfg, last, slot) then Max(now, last.now) else now, i)
  {
    var n := |ops| - 1;
    var init := ops[..n];
    assert forall j :: 0 <= j < n ==> init[j] == ops[j];
  }

  function Later(stamps: set<int>, bound: int): set<int> {
    set t | t in stamps && bound < t
  }

  /** The stamps less than a window old. */
  function Young(stamps: set<int>, now: int, windowMicros: int): set<int> {
    Later(stamps, now - windowMicros)
  }

  /** What survives two readings is what is young at the one of what survives the other. */
  lemma {:induction false} SurvivorsOfTwo(cfg: Settings, ops: seq<Op>, slot: Slot, a: int, b: int)
    requires cfg.Valid()
    ensures Survivors(cfg, ops, slot, Max(a, b)) == Young(Survivors(cfg, ops, slot, a), b, cfg.windowMicros)
  {
    if ops != [] {
      var init, last := ops[..|ops| - 1], ops[|ops| - 1];
      if Touches(cfg, last, slot) {
        SurvivorsOfTwo(cfg, init, slot, Max(a, last.now), b);
        assert Max(Max(a, b), last.now) == Max(Max(a, last.now), b);
      } else {
        SurvivorsOfTwo(cfg, init, slot, a, b);
      }
    }
  }

  lemma {:induction false} SurvivorsAreReadings(cfg: Settings, ops: seq<Op>, slot: Slot, now: int, bound: int)
    requires cfg.Valid() && forall op :: op in ops ==> 0 <= op.now <= bound
    ensures forall t :: t in Survivors(cfg, ops, slot, now) ==> 0 <= t <= bound
  {
    if ops != [] {
      var init, last := ops[..|ops| - 1], ops[|ops| - 1];
      assert last in ops;
      SurvivorsAreReadings(cfg, init, slot, if Touches(cfg, last, slot) then Max(now, last.now) else now, bound);
    }
  }

  lemma PromptPrefix(ops: seq<Op>)
    requires ops != [] && Prompt(ops)
    ensures Prompt(ops[..|ops| - 1]) && 0 <= ops[|ops| - 1].now
    ensures forall op :: op in ops[..|ops| - 1] ==> 0 <= op.now <= ops[|ops| - 1].now + GRACE
  {
    var n := |ops| - 1;
    assert forall i :: 0 <= i < n ==> ops[..n][i] == ops[i];
    assert 0 <= ops[n].now <= ops[n].now + GRACE;
  }

  /** What the server has for a bucket at a reading is exactly what survives it. */
  lemma {:induction false} BucketHoldsSurvivors(cfg: Settings, ops: seq<Op>, slot: Slot, now: int)
    requires cfg.Valid() && Prompt(ops)
    requires forall op :: op in ops ==> op.now <= now + GRACE
    ensures Pruned(Live(SetsAfter(cfg, ops), slot, now), now, cfg.windowMicros) == Survivors(cfg, ops, slot, now)
    decreases |ops|
  {
    if ops != [] {
      var init, last := ops[..|ops| - 1], ops[|ops| - 1];
      PromptPrefix(ops);
      BucketHoldsSurvivors(cfg, init, slot, now);
      if Touches(cfg, last, slot) {
        assert last in ops;
        BucketHoldsSurvivors(cfg, init, slot, last.now);
        SurvivorsOfTwo(cfg, init, slot, last.now, now);
        SurvivorsAreReadings(cfg, init, slot, last.now, last.now + GRACE);
        TouchHoldsSurvivors(cfg, SetsAfter(cfg, init), last, now,
                            Survivors(cfg, init, slot, last.now), Survivors(cfg, init, slot, now));
        assert Max(now, last.now) == Max(last.now, now);
      }
    }
  }

  lemma TouchHoldsSurvivors(cfg: Settings, sets: Sets, op: Op, now: int, atOp: set<int>, atNow: set<int>)
    requires cfg.Valid() && op.up && 0 <= op.now
    requires Pruned(Live(sets, SlotOf(cfg, op), op.now), op.now, cfg.windowMicros) == atOp
    requires Pruned(Live(sets, SlotOf(cfg, op), now), now, cfg.windowMicros) == atNow
    requires forall t :: t in atOp ==> 0 <= t <= op.now + GRACE
    requires Young(atOp, now, cfg.windowMicros) <= atNow
    ensures Pruned(Live(NextSets(cfg, sets, op), SlotOf(cfg, op), now), now, cfg.windowMicros)
         == Young(atOp, now, cfg.windowMicros)
            + (if op.Check? && now - op.now < cfg.windowMicros then {op.now} else {})
  {
    var slot := SlotOf(cfg, op);
    var next := NextSets(cfg, sets, op);
    var young := Young(atOp, now, cfg.windowMicros);
    if op.Check? {
      assert next[slot] == Bucket(atOp + {op.now}, op.now + cfg.windowMicros + GRACE);
      forall t
        ensures t in Pruned(atOp + {op.now}, now, cfg.windowMicros)
           <==> t in young || (t == op.now && now - op.now < cfg.windowMicros)
      {
      }
    } else if slot in sets {
      assert next[slot] == Bucket(atOp, sets[slot].deadline);
      if now >= sets[slot].deadline {
        assert atNow == {};
      }
    }
  }

  lemma PromptLast(ops: seq<Op>, op: Op)
    requires Prompt(ops + [op])
    ensures Prompt(ops) && 0 <= op.now && forall o :: o in ops ==> 0 <= o.now <= op.now + GRACE
  {
    assert (ops + [op])[..|ops + [op]| - 1] == ops;
    PromptPrefix(ops + [op]);
  }

  lemma {:induction false} SurvivorsAreStamps(cfg: Settings, ops: seq<Op>, slot: Slot, now: int)
    requires cfg.Valid()
    ensures Survivors(cfg, ops, slot, now) <= StampsIn(cfg, ops, slot)
  {
    if ops != [] {
      var init, last := ops[..|ops| - 1], ops[|ops| - 1];
      SurvivorsAreStamps(cfg, init, slot, if Touches(cfg, last, slot) then Max(now, last.now) else now);
    }
  }

  /** A check with a new stamp is counted with the surviving stamps, hence with all exactly if all survive. */
  lemma CountsTheSurvivors(cfg: Settings, ops: seq<Op>, op: Op)
    requires cfg.Valid() && Prompt(ops + [op]) && op.Check?
    requires op.now !in StampsIn(cfg, ops, SlotOf(cfg, op))
    ensures var slot := SlotOf(cfg, op);
      && Count(cfg, SetsAfter(cfg, ops), op) == |Survivors(cfg, ops, slot, op.now)| + 1
      && (Count(cfg, SetsAfter(cfg, ops), op) == |StampsIn(cfg, ops, slot)| + 1
          <==> Survivors(cfg, ops, slot, op.now) == StampsIn(cfg, ops, slot))
  {
    var slot := SlotOf(cfg, op);
    var filed, kept := StampsIn(cfg, ops, slot), Survivors(cfg, ops, slot, op.now);
    PromptLast(ops, op);
    BucketHoldsSurvivors(cfg, ops, slot, op.now);
    SurvivorsAreStamps(cfg, ops, slot, op.now);
    assert Count(cfg, SetsAfter(cfg, ops), op) == |kept + {op.now}|;
    assert |filed| == |kept| + |filed - kept|;
    if filed - kept == {} {
      assert filed == kept;
    }
  }

  /** A check that passes although `max` checks of its bucket came before it: so many of them do not survive. */
  ghost predicate Freed(cfg: Settings, ops: seq<Op>, op: Op, slot: Slot)
    requires cfg.Valid()
  {
    CountedIn(cfg, op, slot) && |Survivors(cfg, ops, slot, op.now)| < cfg.max <= ChecksIn(cfg, ops, slot)
  }

  /** How many such checks there are. */
  ghost function FreedIn(cfg: Settings, ops: seq<Op>, slot: Slot): nat
    requires cfg.Valid()
  {
    if ops == [] then 0
    else
      var init, last := ops[..|ops| - 1], ops[|ops| - 1];
      FreedIn(cfg, init, slot) + (if Freed(cfg, init, last, slot) then 1 else 0)
  }

  lemma AllowsFirstAndFreed(cfg: Settings, init: seq<Op>, last: Op, slot: Slot)
    requires cfg.Valid() && Prompt(init + [last]) && Distinct(cfg, init + [last])
    requires CountedIn(cfg, last, slot)
    ensures Allows(cfg, init, last) <==> ChecksIn(cfg, init, slot) < cfg.max || Freed(cfg, init, last, slot)
  {
    assert (init + [last])[..|init + [last]| - 1] == init;
    CountsTheSurvivors(cfg, init, last);
    SurvivorsAreStamps(cfg, init, slot, last.now);
    DistinctStampsAreChecks(cfg, init, slot);
    assert |StampsIn(cfg, init, slot)|
        == |Survivors(cfg, init, slot, last.now)| + |StampsIn(cfg, init, slot) - Survivors(cfg, init, slot, last.now)|;
  }

  /** Whatever the readings, a bucket lets through its first `max` checks, then exactly the freed ones. */
  lemma {:induction false} BucketAllowsFirstAndFreed(cfg: Settings, ops: seq<Op>, slot: Slot)
    requires cfg.Valid() && Prompt(ops) && Distinct(cfg, ops) && 0 <= cfg.max
    ensures var n := ChecksIn(cfg, ops, slot);
      AllowedIn(cfg, ops, slot) == (if n < cfg.max then n else cfg.max) + FreedIn(cfg, ops, slot)
  {
    if ops != [] {
      var init, last := ops[..|ops| - 1], ops[|ops| - 1];
      PromptPrefix(ops);
      BucketAllowsFirstAndFreed(cfg, init, slot);
      if CountedIn(cfg, last, slot) {
        assert init + [last] == ops;
        AllowsFirstAndFreed(cfg, init, last, slot);
      }
    }
  }

  lemma {:induction false} SomeAreFreed(cfg: Settings, ops: seq<Op>, slot: Slot)
    requires cfg.Valid()
    ensures FreedIn(cfg, ops, slot) > 0 <==> exists k :: 0 <= k < |ops| && Freed(cfg, ops[..k], ops[k], slot)
    ensures FreedIn(cfg, ops, slot) > 0 ==> cfg.max <= ChecksIn(cfg, ops, slot)
  {
    if ops != [] {
      var n := |ops| - 1;
      SomeAreFreed(cfg, ops[..n], slot);
      forall k | 0 <= k < n ensures Freed(cfg, ops[..n][..k], ops[..n][k], slot) == Freed(cfg, ops[..k], ops[k], slot) {
        assert ops[..n][..k] == ops[..k];
      }
      if FreedIn(cfg, ops[..n], slot) > 0 {
        var k :| 0 <= k < n && Freed(cfg, ops[..n][..k], ops[..n][k], slot);
        assert Freed(cfg, ops[..k], ops[k], slot);
      }
      if k :| 0 <= k < |ops| && Freed(cfg, ops[..k], ops[k], slot) {
        if k < n {
          assert Freed(cfg, ops[..n][..k], ops[..n][k], slot);
        }
      }
    }
  }

  /**
   * A bucket lets through more than `max` checks exactly if, for some check that comes after `max` others
   * of the bucket, fewer than `max` stamps of the bucket survive.
   */
  lemma BucketExceedsExactly(cfg: Settings, ops: seq<Op>, slot: Slot)
    requires cfg.Valid() && Prompt(ops) && Distinct(cfg, ops) && 0 <= cfg.max
    ensures AllowedIn(cfg, ops, slot) > cfg.max <==> exists k :: 0 <= k < |ops| && Freed(cfg, ops[..k], ops[k], slot)
  {
    BucketAllowsFirstAndFreed(cfg, ops, slot);
    SomeAreFreed(cfg, ops, slot);
  }

  // --- any readings that reach the server in their order ----------------------------------

  /** Stamps are times after the epoch, and operations reach the server in the order of their readings. */
  ghost predicate Timely(ops: seq<Op>) {
    forall i, j :: 0 <= i <= j < |ops| ==> 0 <= ops[i].now <= ops[j].now
  }

  lemma TimelyIsPrompt(ops: seq<Op>)
    requires Timely(ops)
    ensures Prompt(ops)
  {
  }

  lemma TimelyPrefix(ops: seq<Op>)
    requires ops != [] && Timely(ops)
    ensures Timely(ops[..|ops| - 1])
    ensures forall op :: op in ops[..|ops| - 1] ==> 0 <= op.now <= ops[|ops| - 1].now
    ensures 0 <= ops[|ops| - 1].now
  {
    var n := |ops| - 1;
    assert forall i :: 0 <= i < n ==> ops[..n][i] == ops[i];
  }

  lemma {:induction false} StampsAreReadings(cfg: Settings, ops: seq<Op>, slot: Slot, now: int)
    requires cfg.Valid() && forall op :: op in ops ==> 0 <= op.now <= now
    ensures forall t :: t in StampsIn(cfg, ops, slot) ==> 0 <= t <= now
  {
    if ops != [] {
      assert ops[|ops| - 1] in ops;
      StampsAreReadings(cfg, ops[..|ops| - 1], slot, now);
    }
  }

  /** Up to a reading later than all, what survives is what is young. */
  lemma {:induction false} SurvivorsInOrder(cfg: Settings, ops: seq<Op>, slot: Slot, now: int)
    requires cfg.Valid() && forall op :: op in ops ==> op.now <= now
    ensures Survivors(cfg, ops, slot, now) == Young(StampsIn(cfg, ops, slot), now, cfg.windowMicros)
  {
    if ops != [] {
      assert ops[|ops| - 1] in ops;
      SurvivorsInOrder(cfg, ops[..|ops| - 1], slot, now);
    }
  }

  /** What the server has for a bucket is then exactly its stamps of the last window. */
  lemma BucketHoldsTheWindow(cfg: Settings, ops: seq<Op>, slot: Slot, now: int)
    requires cfg.Valid() && Timely(ops)
    requires forall op :: op in ops ==> op.now <= now
    ensures Pruned(Live(SetsAfter(cfg, ops), slot, now), now, cfg.windowMicros)
         == Young(StampsIn(cfg, ops, slot), now, cfg.windowMicros)
  {
    TimelyIsPrompt(ops);
    BucketHoldsSurvivors(cfg, ops, slot, now);
    SurvivorsInOrder(cfg, ops, slot, now);
  }

  lemma TimelyLast(ops: seq<Op>, op: Op)
    requires Timely(ops + [op])
    ensures Timely(ops) && 0 <= op.now && forall o :: o in ops ==> 0 <= o.now <= op.now
  {
    assert (ops + [op])[..|ops + [op]| - 1] == ops;
    TimelyPrefix(ops + [op]);
  }

  /** A check with a new stamp is counted with every stamp of its bucket exactly if none is a window old. */
  lemma CountsAllExactlyIfYoung(cfg: Settings, ops: seq<Op>, op: Op)
    requires cfg.Valid() && Timely(ops + [op]) && op.Check?
    requires op.now !in StampsIn(cfg, ops, SlotOf(cfg, op))
    ensures var filed, count := StampsIn(cfg, ops, SlotOf(cfg, op)), Count(cfg, SetsAfter(cfg, ops), op);
      && count == |Young(filed, op.now, cfg.windowMicros)| + 1
      && (count == |filed| + 1 <==> forall t :: t in filed ==> op.now - cfg.windowMicros < t)
  {
    var filed := StampsIn(cfg, ops, SlotOf(cfg, op));
    TimelyLast(ops, op);
    TimelyIsPrompt(ops + [op]);
    CountsTheSurvivors(cfg, ops, op);
    SurvivorsInOrder(cfg, ops, SlotOf(cfg, op), op.now);
    if Young(filed, op.now, cfg.windowMicros) == filed {
      assert forall t :: t in filed ==> t in Young(filed, op.now, cfg.windowMicros);
    }
  }

  /** The stamps of the bucket's checks, in order. */
  function Filed(cfg: Settings, ops: seq<Op>, slot: Slot): seq<int>
    requires cfg.Valid()
  {
    if ops == [] then []
    else
      Filed(cfg, ops[..|ops| - 1], slot) + (if CountedIn(cfg, ops[|ops| - 1], slot) then [ops[|ops| - 1].now] else [])
  }

  ghost predicate Increasing(s: seq<int>) {
    forall i, j :: 0 <= i < j < |s| ==> s[i] < s[j]
  }

  lemma {:induction false} FiledIncrease(cfg: Settings, ops: seq<Op>, slot: Slot)
    requires cfg.Valid() && Timely(ops) && Distinct(cfg, ops)
    ensures Increasing(Filed(cfg, ops, slot))
    ensures forall t :: t in Filed(cfg, ops, slot) <==> t in StampsIn(cfg, ops, slot)
  {
    if ops != [] {
      var init, last := ops[..|ops| - 1], ops[|ops| - 1];
      TimelyPrefix(ops);
      FiledIncrease(cfg, init, slot);
      StampsAreReadings(cfg, init, slot, last.now);
      var filed := Filed(cfg, init, slot);
      assert forall i :: 0 <= i < |filed| ==> filed[i] in filed;
    }
  }

  lemma NoneLater(filed: seq<int>, stamps: set<int>, bound: int)
    requires Increasing(filed) && forall t :: t in filed <==> t in stamps
    requires filed != [] ==> filed[|filed| - 1] <= bound
    ensures Later(stamps, bound) == {}
  {
    forall t | t in stamps ensures t <= bound {
      var i :| 0 <= i < |filed| && filed[i] == t;
    }
  }

  lemma OneLater(stamps: set<int>, t: int, bound: int)
    requires t in stamps && bound < t
    ensures |Later(stamps, bound)| == |Later(stamps - {t}, bound)| + 1
  {
    assert Later(stamps, bound) == Later(stamps - {t}, bound) + {t};
  }

  /** Of increasing stamps, fewer than max are later than a bound exactly if the max-th from the end is not. */
  lemma {:induction false} FewerThanMax(filed: seq<int>, stamps: set<int>, bound: int, max: nat)
    requires Increasing(filed) && forall t :: t in filed <==> t in stamps
    ensures |Later(stamps, bound)| < max <==> 0 < max && (|filed| < max || filed[|filed| - max] <= bound)
    decreases |filed|
  {
    if filed == [] || filed[|filed| - 1] <= bound {
      NoneLater(filed, stamps, bound);
    } else if max > 0 {
      var init, last := filed[..|filed| - 1], filed[|filed| - 1];
      WithoutLast(filed, stamps);
      FewerThanMax(init, stamps - {last}, bound, max - 1);
      OneLater(stamps, last, bound);
    }
  }

  lemma WithoutLast(filed: seq<int>, stamps: set<int>)
    requires filed != [] && Increasing(filed) && forall t :: t in filed <==> t in stamps
    ensures var init, last := filed[..|filed| - 1], filed[|filed| - 1];
      Increasing(init) && forall t :: t in init <==> t in stamps - {last}
  {
    var init, last := filed[..|filed| - 1], filed[|filed| - 1];
    assert filed == init + [last];
  }

  /** How many of the checks come a window or more after the check max places before them. */
  function Late(filed: seq<int>, max: nat, windowMicros: int): nat {
    if filed == [] then 0
    else
      var n := |filed| - 1;
      Late(filed[..n], max, windowMicros)
      + (if max <= n && windowMicros <= filed[n] - filed[n - max] then 1 else 0)
  }

  predicate IsLate(filed: seq<int>, now: int, max: nat, windowMicros: int) {
    0 < max <= |filed| && windowMicros <= now - filed[|filed| - max]
  }

  lemma LateGrows(filed: seq<int>, now: int, max: nat, windowMicros: int)
    requires 0 < windowMicros
    ensures Late(filed + [now], max, windowMicros)
         == Late(filed, max, windowMicros) + (if IsLate(filed, now, max, windowMicros) then 1 else 0)
  {
    assert (filed + [now])[..|filed|] == filed;
  }

  lemma YoungAreFew(filed: seq<int>, stamps: set<int>, now: int, max: nat, windowMicros: int)
    requires Increasing(filed) && forall t :: t in filed <==> t in stamps
    ensures |Young(stamps, now, windowMicros)| < max
        <==> 0 < max && (|filed| < max || IsLate(filed, now, max, windowMicros))
  {
    FewerThanMax(filed, stamps, now - windowMicros, max);
  }

  /**
   * A check passes exactly if it is among the first `max` of its bucket or a window after the check max
   * places before it.
   */
  lemma AllowsFirstAndLate(cfg: Settings, ops: seq<Op>, op: Op)
    requires cfg.Valid() && Timely(ops + [op]) && Distinct(cfg, ops + [op]) && 0 <= cfg.max
    requires op.Check? && op.up
    ensures var filed := Filed(cfg, ops, SlotOf(cfg, op));
      Allows(cfg, ops, op) <==> |filed| < cfg.max || IsLate(filed, op.now, cfg.max, cfg.windowMicros)
  {
    var slot := SlotOf(cfg, op);
    assert (ops + [op])[..|ops + [op]| - 1] == ops;
    TimelyLast(ops, op);
    CountsAllExactlyIfYoung(cfg, ops, op);
    FiledIncrease(cfg, ops, slot);
    YoungAreFew(Filed(cfg, ops, slot), StampsIn(cfg, ops, slot), op.now, cfg.max, cfg.windowMicros);
  }

  lemma OneMoreInOrder(cfg: Settings, init: seq<Op>, last: Op, slot: Slot)
    requires cfg.Valid() && Timely(init + [last]) && Distinct(cfg, init + [last]) && 0 <= cfg.max
    requires CountedIn(cfg, last, slot)
    ensures var ops, filed := init + [last], Filed(cfg, init, slot);
      && Filed(cfg, ops, slot) == filed + [last.now]
      && AllowedIn(cfg, ops, slot)
         == AllowedIn(cfg, init, slot)
            + (if |filed| < cfg.max || IsLate(filed, last.now, cfg.max, cfg.windowMicros) then 1 else 0)
  {
    assert (init + [last])[..|init + [last]| - 1] == init;
    AllowsFirstAndLate(cfg, init, last);
  }

  /** So a bucket lets through its first `max` checks, then exactly the late ones. */
  lemma {:induction false} BucketAllowsFirstAndLate(cfg: Settings, ops: seq<Op>, slot: Slot)
    requires cfg.Valid() && Timely(ops) && Distinct(cfg, ops) && 0 <= cfg.max
    ensures var filed := Filed(cfg, ops, slot);
      AllowedIn(cfg, ops, slot)
      == (if |filed| < cfg.max then |filed| else cfg.max) + Late(filed, cfg.max, cfg.windowMicros)
  {
    if ops != [] {
      var init, last := ops[..|ops| - 1], ops[|ops| - 1];
      assert init + [last] == ops;
      TimelyPrefix(ops);
      BucketAllowsFirstAndLate(cfg, init, slot);
      if CountedIn(cfg, last, slot) {
        OneMoreInOrder(cfg, init, last, slot);
        LateGrows(Filed(cfg, init, slot), last.now, cfg.max, cfg.windowMicros);
      } else {
        assert Filed(cfg, ops, slot) == Filed(cfg, init, slot);
      }
    }
  }

  predicate LateAt(filed: seq<int>, k: nat, max: nat, windowMicros: int) {
    max <= k < |filed| && windowMicros <= filed[k] - filed[k - max]
  }

  lemma {:induction false} SomeAreLate(filed: seq<int>, max: nat, windowMicros: int)
    ensures Late(filed, max, windowMicros) > 0 <==> exists k: nat :: LateAt(filed, k, max, windowMicros)
  {
    if filed != [] {
      var n := |filed| - 1;
      SomeAreLate(filed[..n], max, windowMicros);
      if Late(filed[..n], max, windowMicros) > 0 {
        var k: nat :| LateAt(filed[..n], k, max, windowMicros);
        assert LateAt(filed, k, max, windowMicros);
      } else if LateAt(filed, n, max, windowMicros) {
      } else {
        forall k: nat ensures !LateAt(filed, k, max, windowMicros) {
          assert k < n ==> LateAt(filed, k, max, windowMicros) == LateAt(filed[..n], k, max, windowMicros);
        }
      }
    }
  }

  /** It lets through more than `max` exactly if some two of its stamps, max places apart, are a window apart. */
  lemma InOrderExceedsExactly(cfg: Settings, ops: seq<Op>, slot: Slot)
    requires cfg.Valid() && Timely(ops) && Distinct(cfg, ops) && 0 <= cfg.max
    ensures var filed := Filed(cfg, ops, slot);
      AllowedIn(cfg, ops, slot) > cfg.max <==> exists k: nat :: LateAt(filed, k, cfg.max, cfg.windowMicros)
  {
    var filed := Filed(cfg, ops, slot);
    BucketAllowsFirstAndLate(cfg, ops, slot);
    LateExceeds(filed, cfg.max, cfg.windowMicros);
    SomeAreLate(filed, cfg.max, cfg.windowMicros);
  }

  lemma LateExceeds(filed: seq<int>, max: nat, windowMicros: int)
    ensures (if |filed| < max then |filed| else max) + Late(filed, max, windowMicros) > max
       <==> Late(filed, max, windowMicros) > 0
  {
    if |filed| < max {
      NoneLateAtFirst(filed, max, windowMicros);
    }
  }

  lemma {:induction false} NoneLateAtFirst(filed: seq<int>, max: nat, windowMicros: int)
    requires |filed| <= max
    ensures Late(filed, max, windowMicros) == 0
  {
    if filed != [] {
      NoneLateAtFirst(filed[..|filed| - 1], max, windowMicros);
    }
  }

  /** The bucket's checks let through with a reading less than a window after `from`, and their stamps. */
  function AllowedInWithin(cfg: Settings, ops: seq<Op>, slot: Slot, from: int): nat
    requires cfg.Valid()
  {
    if ops == [] then 0
    else
      var init, last := ops[..|ops| - 1], ops[|ops| - 1];
      AllowedInWithin(cfg, init, slot, from)
      + (if SlotOf(cfg, last) == slot && Within(cfg, last, from) && LetThrough(cfg, init, last) then 1 else 0)
  }

  function StampsInWithin(cfg: Settings, ops: seq<Op>, slot: Slot, from: int): set<int>
    requires cfg.Valid()
  {
    if ops == [] then {}
    else
      var init, last := ops[..|ops| - 1], ops[|ops| - 1];
      StampsInWithin(cfg, init, slot, from)
      + (if SlotOf(cfg, last) == slot && Within(cfg, last, from) && LetThrough(cfg, init, last) then {last.now} else {})
  }

  lemma {:induction false} StampsInWithinAre(cfg: Settings, ops: seq<Op>, slot: Slot, from: int)
    requires cfg.Valid() && Distinct(cfg, ops)
    ensures |StampsInWithin(cfg, ops, slot, from)| == AllowedInWithin(cfg, ops, slot, from)
    ensures forall t :: t in StampsInWithin(cfg, ops, slot, from) ==> from <= t && t in StampsIn(cfg, ops, slot)
  {
    if ops != [] {
      StampsInWithinAre(cfg, ops[..|ops| - 1], slot, from);
    }
  }

  lemma WithinAreYoung(within: set<int>, filed: set<int>, from: int, now: int, windowMicros: int)
    requires now < from + windowMicros && forall t :: t in within ==> from <= t && t in filed
    ensures |within| <= |Young(filed, now, windowMicros)|
  {
    var young := Young(filed, now, windowMicros);
    forall t | t in within ensures t in young {
      assert now - windowMicros < t;
    }
    assert |young| == |within| + |young - within|;
  }

  /** Whatever the readings, in a span of the clock shorter than the window a bucket lets through at most `max`. */
  lemma {:induction false} BucketAtMostMaxPerSpan(cfg: Settings, ops: seq<Op>, slot: Slot, from: int)
    requires cfg.Valid() && Timely(ops) && Distinct(cfg, ops) && 0 <= cfg.max
    ensures AllowedInWithin(cfg, ops, slot, from) <= cfg.max
  {
    if ops != [] {
      var init, last := ops[..|ops| - 1], ops[|ops| - 1];
      assert init + [last] == ops;
      TimelyPrefix(ops);
      BucketAtMostMaxPerSpan(cfg, init, slot, from);
      if SlotOf(cfg, last) == slot && Within(cfg, last, from) && LetThrough(cfg, init, last) {
        CountsAllExactlyIfYoung(cfg, init, last);
        StampsInWithinAre(cfg, init, slot, from);
        WithinAreYoung(StampsInWithin(cfg, init, slot, from), StampsIn(cfg, init, slot), from, last.now,
            cfg.windowMicros);
      }
    }
  }

  /** The bucket's reading is in the bucket of the stamp's, or in the next one. */
  ghost predicate Adjacent(cfg: Settings, ops: seq<Op>)
    requires cfg.Valid()
  {
    forall i :: 0 <= i < |ops| ==> AdjacentReadings(cfg, ops[i])
  }

  ghost predicate AdjacentReadings(cfg: Settings, op: Op)
    requires cfg.Valid()
  {
    var b := op.now / cfg.windowMicros;
    op.keyNow / cfg.windowMicros == b || op.keyNow / cfg.windowMicros == b + 1
  }

  lemma {:induction false} SpanTouchesThreeBuckets(cfg: Settings, ops: seq<Op>, key: string, from: int, b: int)
    requires cfg.Valid() && Adjacent(cfg, ops) && b == from / cfg.windowMicros
    ensures AllowedWithin(cfg, ops, key, from)
      <= AllowedInWithin(cfg, ops, Slot(key, b), from) + AllowedInWithin(cfg, ops, Slot(key, b + 1), from)
         + AllowedInWithin(cfg, ops, Slot(key, b + 2), from)
  {
    if ops != [] {
      var n := |ops| - 1;
      assert forall i :: 0 <= i < n ==> ops[..n][i] == ops[i];
      SpanTouchesThreeBuckets(cfg, ops[..n], key, from, b);
      if Within(cfg, ops[n], from) {
        NextBucketAtMost(from, ops[n].now, cfg.windowMicros);
        assert AdjacentReadings(cfg, ops[n]);
      }
    }
  }

  /** With readings that straddle one edge at most, a span shorter than the window holds at most three times `max`. */
  lemma AtMostThriceMaxPerSpan(cfg: Settings, ops: seq<Op>, key: string, from: int)
    requires cfg.Valid() && Timely(ops) && Distinct(cfg, ops) && Adjacent(cfg, ops) && 0 <= cfg.max
    ensures AllowedWithin(cfg, ops, key, from) <= 3 * cfg.max
  {
    var b := from / cfg.windowMicros;
    SpanTouchesThreeBuckets(cfg, ops, key, from, b);
    BucketAtMostMaxPerSpan(cfg, ops, Slot(key, b), from);
    BucketAtMostMaxPerSpan(cfg, ops, Slot(key, b + 1), from);
    BucketAtMostMaxPerSpan(cfg, ops, Slot(key, b + 2), from);
  }

  /** It happens: two readings on either side of a bucket's edge file a stamp under the next bucket. */
  lemma StraddlingReadingsLoseAStamp(w: int)
    requires 1 < w
    ensures var cfg := Settings(w, 1);
      var ops := [Check("k", w - 1, w, true), Check("k", 2 * w - 1, 2 * w - 1, true)];
      Timely(ops) && Distinct(cfg, ops) && AllowedIn(cfg, ops, Slot("k", 1)) > 1
  {
    var cfg := Settings(w, 1);
    var a, b := Check("k", w - 1, w, true), Check("k", 2 * w - 1, 2 * w - 1, true);
    QuotientIs(w, 1, w);
    QuotientIs(2 * w - 1, 1, w);
    var slot := Slot("k", 1);
    var ops := [a, b];
    assert ops[..1] == [a] && [a][..0] == [];
    assert SlotOf(cfg, a) == slot && SlotOf(cfg, b) == slot;
    assert StampsIn(cfg, [], slot) == {};
    assert StampsIn(cfg, [a], slot) == {w - 1};
    assert Distinct(cfg, [a]);
    assert Filed(cfg, [a], slot) == [w - 1];
    assert Filed(cfg, ops, slot) == [w - 1, 2 * w - 1];
    InOrderExceedsExactly(cfg, ops, slot);
    assert LateAt(Filed(cfg, ops, slot), 1, 1, w);
  }
}
