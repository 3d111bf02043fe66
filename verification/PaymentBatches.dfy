// The payment batching of agents/financeiro: a greedy packer that keeps the order of payables.
module PaymentBatches {

  datatype Payable = Payable(id: string, amount: real)

  function Total(ps: seq<Payable>): real {
    if ps == [] then 0.0 else Total(ps[..|ps| - 1]) + ps[|ps| - 1].amount
  }

  function Concat(batches: seq<seq<Payable>>): seq<Payable> {
    if batches == [] then [] else Concat(batches[..|batches| - 1]) + batches[|batches| - 1]
  }

  // Every payable but the first was added without passing the limit.
  ghost predicate Filled(limit: real, batch: seq<Payable>) {
    batch != [] && forall n | 2 <= n <= |batch| :: Total(batch[..n]) <= limit
  }

  // The first payable of the next batch would have passed the limit.
  ghost predicate Closed(limit: real, batch: seq<Payable>, next: seq<Payable>) {
    next != [] && Total(batch) + next[0].amount > limit
  }

  ghost predicate Greedy(limit: real, batches: seq<seq<Payable>>) {
    batches != [] ==>
      var front, last := batches[..|batches| - 1], batches[|batches| - 1];
      && Greedy(limit, front)
      && Filled(limit, last)
      && (front != [] ==> Closed(limit, front[|front| - 1], last))
  }

  lemma {:induction false} GreedyAt(limit: real, batches: seq<seq<Payable>>, k: nat)
    requires Greedy(limit, batches) && k < |batches|
    ensures Filled(limit, batches[k])
    ensures k + 1 < |batches| ==> Closed(limit, batches[k], batches[k + 1])
    decreases |batches|
  {
    if k < |batches| - 1 {
      GreedyAt(limit, batches[..|batches| - 1], k);
    }
  }

  // Closed batches, the one being filled, and its total.
  datatype Filling = Filling(batches: seq<seq<Payable>>, current: seq<Payable>, total: real)

  function Add(limit: real, f: Filling, p: Payable): Filling {
    if f.total + p.amount > limit && f.current != [] then Filling(f.batches + [f.current], [p], 0.0 + p.amount)
    else Filling(f.batches, f.current + [p], f.total + p.amount)
  }

  function AddAll(limit: real, ps: seq<Payable>): Filling {
    if ps == [] then Filling([], [], 0.0) else Add(limit, AddAll(limit, ps[..|ps| - 1]), ps[|ps| - 1])
  }

  // The batches are the input cut greedily; GreedyIsUnique shows that this fixes them.
  method SchedulePaymentBatches(payables: seq<Payable>, dailyLimit: real)
    returns (batchCount: nat, batches: seq<seq<Payable>>)
    ensures batchCount == |batches|
    ensures Concat(batches) == payables
    ensures Greedy(dailyLimit, batches)
  {
    batches := [];
    var current, currentTotal := [], 0.0;
    var i := 0;
    while i < |payables|
      invariant 0 <= i <= |payables|
      invariant Filling(batches, current, currentTotal) == AddAll(dailyLimit, payables[..i])
    {
      var p := payables[i];
      assert payables[..i + 1][..i] == payables[..i];
      if currentTotal + p.amount > dailyLimit && current != [] {
        batches := batches + [current];
        current, currentTotal := [], 0.0;
      }
      current := current + [p];
      currentTotal := currentTotal + p.amount;
      i := i + 1;
    }
    assert payables[..i] == payables;
    if current != [] {
      batches := batches + [current];
    }
    PackedIsGreedy(dailyLimit, payables, batches);
    batchCount := |batches|;
  }

  function Packed(f: Filling): seq<seq<Payable>> {
    if f.current != [] then f.batches + [f.current] else f.batches
  }

  lemma PackedIsGreedy(limit: real, ps: seq<Payable>, batches: seq<seq<Payable>>)
    requires batches == Packed(AddAll(limit, ps))
    ensures Concat(batches) == ps && Greedy(limit, batches)
  {
    var f := AddAll(limit, ps);
    AddingIsGreedy(limit, ps);
    if f.current != [] {
      AppendBatch(limit, f.batches, f.current);
    }
  }

  // Closed batches and the one being filled hold the payables done so far.
  ghost predicate Partial(limit: real, batches: seq<seq<Payable>>, current: seq<Payable>, done: seq<Payable>) {
    && Concat(batches) + current == done
    && Greedy(limit, batches)
    && (current != [] ==> Filled(limit, current))
    && (batches != [] ==> Closed(limit, batches[|batches| - 1], current))
  }

  lemma {:induction false} AddingIsGreedy(limit: real, ps: seq<Payable>)
    ensures var f := AddAll(limit, ps); Partial(limit, f.batches, f.current, ps) && f.total == Total(f.current)
  {
    if ps != [] {
      var front, p := ps[..|ps| - 1], ps[|ps| - 1];
      AddingIsGreedy(limit, front);
      var f := AddAll(limit, front);
      assert ps == front + [p];
      if f.total + p.amount > limit && f.current != [] {
        StartsBatch(limit, f.batches, f.current, front, p);
        TotalAppend([], p);
      } else {
        FillsBatch(limit, f.batches, f.current, front, p);
        TotalAppend(f.current, p);
      }
    }
  }

  lemma TotalAppend(batch: seq<Payable>, p: Payable)
    ensures Total(batch + [p]) == Total(batch) + p.amount
  {
    assert (batch + [p])[..|batch|] == batch;
  }

  lemma AppendBatch(limit: real, batches: seq<seq<Payable>>, batch: seq<Payable>)
    requires Greedy(limit, batches) && Filled(limit, batch)
    requires batches != [] ==> Closed(limit, batches[|batches| - 1], batch)
    ensures Concat(batches + [batch]) == Concat(batches) + batch
    ensures Greedy(limit, batches + [batch])
  {
    assert (batches + [batch])[..|batches|] == batches;
  }

  lemma StartsBatch(limit: real, batches: seq<seq<Payable>>, current: seq<Payable>, done: seq<Payable>, p: Payable)
    requires Partial(limit, batches, current, done)
    requires current != [] && Total(current) + p.amount > limit
    ensures Partial(limit, batches + [current], [p], done + [p])
  {
    AppendBatch(limit, batches, current);
  }

  lemma FillsBatch(limit: real, batches: seq<seq<Payable>>, current: seq<Payable>, done: seq<Payable>, p: Payable)
    requires Partial(limit, batches, current, done)
    requires current == [] || Total(current) + p.amount <= limit
    ensures Partial(limit, batches, current + [p], done + [p])
  {
    var longer := current + [p];
    TotalAppend(current, p);
    forall n | 2 <= n <= |longer| ensures Total(longer[..n]) <= limit {
      if n == |longer| {
        assert longer[..n] == longer;
      } else {
        assert longer[..n] == current[..n];
      }
    }
    assert Concat(batches) + longer == done + [p];
  }

  /* Batches as cuts of the input. */

  function End(batches: seq<seq<Payable>>, k: nat): nat
    requires k <= |batches|
  {
    |Concat(batches[..k])|
  }

  lemma {:induction false} BatchIsCut(batches: seq<seq<Payable>>, k: nat)
    requires k < |batches|
    ensures End(batches, k) + |batches[k]| == End(batches, k + 1) <= |Concat(batches)|
    ensures batches[k] == Concat(batches)[End(batches, k)..End(batches, k + 1)]
    decreases |batches|
  {
    var front, last := batches[..|batches| - 1], batches[|batches| - 1];
    if k < |batches| - 1 {
      BatchIsCut(front, k);
      assert front[..k] == batches[..k] && front[..k + 1] == batches[..k + 1];
    } else {
      assert batches[..k + 1] == batches && batches[..k + 1][..k] == batches[..k];
    }
  }

  lemma LastEnd(batches: seq<seq<Payable>>)
    ensures End(batches, 0) == 0 && End(batches, |batches|) == |Concat(batches)|
  {
    assert batches[..|batches|] == batches;
  }

  // The sum of p[a..b].
  function Span(p: seq<Payable>, a: nat, b: nat): real
    requires a <= b <= |p|
  {
    Total(p[a..b])
  }

  lemma SpanGrows(p: seq<Payable>, a: nat, b: nat)
    requires a <= b < |p|
    ensures Span(p, a, b + 1) == Span(p, a, b) + p[b].amount
  {
    assert p[a..b + 1][..b - a] == p[a..b];
  }

  ghost predicate NonNegative(p: seq<Payable>) {
    forall x | x in p :: x.amount >= 0.0
  }

  lemma {:induction false} SpanMonotone(p: seq<Payable>, a: nat, a': nat, b': nat, b: nat)
    requires NonNegative(p) && a <= a' <= b' <= b <= |p|
    ensures Span(p, a', b') <= Span(p, a, b)
    decreases b - a
  {
    if b' < b {
      SpanMonotone(p, a, a', b', b - 1);
      SpanGrows(p, a, b - 1);
      assert p[b - 1] in p;
    } else if a < a' {
      SpanDropsFirst(p, a, b);
      SpanMonotone(p, a + 1, a', b', b);
      assert p[a] in p;
    }
  }

  lemma {:induction false} SpanDropsFirst(p: seq<Payable>, a: nat, b: nat)
    requires a < b <= |p|
    ensures Span(p, a, b) == p[a].amount + Span(p, a + 1, b)
    decreases b
  {
    SpanGrows(p, a, b - 1);
    if a + 1 < b {
      SpanDropsFirst(p, a, b - 1);
      SpanGrows(p, a + 1, b - 1);
    }
  }

  // The cut p[a..e] holds as many payables as fit, or one.
  ghost predicate GreedyCut(limit: real, p: seq<Payable>, a: nat, e: nat) {
    && a < e <= |p|
    && (forall n {:trigger Span(p, a, n)} | a + 2 <= n <= e :: Span(p, a, n) <= limit)
    && (e < |p| ==> Span(p, a, e + 1) > limit)
  }

  lemma GreedyBatchIsGreedyCut(limit: real, g: seq<seq<Payable>>, k: nat)
    requires Greedy(limit, g) && k < |g|
    ensures GreedyCut(limit, Concat(g), End(g, k), End(g, k + 1))
  {
    var p, a := Concat(g), End(g, k);
    BatchIsCut(g, k);
    GreedyAt(limit, g, k);
    forall n {:trigger Span(p, a, n)} | a + 2 <= n <= End(g, k + 1) ensures Span(p, a, n) <= limit {
      assert p[a..n] == g[k][..n - a];
    }
    if k + 1 < |g| {
      BatchIsCut(g, k + 1);
      assert g[k + 1][0] == p[End(g, k + 1)];
      SpanGrows(p, a, End(g, k + 1));
    } else {
      LastEnd(g);
    }
  }

  lemma GreedyCutIsUnique(limit: real, p: seq<Payable>, a: nat, e: nat, f: nat)
    requires GreedyCut(limit, p, a, e) && GreedyCut(limit, p, a, f)
    ensures e == f
  {
  }

  /* Greedy cutting is determined by the input. */

  lemma {:induction false} GreedyEndsAgree(limit: real, g: seq<seq<Payable>>, h: seq<seq<Payable>>, k: nat)
    requires Greedy(limit, g) && Greedy(limit, h) && Concat(g) == Concat(h)
    requires k <= |g| && k <= |h|
    ensures End(g, k) == End(h, k)
  {
    if k > 0 {
      GreedyEndsAgree(limit, g, h, k - 1);
      GreedyBatchIsGreedyCut(limit, g, k - 1);
      GreedyBatchIsGreedyCut(limit, h, k - 1);
      GreedyCutIsUnique(limit, Concat(g), End(g, k - 1), End(g, k), End(h, k));
    }
  }

  // Two greedy cuttings of the same payables are the same cutting.
  lemma GreedyIsUnique(limit: real, g: seq<seq<Payable>>, h: seq<seq<Payable>>)
    requires Greedy(limit, g) && Greedy(limit, h) && Concat(g) == Concat(h)
    ensures g == h
  {
    GreedyNotLonger(limit, g, h);
    GreedyNotLonger(limit, h, g);
    forall k | 0 <= k < |g| ensures g[k] == h[k] {
      GreedyEndsAgree(limit, g, h, k);
      GreedyEndsAgree(limit, g, h, k + 1);
      BatchIsCut(g, k);
      BatchIsCut(h, k);
    }
  }

  lemma GreedyNotLonger(limit: real, g: seq<seq<Payable>>, h: seq<seq<Payable>>)
    requires Greedy(limit, g) && Greedy(limit, h) && Concat(g) == Concat(h)
    ensures |g| <= |h|
  {
    if |g| > |h| {
      GreedyEndsAgree(limit, g, h, |h|);
      LastEnd(h);
      GreedyBatchIsGreedyCut(limit, g, |h|);
    }
  }

  /* Fewest batches among order-preserving splits. */

  // A batch is within the limit or is a single payable.
  ghost predicate Acceptable(limit: real, batches: seq<seq<Payable>>) {
    forall k | 0 <= k < |batches| :: Total(batches[k]) <= limit || |batches[k]| == 1
  }

  lemma {:induction false} GreedyKeepsAhead(limit: real, g: seq<seq<Payable>>, o: seq<seq<Payable>>, k: nat)
    requires Greedy(limit, g) && Acceptable(limit, o) && Concat(g) == Concat(o) && NonNegative(Concat(g))
    requires k <= |g| && k <= |o|
    ensures End(g, k) >= End(o, k)
  {
    if k > 0 {
      GreedyKeepsAhead(limit, g, o, k - 1);
      BatchIsCut(o, k - 1);
      GreedyBatchIsGreedyCut(limit, g, k - 1);
      var batch := o[k - 1];
      assert Total(batch) <= limit || |batch| == 1;
      OverrunsLimit(limit, Concat(g), End(o, k - 1), End(g, k - 1), End(g, k), End(o, k));
    }
  }

  // A cut that starts no later and ends later than a greedy one passes the limit.
  lemma OverrunsLimit(limit: real, p: seq<Payable>, a: nat, b: nat, e: nat, f: nat)
    requires NonNegative(p) && a <= b && a <= f <= |p| && GreedyCut(limit, p, b, e)
    ensures f > e ==> Span(p, a, f) > limit && f - a >= 2
  {
    if f > e {
      SpanMonotone(p, a, b, e + 1, f);
    }
  }

  // No order-preserving split into acceptable batches has fewer batches, and the greedy one is such a split.
  lemma GreedyUsesFewestBatches(limit: real, g: seq<seq<Payable>>, o: seq<seq<Payable>>)
    requires Greedy(limit, g) && Acceptable(limit, o) && Concat(g) == Concat(o) && NonNegative(Concat(g))
    ensures |g| <= |o|
    ensures Acceptable(limit, g)
  {
    forall k | 0 <= k < |g| ensures Total(g[k]) <= limit || |g[k]| == 1 {
      GreedyAt(limit, g, k);
      assert g[k][..|g[k]|] == g[k];
    }
    if |g| > |o| {
      GreedyKeepsAhead(limit, g, o, |o|);
      LastEnd(o);
      GreedyBatchIsGreedyCut(limit, g, |o|);
    }
  }

  /* Within a factor of two of any packing, order-preserving or not. */

  // The total of the payables that a packing puts into a group.
  function GroupTotal(p: seq<Payable>, group: seq<nat>, k: nat): real
    requires |group| == |p|
  {
    if p == [] then 0.0
    else GroupTotal(p[..|p| - 1], group[..|p| - 1], k) + (if group[|p| - 1] == k then p[|p| - 1].amount else 0.0)
  }

  function GroupsTotal(p: seq<Payable>, group: seq<nat>, m: nat): real
    requires |group| == |p|
  {
    if m == 0 then 0.0 else GroupsTotal(p, group, m - 1) + GroupTotal(p, group, m - 1)
  }

  // A packing into m groups, each within the limit.
  ghost predicate Packing(limit: real, p: seq<Payable>, group: seq<nat>, m: nat) {
    && |group| == |p|
    && (forall i | 0 <= i < |p| :: group[i] < m)
    && (forall k | 0 <= k < m :: GroupTotal(p, group, k) <= limit)
  }

  lemma {:induction false} GroupsTotalSplits(p: seq<Payable>, group: seq<nat>, m: nat)
    requires |group| == |p| && p != []
    ensures GroupsTotal(p, group, m) == GroupsTotal(p[..|p| - 1], group[..|p| - 1], m)
                                        + (if group[|p| - 1] < m then p[|p| - 1].amount else 0.0)
  {
    if m > 0 {
      GroupsTotalSplits(p, group, m - 1);
    }
  }

  lemma {:induction false} GroupsCoverTotal(p: seq<Payable>, group: seq<nat>, m: nat)
    requires |group| == |p| && forall i | 0 <= i < |p| :: group[i] < m
    ensures GroupsTotal(p, group, m) == Total(p)
    decreases |p|
  {
    if p == [] {
      EmptyGroups(group, m);
    } else {
      GroupsTotalSplits(p, group, m);
      GroupsCoverTotal(p[..|p| - 1], group[..|p| - 1], m);
    }
  }

  lemma {:induction false} EmptyGroups(group: seq<nat>, m: nat)
    requires group == []
    ensures GroupsTotal([], group, m) == 0.0
  {
    if m > 0 {
      EmptyGroups(group, m - 1);
    }
  }

  function Times(n: nat, x: real): real {
    if n == 0 then 0.0 else Times(n - 1, x) + x
  }

  lemma {:induction false} GroupsWithinLimit(limit: real, p: seq<Payable>, group: seq<nat>, m: nat)
    requires |group| == |p| && forall k | 0 <= k < m :: GroupTotal(p, group, k) <= limit
    ensures GroupsTotal(p, group, m) <= Times(m, limit)
  {
    if m > 0 {
      GroupsWithinLimit(limit, p, group, m - 1);
    }
  }

  // Two neighbouring greedy batches together pass the limit.
  lemma {:induction false} PairsPassLimit(limit: real, g: seq<seq<Payable>>, j: nat)
    requires Greedy(limit, g) && NonNegative(Concat(g)) && 2 * j <= |g|
    ensures Span(Concat(g), 0, End(g, 0)) == 0.0
    ensures End(g, 2 * j) <= |Concat(g)|
    ensures if j == 0 then Span(Concat(g), 0, End(g, 0)) == 0.0
            else Span(Concat(g), 0, End(g, 2 * j)) > Times(j, limit)
  {
    LastEnd(g);
    if j > 0 {
      PairsPassLimit(limit, g, j - 1);
      var p, k := Concat(g), 2 * j - 2;
      GreedyBatchIsGreedyCut(limit, g, k);
      GreedyBatchIsGreedyCut(limit, g, k + 1);
      SpanMonotone(p, End(g, k), End(g, k), End(g, k + 1) + 1, End(g, k + 2));
      SpanJoins(p, End(g, k), End(g, k + 2));
    }
  }

  lemma {:induction false} SpanJoins(p: seq<Payable>, a: nat, b: nat)
    requires a <= b <= |p|
    ensures Span(p, 0, b) == Span(p, 0, a) + Span(p, a, b)
    decreases b
  {
    if a < b {
      SpanJoins(p, a, b - 1);
      SpanGrows(p, 0, b - 1);
      SpanGrows(p, a, b - 1);
    }
  }

  // Whenever m limit-respecting groups exist, the greedy batches number at most 2m - 1.
  lemma GreedyWithinFactorTwo(limit: real, g: seq<seq<Payable>>, group: seq<nat>, m: nat)
    requires Greedy(limit, g) && NonNegative(Concat(g)) && Packing(limit, Concat(g), group, m)
    ensures if m == 0 then g == [] else |g| <= 2 * m - 1
  {
    var p := Concat(g);
    GroupsCoverTotal(p, group, m);
    GroupsWithinLimit(limit, p, group, m);
    assert p[0..|p|] == p && Span(p, 0, |p|) == Total(p);
    assert m == 0 ==> p == [] by {
      if p != [] {
        var first := group[0];
        assert first < m;
      }
    }
    if m > 0 && |g| >= 2 * m {
      PairsPassLimit(limit, g, m);
      SpanMonotone(p, 0, 0, End(g, 2 * m), |p|);
    }
  }
}
