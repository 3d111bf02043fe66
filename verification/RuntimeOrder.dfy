// The order of the topological sort, said of the ways that lead to a step: where it is first met.
module RuntimeOrders {
  import opened Graphs
  import opened RuntimeGraphs

  // A way into the graph: which of the keys, then which of its dependencies, and so on.
  type Way = seq<nat>

  predicate LeadsTo(g: Deps, ids: seq<string>, way: Way, id: string)
    decreases way
  {
    && way != [] && way[0] < |ids|
    && if |way| == 1 then ids[way[0]] == id
       else ids[way[0]] in g && LeadsTo(g, g[ids[way[0]]], way[1..], id)
  }

  // An earlier key or dependency comes sooner, and so does whatever is below a step, before the step itself.
  predicate Sooner(a: Way, b: Way) {
    a != [] && (b == [] || a[0] < b[0] || (a[0] == b[0] && Sooner(a[1..], b[1..])))
  }

  // A way to the one is sooner than every way to the other.
  ghost predicate MetBefore(g: Deps, keys: seq<string>, x: string, y: string) {
    exists a | LeadsTo(g, keys, a, x) :: forall b | LeadsTo(g, keys, b, y) :: Sooner(a, b)
  }

  /* The ways to the steps that exploration lists. */

  function Under(k: nat, ways: seq<Way>): (r: seq<Way>)
    ensures |r| == |ways|
  {
    seq(|ways|, i requires 0 <= i < |ways| => [k] + ways[i])
  }

  function WaysOf(g: Deps, id: string, path: seq<string>): (ways: seq<Way>)
    decreases |g.Keys - Elements(path)|, 1, 0
  {
    if id in path || id !in g then []
    else
      SmallerBudget(g, id, path);
      WaysOfAll(g, g[id], path + [id]) + [[]]
  }

  function WaysOfAll(g: Deps, ids: seq<string>, path: seq<string>): (ways: seq<Way>)
    decreases |g.Keys - Elements(path)|, 2, |ids|
  {
    if ids == [] then []
    else WaysOfAll(g, ids[..|ids| - 1], path) + Under(|ids| - 1, WaysOf(g, ids[|ids| - 1], path))
  }

  ghost predicate Leading(g: Deps, ids: seq<string>, ways: seq<Way>, steps: seq<string>) {
    |ways| == |steps| && forall p | 0 <= p < |ways| :: LeadsTo(g, ids, ways[p], steps[p])
  }

  ghost predicate Sorted(ways: seq<Way>) {
    forall p, q | 0 <= p < q < |ways| :: Sooner(ways[p], ways[q])
  }

  // The same for one step: the empty way stays at it.
  predicate LeadsOn(g: Deps, id: string, way: Way, to: string) {
    if way == [] then to == id else id in g && LeadsTo(g, g[id], way, to)
  }

  lemma LeadsFromAll(g: Deps, ids: seq<string>, k: nat, way: Way, to: string)
    requires k < |ids|
    ensures LeadsTo(g, ids, [k] + way, to) <==> LeadsOn(g, ids[k], way, to)
  {
    assert ([k] + way)[1..] == way;
  }

  lemma LeadsFromFront(g: Deps, ids: seq<string>, way: Way, to: string)
    requires ids != [] && way != [] && way[0] < |ids| - 1
    ensures LeadsTo(g, ids[..|ids| - 1], way, to) <==> LeadsTo(g, ids, way, to)
  {
  }

  // Step by step, the ways lead to what exploration lists.
  lemma {:induction false} WaysLead(g: Deps, id: string, path: seq<string>)
    requires Explore(g, id, path).Success?
    ensures var ways, steps := WaysOf(g, id, path), Explore(g, id, path).value;
            |ways| == |steps| && forall p | 0 <= p < |ways| :: LeadsOn(g, id, ways[p], steps[p])
    decreases |g.Keys - Elements(path)|, 1, 0
  {
    SmallerBudget(g, id, path);
    AllWaysLead(g, g[id], path + [id]);
    var below, steps := WaysOfAll(g, g[id], path + [id]), ExploreAll(g, g[id], path + [id]).value;
    forall p | 0 <= p < |below| ensures LeadsOn(g, id, below[p], steps[p]) {
      assert LeadsTo(g, g[id], below[p], steps[p]);
    }
  }

  lemma {:induction false} AllWaysLead(g: Deps, ids: seq<string>, path: seq<string>)
    requires ExploreAll(g, ids, path).Success?
    ensures Leading(g, ids, WaysOfAll(g, ids, path), ExploreAll(g, ids, path).value)
    decreases |g.Keys - Elements(path)|, 2, |ids|
  {
    if ids != [] {
      var front, last := ids[..|ids| - 1], ids[|ids| - 1];
      AllWaysLead(g, front, path);
      WaysLead(g, last, path);
      var before, after := WaysOfAll(g, front, path), WaysOf(g, last, path);
      var ways, steps := WaysOfAll(g, ids, path), ExploreAll(g, ids, path).value;
      forall p | 0 <= p < |ways| ensures LeadsTo(g, ids, ways[p], steps[p]) {
        if p < |before| {
          assert LeadsTo(g, front, before[p], ExploreAll(g, front, path).value[p]);
          LeadsFromFront(g, ids, before[p], steps[p]);
        } else {
          LeadsFromAll(g, ids, |ids| - 1, after[p - |before|], steps[p]);
        }
      }
    }
  }

  lemma {:induction false} WaysAreSorted(g: Deps, id: string, path: seq<string>)
    ensures Sorted(WaysOf(g, id, path))
    decreases |g.Keys - Elements(path)|, 1, 0
  {
    if id !in path && id in g {
      SmallerBudget(g, id, path);
      AllWaysAreSorted(g, g[id], path + [id]);
    }
  }

  lemma {:induction false} AllWaysAreSorted(g: Deps, ids: seq<string>, path: seq<string>)
    ensures Sorted(WaysOfAll(g, ids, path))
    ensures forall way | way in WaysOfAll(g, ids, path) :: way != [] && way[0] < |ids|
    decreases |g.Keys - Elements(path)|, 2, |ids|
  {
    if ids != [] {
      var front, last := ids[..|ids| - 1], ids[|ids| - 1];
      AllWaysAreSorted(g, front, path);
      WaysAreSorted(g, last, path);
      var before, after := WaysOfAll(g, front, path), WaysOf(g, last, path);
      var ways := WaysOfAll(g, ids, path);
      forall p, q | 0 <= p < q < |ways| ensures Sooner(ways[p], ways[q]) {
        if p < |before| {
          assert before[p] in before;
        } else {
          assert ways[p][1..] == after[p - |before|] && ways[q][1..] == after[q - |before|];
        }
      }
    }
  }

  // Every way is among them.
  lemma {:induction false} NoOtherWay(g: Deps, id: string, path: seq<string>, way: Way, to: string)
    requires Explore(g, id, path).Success? && LeadsOn(g, id, way, to)
    ensures way in WaysOf(g, id, path)
    decreases |g.Keys - Elements(path)|, 1, 0
  {
    if way != [] {
      SmallerBudget(g, id, path);
      NoOtherWayOfAll(g, g[id], path + [id], way, to);
    }
  }

  lemma {:induction false} NoOtherWayOfAll(g: Deps, ids: seq<string>, path: seq<string>, way: Way, to: string)
    requires ExploreAll(g, ids, path).Success? && LeadsTo(g, ids, way, to)
    ensures way in WaysOfAll(g, ids, path)
    decreases |g.Keys - Elements(path)|, 2, |ids|
  {
    var n := |ids| - 1;
    if way[0] < n {
      LeadsFromFront(g, ids, way, to);
      NoOtherWayOfAll(g, ids[..n], path, way, to);
    } else {
      assert way == [n] + way[1..];
      LeadsFromAll(g, ids, n, way[1..], to);
      NoOtherWay(g, ids[n], path, way[1..], to);
      var after := WaysOf(g, ids[n], path);
      var p :| 0 <= p < |after| && after[p] == way[1..];
      assert Under(n, after)[p] == way;
    }
  }

  /* First occurrences. */

  // x is listed for the first time at p.
  ghost predicate FirstAt(ids: seq<string>, x: string, p: nat) {
    p < |ids| && ids[p] == x && forall k | 0 <= k < p :: ids[k] != x
  }

  lemma {:induction false} FirstOccurrencesInOrder(ids: seq<string>) returns (at: seq<nat>)
    ensures var r := FirstOccurrences(ids);
            && |at| == |r| && (forall k | 0 <= k < |r| :: FirstAt(ids, r[k], at[k]))
            && forall j, k | 0 <= j < k < |r| :: at[j] < at[k]
    ensures forall x | x in ids :: x in FirstOccurrences(ids)
  {
    if ids == [] {
      at := [];
    } else {
      var n := |ids| - 1;
      var front := ids[..n];
      at := FirstOccurrencesInOrder(front);
      var r := FirstOccurrences(front);
      forall k | 0 <= k < |r| ensures FirstAt(ids, r[k], at[k]) && at[k] < n {
        assert FirstAt(front, r[k], at[k]);
        forall m | 0 <= m <= at[k] ensures ids[m] == front[m] {}
      }
      forall x | x in ids && x != ids[n] ensures x in r {
        var m :| 0 <= m < |ids| && ids[m] == x;
        assert front[m] == x;
      }
      if ids[n] !in r {
        forall m | 0 <= m < n ensures ids[m] != ids[n] {
          assert front[m] in front;
        }
        at := at + [n];
      }
    }
  }

  lemma {:induction false} LeadsToOne(g: Deps, ids: seq<string>, way: Way, x: string, y: string)
    requires LeadsTo(g, ids, way, x) && LeadsTo(g, ids, way, y)
    ensures x == y
    decreases way
  {
    if |way| > 1 {
      LeadsToOne(g, g[ids[way[0]]], way[1..], x, y);
    }
  }

  lemma {:induction false} SoonerOneWay(a: Way, b: Way)
    requires Sooner(a, b)
    ensures !Sooner(b, a)
  {
    if b != [] && a[0] == b[0] {
      SoonerOneWay(a[1..], b[1..]);
    }
  }

  lemma FirstWayIsSooner(g: Deps, keys: seq<string>, ways: seq<Way>, steps: seq<string>, x: string, y: string,
          p: nat, q: nat)
    requires Leading(g, keys, ways, steps) && Sorted(ways)
    requires forall b | LeadsTo(g, keys, b, y) :: b in ways
    requires FirstAt(steps, x, p) && FirstAt(steps, y, q) && p < q
    ensures MetBefore(g, keys, x, y)
  {
    assert LeadsTo(g, keys, ways[p], x);
    forall b | LeadsTo(g, keys, b, y) ensures Sooner(ways[p], b) {
      var k :| 0 <= k < |ways| && ways[k] == b;
      LeadsToOne(g, keys, b, y, steps[k]);
      assert q <= k;
    }
  }

  lemma EarlierIsMetBefore(g: Deps, keys: seq<string>, i: nat, j: nat)
    requires ExploreAll(g, keys, []).Success?
    requires i < j < |FirstOccurrences(ExploreAll(g, keys, []).value)|
    ensures var order := FirstOccurrences(ExploreAll(g, keys, []).value);
            MetBefore(g, keys, order[i], order[j])
  {
    var steps := ExploreAll(g, keys, []).value;
    var order, ways := FirstOccurrences(steps), WaysOfAll(g, keys, []);
    var at := FirstOccurrencesInOrder(steps);
    AllWaysLead(g, keys, []);
    AllWaysAreSorted(g, keys, []);
    forall b | LeadsTo(g, keys, b, order[j]) ensures b in ways {
      NoOtherWayOfAll(g, keys, [], b, order[j]);
    }
    FirstWayIsSooner(g, keys, ways, steps, order[i], order[j], at[i], at[j]);
  }

  lemma MetBeforeOneWay(g: Deps, keys: seq<string>, x: string, y: string)
    requires MetBefore(g, keys, x, y)
    ensures x != y && !MetBefore(g, keys, y, x)
  {
    var a :| LeadsTo(g, keys, a, x) && forall b | LeadsTo(g, keys, b, y) :: Sooner(a, b);
    if x == y {
      SoonerOneWay(a, a);
    }
    if MetBefore(g, keys, y, x) {
      var b :| LeadsTo(g, keys, b, y) && forall c | LeadsTo(g, keys, c, x) :: Sooner(b, c);
      SoonerOneWay(a, b);
    }
  }

  // The order is by first way: a step comes before another exactly if a way to it is sooner than every way to
  // the other.
  lemma OrderIsByFirstWay(g: Deps, keys: seq<string>, i: nat, j: nat)
    requires ExploreAll(g, keys, []).Success?
    requires var order := FirstOccurrences(ExploreAll(g, keys, []).value);
             i < |order| && j < |order|
    ensures var order := FirstOccurrences(ExploreAll(g, keys, []).value);
            i < j <==> MetBefore(g, keys, order[i], order[j])
  {
    var order := FirstOccurrences(ExploreAll(g, keys, []).value);
    if i < j {
      EarlierIsMetBefore(g, keys, i, j);
    } else {
      if j < i {
        EarlierIsMetBefore(g, keys, j, i);
        MetBeforeOneWay(g, keys, order[j], order[i]);
      }
      if MetBefore(g, keys, order[i], order[j]) {
        MetBeforeOneWay(g, keys, order[i], order[j]);
      }
    }
  }

  lemma NextKeyStays(g: Deps, keys: seq<string>, k: nat)
    requires NoDuplicates(keys) && DependenciesFirst(g, keys) && k < |keys| && forall x | x in keys :: x in g
    ensures Explore(g, keys[k], []).Success?
    ensures AppendNew(keys[..k], Explore(g, keys[k], []).value) == keys[..k + 1]
  {
    var id := keys[k];
    forall d | d in g[id] ensures d in keys[..k] {
      assert Edge(g, keys[k], d);
    }
    SmallerBudget(g, id, []);
    FinishedAllExploreCleanly(g, keys, k, g[id], [] + [id]);
    var below := ExploreAll(g, g[id], [] + [id]).value;
    AppendNewNothing(keys[..k], below);
    assert (below + [id])[..|below|] == below;
    assert keys[..k + 1] == keys[..k] + [id];
  }

  lemma {:induction false} FirstKeysStay(g: Deps, keys: seq<string>, k: nat)
    requires NoDuplicates(keys) && DependenciesFirst(g, keys) && k <= |keys| && forall x | x in keys :: x in g
    ensures ExploreAll(g, keys[..k], []).Success?
    ensures FirstOccurrences(ExploreAll(g, keys[..k], []).value) == keys[..k]
  {
    if k > 0 {
      FirstKeysStay(g, keys, k - 1);
      NextKeyStays(g, keys, k - 1);
      assert keys[..k][..k - 1] == keys[..k - 1];
      AppendNewConcat([], ExploreAll(g, keys[..k - 1], []).value, Explore(g, keys[k - 1], []).value);
    }
  }

  // Keys that come with their dependencies first stay as they are.
  lemma KeysInOrderStay(g: Deps, keys: seq<string>)
    requires NoDuplicates(keys) && DependenciesFirst(g, keys) && forall x | x in keys :: x in g
    ensures ExploreAll(g, keys, []).Success? && FirstOccurrences(ExploreAll(g, keys, []).value) == keys
  {
    FirstKeysStay(g, keys, |keys|);
    assert keys[..|keys|] == keys;
  }
}
