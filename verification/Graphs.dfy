// Walks and cycles in a dependency graph, shared by the step graph and the goal loop.
module Graphs {
  // The ids each registered id depends on. An id may be depended on without being registered.
  type Deps = map<string, seq<string>>

  predicate Edge(g: Deps, a: string, b: string) {
    a in g && b in g[a]
  }

  ghost predicate IsWalk(g: Deps, w: seq<string>) {
    |w| >= 1 && forall i | 0 <= i < |w| - 1 :: Edge(g, w[i], w[i + 1])
  }

  // A non-empty dependency path from an id back to itself.
  ghost predicate IsCycle(g: Deps, w: seq<string>) {
    IsWalk(g, w) && |w| >= 2 && w[0] == w[|w| - 1]
  }

  ghost predicate Acyclic(g: Deps) {
    forall w :: !IsCycle(g, w)
  }

  ghost predicate Closed(g: Deps) {
    forall a, b | Edge(g, a, b) :: b in g
  }

  ghost predicate NoDuplicates(s: seq<string>) {
    forall i, j | 0 <= i < j < |s| :: s[i] != s[j]
  }

  function Elements(s: seq<string>): set<string> {
    set x | x in s
  }

  // Every dependency of a listed id is listed at a strictly smaller index.
  ghost predicate DependenciesFirst(g: Deps, order: seq<string>) {
    forall i, b | 0 <= i < |order| && Edge(g, order[i], b) :: b in order[..i]
  }

  lemma DistinctCount(s: seq<string>)
    requires NoDuplicates(s)
    ensures |Elements(s)| == |s|
  {
    if s == [] {
    } else {
      var front, last := s[..|s| - 1], s[|s| - 1];
      DistinctCount(front);
      assert Elements(s) == Elements(front) + {last};
    }
  }

  lemma SubsetCount(a: set<string>, b: set<string>)
    requires a <= b
    ensures |a| <= |b|
    ensures |a| == |b| ==> a == b
  {
    assert b == a + (b - a);
    assert |b| == |a| + |b - a|;
  }

  // A walk along edges moves to strictly smaller indices, so an order excludes cycles.
  lemma {:induction false} WalkDescends(g: Deps, order: seq<string>, w: seq<string>, i: nat)
    requires DependenciesFirst(g, order) && IsWalk(g, w)
    requires i < |order| && order[i] == w[0]
    ensures |w| >= 2 ==> w[|w| - 1] in order[..i]
    decreases |w|
  {
    if |w| >= 2 {
      assert Edge(g, w[0], w[1]);
      var j :| 0 <= j < i && order[j] == w[1];
      assert IsWalk(g, w[1..]) by {
        forall k | 0 <= k < |w[1..]| - 1 ensures Edge(g, w[1..][k], w[1..][k + 1]) {
          assert Edge(g, w[k + 1], w[k + 2]);
        }
      }
      WalkDescends(g, order, w[1..], j);
      if |w| > 2 {
        assert w[|w| - 1] in order[..j];
        var k :| 0 <= k < j && order[k] == w[|w| - 1];
        assert order[..i][k] == w[|w| - 1];
      } else {
        assert order[..i][j] == w[1];
      }
    }
  }

  lemma OrderExcludesCycles(g: Deps, order: seq<string>)
    requires DependenciesFirst(g, order) && NoDuplicates(order)
    requires g.Keys <= Elements(order)
    ensures Acyclic(g)
  {
    forall w | IsCycle(g, w) ensures false {
      assert Edge(g, w[0], w[1]);
      var i :| 0 <= i < |order| && order[i] == w[0];
      WalkDescends(g, order, w, i);
    }
  }

  lemma RepeatedId(s: seq<string>, u: set<string>) returns (i: nat, j: nat)
    requires |s| > |u| && Elements(s) <= u
    ensures i < j < |s| && s[i] == s[j]
  {
    if NoDuplicates(s) {
      DistinctCount(s);
      SubsetCount(Elements(s), u);
    }
    i, j :| 0 <= i < j < |s| && s[i] == s[j];
  }

  ghost predicate WaitsWithin(g: Deps, a: string, u: set<string>) {
    exists b :: b in u && Edge(g, a, b)
  }

  // Nothing in u can start before something else in u.
  ghost predicate Blocked(g: Deps, u: set<string>) {
    forall a | a in u :: WaitsWithin(g, a, u)
  }

  lemma {:induction false} LongWalk(g: Deps, u: set<string>, n: nat) returns (w: seq<string>)
    requires u != {}
    requires Blocked(g, u)
    ensures IsWalk(g, w) && |w| == n + 1 && Elements(w) <= u
  {
    if n == 0 {
      var a :| a in u;
      w := [a];
    } else {
      var v := LongWalk(g, u, n - 1);
      assert v[|v| - 1] in u && WaitsWithin(g, v[|v| - 1], u);
      var b :| b in u && Edge(g, v[|v| - 1], b);
      w := v + [b];
    }
  }

  // A walk that comes back to an id holds a cycle.
  lemma RepetitionIsCycle(g: Deps, w: seq<string>, i: nat, j: nat)
    requires IsWalk(g, w) && i < j < |w| && w[i] == w[j]
    ensures IsCycle(g, w[i..j + 1]) && Elements(w[i..j + 1]) <= Elements(w)
  {
    var c := w[i..j + 1];
    forall k | 0 <= k < |c| - 1 ensures Edge(g, c[k], c[k + 1]) {
      assert Edge(g, w[i + k], w[i + k + 1]);
    }
    forall x | x in c ensures x in Elements(w) {
      assert x in w;
    }
  }

  // Where nothing in a finite set can start first, the set holds a dependency cycle.
  lemma BlockedSetHasCycle(g: Deps, u: set<string>) returns (c: seq<string>)
    requires u != {}
    requires Blocked(g, u)
    ensures IsCycle(g, c) && Elements(c) <= u
  {
    var w := LongWalk(g, u, |u|);
    var i, j := RepeatedId(w, u);
    RepetitionIsCycle(g, w, i, j);
    c := w[i..j + 1];
  }

  // Without cycles, a walk through registered ids visits each at most once.
  lemma AcyclicWalksAreShort(g: Deps, w: seq<string>)
    requires Acyclic(g) && IsWalk(g, w) && Elements(w) <= g.Keys
    ensures |w| <= |g.Keys|
  {
    if |w| > |g.Keys| {
      var i, j := RepeatedId(w, g.Keys);
      RepetitionIsCycle(g, w, i, j);
    }
  }

  lemma ClosedWalksAreRegistered(g: Deps, w: seq<string>)
    requires Closed(g) && IsWalk(g, w) && w[0] in g
    ensures Elements(w) <= g.Keys
  {
    forall k | 0 <= k < |w| ensures w[k] in g {
      if k > 0 {
        assert Edge(g, w[k - 1], w[k - 1 + 1]);
      }
    }
  }
}
