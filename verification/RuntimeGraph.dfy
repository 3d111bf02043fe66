// The step graph of packages/agent-runtime: a depth-first topological sort, proved to compute
// what a naive exploration of the dependency tree computes, errors included.
module RuntimeGraphs {
  import opened Wrappers
  import opened Graphs

  datatype RuntimeStep = RuntimeStep(id: string, description: string, dependsOn: seq<string>)

  datatype RuntimeError = CycleDetected | MissingStep(id: string)

  function DepsOf(steps: map<string, RuntimeStep>): Deps {
    map id | id in steps :: steps[id].dependsOn
  }

  /* The naive exploration: no memory of finished steps, only the path of unfinished ones.
     It lists every step below id, dependencies before dependents, with repetitions. */

  function Explore(g: Deps, id: string, path: seq<string>): (r: Result<seq<string>, RuntimeError>)
    decreases |g.Keys - Elements(path)|, 1, 0
  {
    if id in path then Failure(CycleDetected)
    else if id !in g then Failure(MissingStep(id))
    else
      SmallerBudget(g, id, path);
      match ExploreAll(g, g[id], path + [id])
      case Failure(e) => Failure(e)
      case Success(below) => Success(below + [id])
  }

  function ExploreAll(g: Deps, ids: seq<string>, path: seq<string>): (r: Result<seq<string>, RuntimeError>)
    decreases |g.Keys - Elements(path)|, 2, |ids|
  {
    if ids == [] then Success([])
    else
      match ExploreAll(g, ids[..|ids| - 1], path)
      case Failure(e) => Failure(e)
      case Success(before) =>
        match Explore(g, ids[|ids| - 1], path)
        case Failure(e) => Failure(e)
        case Success(last) => Success(before + last)
  }

  lemma SmallerBudget(g: Deps, id: string, path: seq<string>)
    requires id in g && id !in path
    ensures |g.Keys - Elements(path + [id])| < |g.Keys - Elements(path)|
  {
    var rest := g.Keys - Elements(path);
    assert g.Keys - Elements(path + [id]) == rest - {id};
  }

  // Appends the ids that are not there yet, in order of first occurrence.
  function AppendNew(out: seq<string>, ids: seq<string>): (r: seq<string>)
    decreases |ids|
  {
    if ids == [] then out
    else
      var r := AppendNew(out, ids[..|ids| - 1]);
      if ids[|ids| - 1] in r then r else r + [ids[|ids| - 1]]
  }

  function FirstOccurrences(ids: seq<string>): seq<string> {
    AppendNew([], ids)
  }

  lemma {:induction false} AppendNewConcat(out: seq<string>, a: seq<string>, b: seq<string>)
    ensures AppendNew(out, a + b) == AppendNew(AppendNew(out, a), b)
    decreases |b|
  {
    if b == [] {
      assert a + b == a;
    } else {
      assert (a + b)[..|a + b| - 1] == a + b[..|b| - 1];
      AppendNewConcat(out, a, b[..|b| - 1]);
    }
  }

  lemma {:induction false} AppendNewNothing(out: seq<string>, ids: seq<string>)
    requires forall x | x in ids :: x in out
    ensures AppendNew(out, ids) == out
    decreases |ids|
  {
    if ids != [] {
      AppendNewNothing(out, ids[..|ids| - 1]);
      assert ids[|ids| - 1] in ids;
    }
  }

  // The first failing dependency decides, whatever follows it.
  lemma {:induction false} ExploreAllPrefix(g: Deps, ids: seq<string>, i: nat, path: seq<string>)
    requires i <= |ids|
    ensures ExploreAll(g, ids[..i], path).Failure? ==> ExploreAll(g, ids, path) == ExploreAll(g, ids[..i], path)
    decreases |ids|
  {
    if i == |ids| {
      assert ids[..i] == ids;
    } else {
      var front := ids[..|ids| - 1];
      ExploreAllPrefix(g, front, i, path);
      assert front[..i] == ids[..i];
    }
  }

  lemma {:induction false} WalkOntoPath(g: Deps, path: seq<string>, id: string)
    requires IsWalk(g, path + [id]) && id in path
    ensures exists c :: IsCycle(g, c) && c[0] == id
  {
    var i :| 0 <= i < |path| && path[i] == id;
    var w := path + [id];
    var c := w[i..];
    forall k | 0 <= k < |c| - 1 ensures Edge(g, c[k], c[k + 1]) {
      assert Edge(g, w[i + k], w[i + k + 1]);
    }
    assert IsCycle(g, c);
  }

  ghost predicate Genuine(g: Deps, roots: set<string>, e: RuntimeError) {
    match e
    case CycleDetected => exists c :: IsCycle(g, c)
    case MissingStep(id) => id !in g && (id in roots || exists a :: Edge(g, a, id))
  }

  // cycle_detected is raised only on a real dependency cycle, missing_step only on an
  // unregistered id that something depends on.
  lemma {:induction false} ExploreErrorsAreGenuine(g: Deps, id: string, path: seq<string>)
    requires IsWalk(g, path + [id])
    ensures Explore(g, id, path).Failure? ==> Genuine(g, if path == [] then {id} else {}, Explore(g, id, path).error)
    decreases |g.Keys - Elements(path)|, 1, 0
  {
    if id in path {
      WalkOntoPath(g, path, id);
    } else if id !in g {
      if path != [] {
        assert Edge(g, (path + [id])[|path| - 1], (path + [id])[|path|]);
      }
    } else {
      SmallerBudget(g, id, path);
      forall d | d in g[id] ensures IsWalk(g, path + [id] + [d]) {
        var w, v := path + [id] + [d], path + [id];
        forall k | 0 <= k < |w| - 1 ensures Edge(g, w[k], w[k + 1]) {
          if k < |v| - 1 {
            assert Edge(g, v[k], v[k + 1]);
          }
        }
      }
      ExploreAllErrorsAreGenuine(g, g[id], path + [id]);
    }
  }

  lemma {:induction false} ExploreAllErrorsAreGenuine(g: Deps, ids: seq<string>, path: seq<string>)
    requires forall d | d in ids :: IsWalk(g, path + [d])
    ensures ExploreAll(g, ids, path).Failure? ==>
              Genuine(g, if path == [] then Elements(ids) else {}, ExploreAll(g, ids, path).error)
    decreases |g.Keys - Elements(path)|, 2, |ids|
  {
    if ids != [] {
      ExploreAllErrorsAreGenuine(g, ids[..|ids| - 1], path);
      assert ids[|ids| - 1] in ids;
      ExploreErrorsAreGenuine(g, ids[|ids| - 1], path);
    }
  }

  // A finished prefix of an order is explored again without error and adds nothing to it.
  lemma {:induction false} FinishedExploresCleanly(g: Deps, order: seq<string>, k: nat, path: seq<string>)
    requires NoDuplicates(order) && DependenciesFirst(g, order) && k < |order|
    requires forall x | x in order :: x in g
    requires forall x | x in path :: x !in order[..k + 1]
    ensures Explore(g, order[k], path).Success?
    ensures forall x | x in Explore(g, order[k], path).value :: x in order[..k + 1]
    decreases k, 1, 0
  {
    var id := order[k];
    assert id in order[..k + 1];
    forall d | d in g[id] ensures d in order[..k] {
      assert Edge(g, order[k], d);
    }
    forall x | x in path + [id] ensures x !in order[..k] {
      forall i | 0 <= i < k ensures order[i] != x {
        assert order[..k + 1][i] == order[i];
      }
    }
    SmallerBudget(g, id, path);
    FinishedAllExploreCleanly(g, order, k, g[id], path + [id]);
  }

  lemma {:induction false} FinishedAllExploreCleanly(g: Deps, order: seq<string>, k: nat, ids: seq<string>,
          path: seq<string>)
    requires NoDuplicates(order) && DependenciesFirst(g, order) && k <= |order|
    requires forall x | x in order :: x in g
    requires forall x | x in ids :: x in order[..k]
    requires forall x | x in path :: x !in order[..k]
    ensures ExploreAll(g, ids, path).Success?
    ensures forall x | x in ExploreAll(g, ids, path).value :: x in order[..k]
    decreases k, 0, |ids|
  {
    if ids != [] {
      var last := ids[|ids| - 1];
      assert last in ids;
      var j :| 0 <= j < k && order[j] == last;
      forall x | x in order[..j + 1] ensures x in order[..k] {
        var i :| 0 <= i < j + 1 && order[i] == x;
        assert order[..k][i] == x;
      }
      FinishedExploresCleanly(g, order, j, path);
      FinishedAllExploreCleanly(g, order, k, ids[..|ids| - 1], path);
    }
  }

  ghost predicate AllIn(ids: seq<string>, s: set<string>) {
    forall x | x in ids :: x in s
  }

  lemma AllInGrows(ids: seq<string>, s: set<string>, longer: seq<string>, t: set<string>)
    requires AllIn(ids, s) && s <= t
    requires |longer| == |ids| + 1 && longer[..|ids|] == ids && longer[|ids|] in t
    ensures AllIn(longer, t)
  {
    assert longer == ids + [longer[|ids|]];
  }

  lemma IdsAppend(steps: seq<RuntimeStep>, step: RuntimeStep)
    ensures Ids(steps + [step]) == Ids(steps) + [step.id]
  {
  }

  function Ids(steps: seq<RuntimeStep>): seq<string> {
    seq(|steps|, i requires 0 <= i < |steps| => steps[i].id)
  }

  // Output is an order of the visited steps, each registered, dependencies first.
  ghost predicate GoodState(steps: map<string, RuntimeStep>, visited: set<string>, visiting: set<string>,
                            output: seq<RuntimeStep>)
  {
    && NoDuplicates(Ids(output))
    && Elements(Ids(output)) == visited
    && visited !! visiting
    && DependenciesFirst(DepsOf(steps), Ids(output))
    && (forall s | s in output :: s.id in steps && steps[s.id] == s)
  }

  // The sets and the array that the recursive closure shares.
  class Traversal {
    const steps: map<string, RuntimeStep>
    var visited: set<string>
    var visiting: set<string>
    var output: seq<RuntimeStep>

    ghost predicate Valid()
      reads this
    {
      GoodState(steps, visited, visiting, output)
    }

    constructor (steps: map<string, RuntimeStep>)
      ensures this.steps == steps && visited == {} && visiting == {} && output == []
      ensures Valid()
    {
      this.steps := steps;
      visited, visiting, output := {}, {}, [];
    }

    // What a call must do that naive exploration would answer with naive, started with the
    // given output and sets.
    ghost predicate Answers(naive: Result<seq<string>, RuntimeError>, err: Option<RuntimeError>,
                            output0: seq<RuntimeStep>, visited0: set<string>, visiting0: set<string>)
      reads this
    {
      match naive
      case Failure(e) => err == Some(e)
      case Success(below) =>
        && err == None
        && Ids(output) == AppendNew(Ids(output0), below)
        && visited0 <= visited && visiting == visiting0
        && Valid()
    }

    // One dfs call. The ghost path lists the steps being visited, outermost first.
    method Dfs(id: string, ghost path: seq<string>) returns (err: Option<RuntimeError>)
      requires Valid() && visiting == Elements(path)
      requires forall k | k in steps :: steps[k].id == k
      modifies this
      ensures Answers(Explore(DepsOf(steps), id, path), err, old(output), old(visited), old(visiting))
      ensures err == None ==> id in visited
      decreases |steps.Keys - visiting|, 0
    {
      if id in visiting {
        return Some(CycleDetected);
      }
      if id in visited {
        VisitedIsSkipped(steps, visited, output, id, path);
        return None;
      }
      if id !in steps {
        return Some(MissingStep(id));
      }
      var step := steps[id];
      SmallerBudget(DepsOf(steps), id, path);
      assert DepsOf(steps).Keys == steps.Keys && Elements(path + [id]) == visiting + {id};
      ghost var before := Ids(output);
      visiting := visiting + {id};
      err := DfsEach(step.dependsOn, path + [id]);
      if err.Some? {
        return;
      }
      Leave(step, before, ExploreAll(DepsOf(steps), step.dependsOn, path + [id]).value);
    }

    // The step is left: it is visited, and it comes after its dependencies in the output.
    method Leave(step: RuntimeStep, ghost before: seq<string>, ghost below: seq<string>)
      requires Valid() && step.id in visiting && step.id in steps && steps[step.id] == step
      requires AllIn(step.dependsOn, visited) && Ids(output) == AppendNew(before, below)
      modifies this
      ensures Valid()
      ensures visiting == old(visiting) - {step.id} && visited == old(visited) + {step.id}
      ensures Ids(output) == AppendNew(before, below + [step.id])
    {
      FinishStep(steps, visited, visiting, output, step.id, before, below);
      visiting := visiting - {step.id};
      visited := visited + {step.id};
      output := output + [step];
    }

    // A loop of dfs calls: over the dependencies of a step, or over all the keys.
    method DfsEach(ids: seq<string>, ghost path: seq<string>) returns (err: Option<RuntimeError>)
      requires Valid() && visiting == Elements(path)
      requires forall k | k in steps :: steps[k].id == k
      modifies this
      ensures Answers(ExploreAll(DepsOf(steps), ids, path), err, old(output), old(visited), old(visiting))
      ensures err == None ==> AllIn(ids, visited)
      decreases |steps.Keys - visiting|, 1
    {
      ghost var g := DepsOf(steps);
      ghost var before := Ids(output);
      var i := 0;
      while i < |ids|
        invariant 0 <= i <= |ids|
        invariant Valid() && visiting == Elements(path)
        invariant old(visited) <= visited && AllIn(ids[..i], visited)
        invariant ExploreAll(g, ids[..i], path).Success?
        invariant Ids(output) == AppendNew(before, ExploreAll(g, ids[..i], path).value)
      {
        assert ids[..i + 1][..i] == ids[..i];
        ExploreAllPrefix(g, ids, i + 1, path);
        ghost var seen := visited;
        err := Dfs(ids[i], path);
        if err.Some? {
          return;
        }
        AllInGrows(ids[..i], seen, ids[..i + 1], visited);
        AppendNewConcat(before, ExploreAll(g, ids[..i], path).value, Explore(g, ids[i], path).value);
        i := i + 1;
      }
      assert ids[..i] == ids;
      return None;
    }
  }

  // Meeting a finished step again changes nothing, exactly as naive exploration then dropping
  // repetitions would have it.
  lemma VisitedIsSkipped(steps: map<string, RuntimeStep>, visited: set<string>, output: seq<RuntimeStep>,
                         id: string, path: seq<string>)
    requires GoodState(steps, visited, Elements(path), output) && id in visited
    ensures Explore(DepsOf(steps), id, path).Success?
    ensures AppendNew(Ids(output), Explore(DepsOf(steps), id, path).value) == Ids(output)
  {
    var g, order := DepsOf(steps), Ids(output);
    assert id in order;
    var k :| 0 <= k < |order| && order[k] == id;
    forall x | x in order ensures x in g {
      var i :| 0 <= i < |order| && order[i] == x;
      assert output[i] in output;
    }
    forall x | x in path ensures x !in order {
      assert x in Elements(path) && x !in visited;
    }
    FinishedExploresCleanly(g, order, k, path);
    AppendNewNothing(order, Explore(g, id, path).value);
  }

  // A step whose dependencies are all visited may be appended.
  lemma FinishStep(steps: map<string, RuntimeStep>, visited: set<string>, visiting: set<string>,
                   output: seq<RuntimeStep>, id: string, before: seq<string>, below: seq<string>)
    requires GoodState(steps, visited, visiting, output)
    requires id in steps && steps[id].id == id && id in visiting
    requires AllIn(steps[id].dependsOn, visited)
    requires Ids(output) == AppendNew(before, below)
    ensures GoodState(steps, visited + {id}, visiting - {id}, output + [steps[id]])
    ensures Ids(output + [steps[id]]) == AppendNew(before, below + [id])
  {
    var g, order, longer := DepsOf(steps), Ids(output), Ids(output + [steps[id]]);
    IdsAppend(output, steps[id]);
    assert id !in Elements(order);
    assert (below + [id])[..|below|] == below;
    assert Elements(longer) == visited + {id};
    forall i, b | 0 <= i < |longer| && Edge(g, longer[i], b) ensures b in longer[..i] {
      if i < |order| {
        assert Edge(g, order[i], b);
        assert longer[..i] == order[..i];
      } else {
        assert b in Elements(order);
        assert longer[..i] == order;
      }
    }
  }

  class RuntimeGraph {
    // A JavaScript Map: the keys in insertion order and the value of each.
    var keys: seq<string>
    var steps: map<string, RuntimeStep>

    ghost predicate Valid()
      reads this
    {
      && NoDuplicates(keys)
      && Elements(keys) == steps.Keys
      && forall id | id in steps :: steps[id].id == id
    }

    constructor ()
      ensures Valid() && keys == [] && steps == map[]
    {
      keys, steps := [], map[];
    }

    // Registering an id again replaces its step and keeps its place.
    method AddStep(step: RuntimeStep)
      requires Valid()
      modifies this
      ensures Valid()
      ensures steps == old(steps)[step.id := step]
      ensures keys == if step.id in old(steps) then old(keys) else old(keys) + [step.id]
    {
      if step.id !in steps {
        assert step.id !in Elements(keys);
        keys := keys + [step.id];
      }
      steps := steps[step.id := step];
    }

    // The sort answers what naive exploration answers, each step kept at its first occurrence.
    method TopologicalOrder() returns (r: Result<seq<RuntimeStep>, RuntimeError>)
      requires Valid()
      ensures var naive := ExploreAll(DepsOf(steps), keys, []);
              match naive
              case Failure(e) => r == Failure(e)
              case Success(all) =>
                && r.Success?
                && Ids(r.value) == FirstOccurrences(all)
                && forall s | s in r.value :: s.id in steps && steps[s.id] == s
      ensures r.Success? <==> Closed(DepsOf(steps)) && Acyclic(DepsOf(steps))
      ensures r.Success? ==>
                && NoDuplicates(Ids(r.value)) && Elements(Ids(r.value)) == steps.Keys
                && DependenciesFirst(DepsOf(steps), Ids(r.value))
      ensures r.Failure? ==> Genuine(DepsOf(steps), {}, r.error)
    {
      var t := new Traversal(steps);
      assert Elements([]) == {} && Ids([]) == [];
      var err := t.DfsEach(keys, []);
      if err.Some? {
        FailureMeansBadGraph(DepsOf(steps), keys, err.value);
        return Failure(err.value);
      }
      OrderMeansGoodGraph(DepsOf(steps), Ids(t.output));
      return Success(t.output);
    }
  }

  // An error of the whole exploration is genuine and shows the graph open or cyclic.
  lemma FailureMeansBadGraph(g: Deps, keys: seq<string>, e: RuntimeError)
    requires Elements(keys) == g.Keys
    requires ExploreAll(g, keys, []) == Failure(e)
    ensures Genuine(g, {}, e)
    ensures !(Closed(g) && Acyclic(g))
  {
    ExploreAllErrorsAreGenuine(g, keys, []);
    match e
    case CycleDetected =>
    case MissingStep(id) =>
      assert id !in Elements(keys);
      var a :| Edge(g, a, id);
  }

  lemma OrderMeansGoodGraph(g: Deps, order: seq<string>)
    requires NoDuplicates(order) && DependenciesFirst(g, order)
    requires Elements(order) == g.Keys
    ensures Closed(g) && Acyclic(g)
  {
    OrderExcludesCycles(g, order);
    forall a, b | Edge(g, a, b) ensures b in g {
      assert a in Elements(order);
      var i :| 0 <= i < |order| && order[i] == a;
      assert b in order[..i];
      assert b in Elements(order);
    }
  }
}
