/** The per-root cycle search inside `analyze_lock_dependency_graph`: each root starts afresh and
    stops at its first cycle. */
module RootCycles {
  import opened Graphs
  import opened CycleCollector

  ghost predicate Settled(q: Graph<nat>, visited: set<nat>, inStack: set<nat>, path: seq<nat>, finished: seq<nat>) {
    && inStack == Elems(path) && SimplePath(q, path) && inStack <= visited
    && Elems(finished) == visited - inStack && Topological(q, finished)
  }

  /** `c` is the part of the path from the target of a back edge on. */
  ghost predicate ClosesPath(q: Graph<nat>, path: seq<nat>, c: seq<nat>) {
    SimplePath(q, path) && exists a :: 0 <= a < |path| && c == path[a..] && path[a] in Succ(q, path[|path| - 1])
  }

  lemma SuffixIsCycle(q: Graph<nat>, path: seq<nat>, a: nat)
    requires SimplePath(q, path) && a < |path| && path[a] in Succ(q, path[|path| - 1])
    ensures SimpleCycle(q, path[a..])
  {
    var c := path[a..];
    assert forall i :: 0 <= i < |c| ==> c[i] == path[a + i];
    forall i | 0 <= i < |c| - 1 ensures c[i + 1] in Succ(q, c[i]) {
      assert path[a + i + 1] in Succ(q, path[a + i]);
    }
  }

  lemma ClosesPathReaches(q: Graph<nat>, path: seq<nat>, c: seq<nat>)
    requires ClosesPath(q, path, c)
    ensures SimpleCycle(q, c) && Reaches(q, path[0], c[0])
  {
    var a :| 0 <= a < |path| && c == path[a..] && path[a] in Succ(q, path[|path| - 1]);
    SuffixIsCycle(q, path, a);
    var w := path[0..a + 1];
    SliceWalk(q, path, 0, a + 1);
    assert w[0] == path[0] && w[|w| - 1] == path[a];
    assert WalkFromTo(q, w, path[0], c[0]);
  }

  lemma PathPush(q: Graph<nat>, path: seq<nat>, x: nat)
    requires SimplePath(q, path) && x !in path
    requires path != [] ==> x in Succ(q, path[|path| - 1])
    ensures SimplePath(q, path + [x]) && Elems(path + [x]) == Elems(path) + {x}
  {}

  class RootSearch {
    var visited: set<nat>
    var inStack: set<nat>
    var path: seq<nat>
    var groupCycles: seq<seq<nat>>
    ghost var finished: seq<nat>

    constructor ()
      ensures groupCycles == []
    {
      visited, inStack, path, groupCycles, finished := {}, {}, [], [], [];
    }

    /** The lambda `dfs`; on success the path is left as it is. */
    method Dfs(graph: Graph<nat>, current: nat) returns (found: bool)
      requires Settled(graph, visited, inStack, path, finished)
      requires current in Vertices(graph) && current !in visited
      requires path != [] ==> current in Succ(graph, path[|path| - 1])
      modifies this
      ensures found ==> old(path) + [current] <= path
      ensures found ==> |groupCycles| == |old(groupCycles)| + 1 && old(groupCycles) <= groupCycles
      ensures found ==> ClosesPath(graph, path, groupCycles[|groupCycles| - 1])
      ensures !found ==> Settled(graph, visited, inStack, path, finished)
      ensures !found ==> path == old(path) && inStack == old(inStack) && groupCycles == old(groupCycles)
      ensures !found ==> old(visited) + {current} <= visited
      decreases Vertices(graph) - visited
    {
      InElems(path, current);
      PathPush(graph, path, current);
      visited := visited + {current};
      inStack := inStack + {current};
      path := path + [current];
      var todo := Succ(graph, current);
      while todo != {}
        invariant Settled(graph, visited, inStack, path, finished)
        invariant path == old(path) + [current] && inStack == old(inStack) + {current}
        invariant old(visited) + {current} <= visited && groupCycles == old(groupCycles)
        invariant todo <= Succ(graph, current) && Succ(graph, current) - todo <= visited - inStack
        decreases todo
      {
        var neighbor :| neighbor in todo;
        if neighbor !in visited {
          found := Dfs(graph, neighbor);
          if found { return true; }
        } else if neighbor in inStack {
          InElems(path, neighbor);
          var start := IndexOf(path, neighbor);
          if start < |path| {
            groupCycles := groupCycles + [path[start..]];
            return true;
          }
        }
        assert Succ(graph, current) - (todo - {neighbor}) == Succ(graph, current) - todo + {neighbor};
        todo := todo - {neighbor};
      }
      Finish(graph, old(path), current);
      inStack := inStack - {current};
      path := path[..|path| - 1];
      finished := finished + [current];
      found := false;
    }

    lemma Finish(graph: Graph<nat>, path0: seq<nat>, current: nat)
      requires Settled(graph, visited, inStack, path, finished) && path == path0 + [current]
      requires Succ(graph, current) <= visited - inStack
      ensures Settled(graph, visited, inStack - {current}, path0, finished + [current])
    {
      assert path0 == path[..|path0|];
      assert current in Elems(path);
      InElems(path0, current);
      InElems(finished, current);
      assert Elems(path) == Elems(path0) + {current};
      assert Elems(finished + [current]) == Elems(finished) + {current};
      assert forall y :: y in Succ(graph, current) ==> y in Elems(finished);
      TopologicalAppend(graph, finished, current);
    }

    /** One turn of the root loop, with containers of its own: it succeeds iff the root can reach a
        cycle, and then adds one simple cycle that the root reaches. */
    method SearchFrom(graph: Graph<nat>, root: nat) returns (found: bool)
      requires root in graph
      modifies this
      ensures found <==> CanReachCycle(graph, root)
      ensures if found then |groupCycles| == |old(groupCycles)| + 1 && old(groupCycles) <= groupCycles
                            && SimpleCycle(graph, groupCycles[|old(groupCycles)|])
                            && Reaches(graph, root, groupCycles[|old(groupCycles)|][0])
              else groupCycles == old(groupCycles)
    {
      visited, inStack, path, finished := {}, {}, [], [];
      found := false;
      if root !in visited {
        found := Dfs(graph, root);
      }
      if found {
        var c := groupCycles[|groupCycles| - 1];
        ClosesPathReaches(graph, path, c);
        FoundIsDoomed(graph, root, c);
      } else {
        FinishedIsSafe(graph, visited, finished, root);
      }
    }
  }

  /** The k-th cycle was found from the k-th root. */
  ghost predicate FoundFrom(q: Graph<nat>, roots: seq<nat>, cycles: seq<seq<nat>>) {
    |roots| == |cycles| && forall k :: 0 <= k < |roots| ==> SimpleCycle(q, cycles[k]) && Reaches(q, roots[k], cycles[k][0])
  }

  lemma FoundIsDoomed(q: Graph<nat>, root: nat, c: seq<nat>)
    requires SimpleCycle(q, c) && Reaches(q, root, c[0])
    ensures CanReachCycle(q, root)
  {
    SimpleCycleIsCyclic(q, c);
  }

  lemma FinishedIsSafe(q: Graph<nat>, visited: set<nat>, finished: seq<nat>, root: nat)
    requires Settled(q, visited, {}, [], finished) && root in visited
    ensures !CanReachCycle(q, root)
  {
    InElems(finished, root);
    var i :| 0 <= i < |finished| && finished[i] == root;
    TopologicalNotDoomed(q, finished, i);
  }

  /** The root loop: exactly one cycle for each group that can reach a cycle and none for any other,
      each a simple cycle reachable from its root. */
  method FindCyclePerRoot(graph: Graph<nat>) returns (cycles: seq<seq<nat>>)
    ensures exists roots :: FoundFrom(graph, roots, cycles) && Enumerates(roots, set r | r in graph && CanReachCycle(graph, r))
  {
    var search := new RootSearch();
    ghost var roots: seq<nat> := [];
    var todo := graph.Keys;
    while todo != {}
      invariant fresh(search) && todo <= graph.Keys
      invariant FoundFrom(graph, roots, search.groupCycles) && Distinct(roots)
      invariant Elems(roots) == set r | r in graph.Keys - todo && CanReachCycle(graph, r)
      decreases todo
    {
      var group :| group in todo;
      InElems(roots, group);
      var found := search.SearchFrom(graph, group);
      if found {
        assert Elems(roots + [group]) == Elems(roots) + {group};
        roots := roots + [group];
      }
      todo := todo - {group};
    }
    cycles := search.groupCycles;
  }
}
