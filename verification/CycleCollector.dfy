/** The depth-first search of `find_group_cycles`, which goes on after a cycle and collects them all. */
module CycleCollector {
  import opened Graphs

  /** `path` is a chain of edges without repetition. */
  ghost predicate SimplePath(q: Graph<nat>, path: seq<nat>) {
    Distinct(path) && forall i :: 0 <= i < |path| - 1 ==> path[i + 1] in Succ(q, path[i])
  }

  /** The edge from the last vertex of a collected cycle back to its first. */
  ghost predicate Closes(c: seq<nat>, x: nat, y: nat) {
    |c| >= 1 && c[|c| - 1] == x && c[0] == y
  }

  ghost predicate Collected(cycles: seq<seq<nat>>, x: nat, y: nat) {
    exists k :: 0 <= k < |cycles| && Closes(cycles[k], x, y)
  }

  /** The containers of the search, with the order in which it finishes vertices. */
  datatype View = View(visited: set<nat>, inStack: set<nat>, path: seq<nat>, cycles: seq<seq<nat>>, finished: seq<nat>)

  ghost predicate Books(q: Graph<nat>, v: View) {
    && v.inStack == Elems(v.path) && SimplePath(q, v.path)
    && v.inStack <= v.visited && Elems(v.finished) == v.visited - v.inStack && Distinct(v.finished)
  }

  /** Collected cycles are simple cycles with pairwise different closing edges.  While the closing
      edge's source is on the path, the cycle is a slice of the path; once it is finished, the
      closing edge's target was not finished before it. */
  ghost predicate CyclesSound(q: Graph<nat>, v: View) {
    && (forall k :: 0 <= k < |v.cycles| ==> SimpleCycle(q, v.cycles[k]) && CycleSource(v.cycles[k]) in v.visited)
    && (forall j, k :: 0 <= j < k < |v.cycles| ==> !Closes(v.cycles[k], CycleSource(v.cycles[j]), CycleTarget(v.cycles[j])))
    && (forall k :: 0 <= k < |v.cycles| && CycleSource(v.cycles[k]) in v.inStack ==> SliceOf(v.cycles[k], v.path))
    && (forall k, i :: 0 <= k < |v.cycles| && 0 <= i < |v.finished| && v.finished[i] == CycleSource(v.cycles[k]) ==>
          CycleTarget(v.cycles[k]) !in v.finished[..i])
  }

  function CycleSource(c: seq<nat>): nat {
    if c == [] then 0 else c[|c| - 1]
  }

  function CycleTarget(c: seq<nat>): nat {
    if c == [] then 0 else c[0]
  }

  ghost predicate SliceOf(c: seq<nat>, path: seq<nat>) {
    exists a, b :: 0 <= a < b <= |path| && c == path[a..b]
  }

  /** Every edge out of a finished vertex leads to a vertex finished before it or closes a collected cycle. */
  ghost predicate EdgesExplained(q: Graph<nat>, v: View) {
    forall i, y :: 0 <= i < |v.finished| && y in Succ(q, v.finished[i]) ==>
      y in v.finished[..i] || Collected(v.cycles, v.finished[i], y)
  }

  ghost predicate Ready(q: Graph<nat>, v: View) {
    Books(q, v) && CyclesSound(q, v) && EdgesExplained(q, v)
  }

  // ---------------------------------------------------------------- the three moves

  ghost function Pushed(v: View, x: nat): View {
    v.(visited := v.visited + {x}, inStack := v.inStack + {x}, path := v.path + [x])
  }

  lemma Push(q: Graph<nat>, v: View, x: nat)
    requires Ready(q, v) && x !in v.visited
    requires v.path != [] ==> x in Succ(q, v.path[|v.path| - 1])
    ensures Ready(q, Pushed(v, x))
    ensures forall k :: 0 <= k < |v.cycles| ==> CycleSource(v.cycles[k]) != x
  {
    var w := Pushed(v, x);
    InElems(v.path, x);
    assert Elems(w.path) == Elems(v.path) + {x};
    assert w.visited - w.inStack == v.visited - v.inStack;
    forall k | 0 <= k < |w.cycles| && CycleSource(w.cycles[k]) in w.inStack ensures SliceOf(w.cycles[k], w.path) {
      var a, b :| 0 <= a < b <= |v.path| && v.cycles[k] == v.path[a..b];
      assert w.path[a..b] == v.path[a..b];
    }
  }

  ghost function Recorded(v: View, a: nat): View
    requires a < |v.path|
  {
    v.(cycles := v.cycles + [v.path[a..]])
  }

  /** Recording the slice of the path from the target of a fresh back edge on. */
  lemma Record(q: Graph<nat>, v: View, a: nat)
    requires Ready(q, v) && a < |v.path| && v.path[a] in Succ(q, v.path[|v.path| - 1])
    requires !Collected(v.cycles, v.path[|v.path| - 1], v.path[a])
    ensures Ready(q, Recorded(v, a)) && v.path[a..] !in v.cycles
    ensures Closes(v.path[a..], v.path[|v.path| - 1], v.path[a])
  {
    var w := Recorded(v, a);
    var c := v.path[a..];
    var x := v.path[|v.path| - 1];
    assert x in Elems(v.path);
    assert Closes(c, x, v.path[a]);
    assert SimpleCycle(q, c);
    assert c == v.path[a..|v.path|];
    assert SliceOf(c, w.path);
    assert CycleSource(c) == x && CycleTarget(c) == v.path[a];
    InElems(v.finished, x);
    forall j, k | 0 <= j < k < |w.cycles|
      ensures !Closes(w.cycles[k], CycleSource(w.cycles[j]), CycleTarget(w.cycles[j]))
    {
      if k == |v.cycles| {
        assert SimpleCycle(q, v.cycles[j]);
        assert Closes(v.cycles[j], CycleSource(v.cycles[j]), CycleTarget(v.cycles[j]));
      }
    }
    forall i, y | 0 <= i < |v.finished| && y in Succ(q, v.finished[i])
      ensures y in v.finished[..i] || Collected(w.cycles, v.finished[i], y)
    {
      if Collected(v.cycles, v.finished[i], y) {
        var k :| 0 <= k < |v.cycles| && Closes(v.cycles[k], v.finished[i], y);
        assert Closes(w.cycles[k], v.finished[i], y);
      }
    }
  }

  ghost function Popped(v: View): View
    requires v.path != []
  {
    var x := v.path[|v.path| - 1];
    v.(inStack := v.inStack - {x}, path := v.path[..|v.path| - 1], finished := v.finished + [x])
  }

  lemma PopSlices(q: Graph<nat>, v: View, k: nat)
    requires Books(q, v) && CyclesSound(q, v) && v.path != []
    requires k < |v.cycles| && CycleSource(v.cycles[k]) in Popped(v).inStack
    ensures SliceOf(v.cycles[k], Popped(v).path)
  {
    var w := Popped(v);
    var n := |v.path| - 1;
    var a, b :| 0 <= a < b <= |v.path| && v.cycles[k] == v.path[a..b];
    assert CycleSource(v.cycles[k]) == v.path[b - 1];
    assert b <= n;
    assert w.path[a..b] == v.path[a..b];
  }

  lemma PopTargets(q: Graph<nat>, v: View, k: nat, i: nat)
    requires Books(q, v) && CyclesSound(q, v) && v.path != []
    requires k < |v.cycles| && i < |Popped(v).finished| && Popped(v).finished[i] == CycleSource(v.cycles[k])
    ensures CycleTarget(v.cycles[k]) !in Popped(v).finished[..i]
  {
    var w := Popped(v);
    if i < |v.finished| {
      assert w.finished[..i] == v.finished[..i];
    } else {
      assert w.finished[..i] == v.finished;
      InElems(v.path, v.path[|v.path| - 1]);
      var a, b :| 0 <= a < b <= |v.path| && v.cycles[k] == v.path[a..b];
      InElems(v.path, v.path[a]);
      InElems(v.finished, v.path[a]);
    }
  }

  lemma PopCycles(q: Graph<nat>, v: View)
    requires Books(q, v) && CyclesSound(q, v) && v.path != []
    ensures CyclesSound(q, Popped(v))
  {
    var w := Popped(v);
    forall k | 0 <= k < |w.cycles| && CycleSource(w.cycles[k]) in w.inStack ensures SliceOf(w.cycles[k], w.path) {
      PopSlices(q, v, k);
    }
    forall k, i | 0 <= k < |w.cycles| && 0 <= i < |w.finished| && w.finished[i] == CycleSource(w.cycles[k])
      ensures CycleTarget(w.cycles[k]) !in w.finished[..i]
    {
      PopTargets(q, v, k, i);
    }
  }

  lemma Pop(q: Graph<nat>, v: View)
    requires Ready(q, v) && v.path != []
    requires var x := v.path[|v.path| - 1];
      forall y :: y in Succ(q, x) ==> y in v.visited - v.inStack || Collected(v.cycles, x, y)
    ensures Ready(q, Popped(v))
  {
    var w := Popped(v);
    var x := v.path[|v.path| - 1];
    PopCycles(q, v);
    assert v.path == w.path + [x];
    assert x in Elems(v.path);
    assert Elems(v.path) == Elems(w.path) + {x} && x !in w.path;
    InElems(w.path, x);
    InElems(v.finished, x);
    assert Elems(w.finished) == Elems(v.finished) + {x};
    forall i, y | 0 <= i < |w.finished| && y in Succ(q, w.finished[i])
      ensures y in w.finished[..i] || Collected(w.cycles, w.finished[i], y)
    {
      if i < |v.finished| {
        assert w.finished[..i] == v.finished[..i];
      } else {
        assert w.finished[..i] == v.finished;
        assert y in Elems(v.finished) ==> y in v.finished;
      }
    }
  }

  // ---------------------------------------------------------------- the search as coded

  method IndexOf(path: seq<nat>, x: nat) returns (a: nat)
    ensures a <= |path| && x !in path[..a] && (a < |path| ==> path[a] == x)
  {
    a := 0;
    while a < |path| && path[a] != x
      invariant a <= |path| && x !in path[..a]
    {
      a := a + 1;
    }
  }

  /** How a finished call extends the search state. */
  ghost predicate Extends(v: View, w: View) {
    && w.path == v.path && w.inStack == v.inStack && v.visited <= w.visited
    && v.cycles <= w.cycles
    && forall k :: |v.cycles| <= k < |w.cycles| ==> CycleSource(w.cycles[k]) !in v.visited
  }

  /** What the loop over the successors of the vertex `x` on top of the path has done so far. */
  ghost predicate Explored(q: Graph<nat>, v0: View, v: View, x: nat, todo: set<nat>) {
    && v.path == v0.path + [x] && v.inStack == v0.inStack + {x} && v0.visited + {x} <= v.visited
    && v0.cycles <= v.cycles
    && (forall k :: |v0.cycles| <= k < |v.cycles| ==> CycleSource(v.cycles[k]) !in v0.visited)
    && (forall y :: y in Succ(q, x) - todo ==> y in v.visited - v.inStack || Collected(v.cycles, x, y))
    && (forall y :: y in todo ==> !Collected(v.cycles, x, y))
  }

  lemma Begin(q: Graph<nat>, v0: View, x: nat)
    requires Ready(q, v0) && x !in v0.visited
    requires v0.path != [] ==> x in Succ(q, v0.path[|v0.path| - 1])
    ensures Ready(q, Pushed(v0, x)) && Explored(q, v0, Pushed(v0, x), x, Succ(q, x))
    ensures x !in v0.inStack
  {
    Push(q, v0, x);
    forall y, k | 0 <= k < |v0.cycles| ensures !Closes(v0.cycles[k], x, y) {
      assert SimpleCycle(q, v0.cycles[k]);
    }
  }

  lemma AfterCall(q: Graph<nat>, v0: View, v: View, w: View, x: nat, todo: set<nat>, y: nat)
    requires Explored(q, v0, v, x, todo) && Extends(v, w) && Ready(q, v)
    requires y in todo && y !in v.visited && y in w.visited
    ensures Explored(q, v0, w, x, todo - {y})
  {
    forall z | z in Succ(q, x) - (todo - {y}) ensures z in w.visited - w.inStack || Collected(w.cycles, x, z) {
      if z != y && Collected(v.cycles, x, z) {
        var k :| 0 <= k < |v.cycles| && Closes(v.cycles[k], x, z);
        assert Closes(w.cycles[k], x, z);
      }
    }
    forall z | z in todo - {y} ensures !Collected(w.cycles, x, z) {
      forall k | 0 <= k < |w.cycles| ensures !Closes(w.cycles[k], x, z) {
        if k < |v.cycles| {
          assert w.cycles[k] == v.cycles[k] && !Closes(v.cycles[k], x, z);
        } else {
          assert CycleSource(w.cycles[k]) !in v.visited;
        }
      }
    }
  }

  lemma AfterRecord(q: Graph<nat>, v0: View, v: View, x: nat, todo: set<nat>, a: nat)
    requires Explored(q, v0, v, x, todo) && Ready(q, v) && x !in v0.visited
    requires a < |v.path| && v.path[a] in todo && v.path[a] in Succ(q, x)
    ensures Ready(q, Recorded(v, a)) && v.path[a..] !in v.cycles
    ensures Explored(q, v0, Recorded(v, a), x, todo - {v.path[a]})
  {
    assert v.path[|v.path| - 1] == x;
    Record(q, v, a);
    var w := Recorded(v, a);
    var y := v.path[a];
    assert Closes(w.cycles[|v.cycles|], x, y);
    forall z | z in Succ(q, x) - (todo - {y}) ensures z in w.visited - w.inStack || Collected(w.cycles, x, z) {
      if z != y && Collected(v.cycles, x, z) {
        var k :| 0 <= k < |v.cycles| && Closes(v.cycles[k], x, z);
        assert Closes(w.cycles[k], x, z);
      }
    }
    forall z | z in todo - {y} ensures !Collected(w.cycles, x, z) {
      forall k | 0 <= k < |w.cycles| ensures !Closes(w.cycles[k], x, z) {
        assert k < |v.cycles| ==> !Closes(v.cycles[k], x, z);
      }
    }
  }

  lemma AfterPop(q: Graph<nat>, v0: View, v: View, x: nat)
    requires Explored(q, v0, v, x, {}) && Ready(q, v) && x !in v0.inStack
    ensures Ready(q, Popped(v)) && Extends(v0, Popped(v)) && x in Popped(v).visited
  {
    Pop(q, v);
    assert Popped(v).path == v0.path;
  }

  class Collector {
    var visited: set<nat>
    var inStack: set<nat>
    var path: seq<nat>
    var groupCycles: seq<seq<nat>>
    ghost var finished: seq<nat>

    constructor ()
      ensures Snapshot() == View({}, {}, [], [], [])
    {
      visited, inStack, path, groupCycles, finished := {}, {}, [], [], [];
    }

    ghost function Snapshot(): View
      reads this
    {
      View(visited, inStack, path, groupCycles, finished)
    }

    /** The back-edge branch.  Neither the `path.end()` test nor the duplicate test ever fails. */
    method RecordCycle(graph: Graph<nat>, ghost v0: View, current: nat, ghost todo: set<nat>, neighbor: nat)
      requires Ready(graph, Snapshot()) && Explored(graph, v0, Snapshot(), current, todo)
      requires current !in v0.visited && neighbor in todo && neighbor in Succ(graph, current)
      requires neighbor in inStack
      modifies this`groupCycles
      ensures Ready(graph, Snapshot()) && Explored(graph, v0, Snapshot(), current, todo - {neighbor})
      ensures exists a :: 0 <= a < |path| && path[a] == neighbor && groupCycles == old(groupCycles) + [path[a..]]
    {
      ghost var v := Snapshot();
      InElems(path, neighbor);
      var a := IndexOf(path, neighbor);
      AfterRecord(graph, v0, v, current, todo, a);
      if a < |path| {
        var cycle := path[a..];
        if cycle !in groupCycles {
          groupCycles := groupCycles + [cycle];
        }
      }
    }

    /** The lambda `dfs`. */
    method Dfs(graph: Graph<nat>, current: nat)
      requires Ready(graph, Snapshot())
      requires current in Vertices(graph) && current !in visited
      requires path != [] ==> current in Succ(graph, path[|path| - 1])
      modifies this
      ensures Ready(graph, Snapshot()) && Extends(old(Snapshot()), Snapshot()) && current in visited
      decreases Vertices(graph) - visited
    {
      hide Ready;
      ghost var v0 := Snapshot();
      Begin(graph, v0, current);
      visited := visited + {current};
      inStack := inStack + {current};
      path := path + [current];
      var todo := Succ(graph, current);
      while todo != {}
        invariant Ready(graph, Snapshot()) && todo <= Succ(graph, current)
        invariant Explored(graph, v0, Snapshot(), current, todo)
        decreases todo
      {
        ghost var v := Snapshot();
        var neighbor :| neighbor in todo;
        if neighbor !in visited {
          Dfs(graph, neighbor);
          AfterCall(graph, v0, v, Snapshot(), current, todo, neighbor);
        } else if neighbor in inStack {
          RecordCycle(graph, v0, current, todo, neighbor);
        }
        todo := todo - {neighbor};
      }
      ghost var v := Snapshot();
      AfterPop(graph, v0, v, current);
      inStack := inStack - {current};
      path := path[..|path| - 1];
      finished := finished + [current];
    }
  }

  // ---------------------------------------------------------------- the whole search

  /** Each edge either runs down the finishing order or is the closing edge of exactly one collected
      cycle: the cycles correspond one-to-one to the back edges. */
  ghost predicate OnePerBackEdge(q: Graph<nat>, finished: seq<nat>, cycles: seq<seq<nat>>) {
    && Distinct(finished) && q.Keys <= Elems(finished)
    && (forall k :: 0 <= k < |cycles| ==> SimpleCycle(q, cycles[k]))
    && (forall j, k :: 0 <= j < k < |cycles| ==> !Closes(cycles[k], CycleSource(cycles[j]), CycleTarget(cycles[j])))
    && (forall i, y :: 0 <= i < |finished| && y in Succ(q, finished[i]) ==>
          (y in finished[..i] <==> !Collected(cycles, finished[i], y)))
  }

  lemma ReadyIsOnePerBackEdge(q: Graph<nat>, v: View)
    requires Ready(q, v) && v.path == [] && q.Keys <= v.visited
    ensures OnePerBackEdge(q, v.finished, v.cycles)
  {
    assert v.inStack == {};
    forall i, y | 0 <= i < |v.finished| && y in Succ(q, v.finished[i]) && Collected(v.cycles, v.finished[i], y)
      ensures y !in v.finished[..i]
    {
      var k :| 0 <= k < |v.cycles| && Closes(v.cycles[k], v.finished[i], y);
      assert v.finished[i] == CycleSource(v.cycles[k]) && y == CycleTarget(v.cycles[k]);
    }
  }

  /** Nothing is collected exactly on acyclic graphs. */
  lemma CollectedIffCyclic(q: Graph<nat>, finished: seq<nat>, cycles: seq<seq<nat>>)
    requires OnePerBackEdge(q, finished, cycles)
    ensures cycles == [] <==> !Cyclic(q)
  {
    if cycles == [] {
      assert Topological(q, finished);
      CertificateDecides(q, {}, finished);
    } else {
      SimpleCycleIsCyclic(q, cycles[0]);
    }
  }

  method CollectCycles(graph: Graph<nat>) returns (cycles: seq<seq<nat>>)
    ensures exists finished :: OnePerBackEdge(graph, finished, cycles)
  {
    var search := new Collector();
    var todo := graph.Keys;
    while todo != {}
      invariant fresh(search) && Ready(graph, search.Snapshot()) && search.path == []
      invariant todo <= graph.Keys && graph.Keys - todo <= search.visited
      decreases todo
    {
      var group :| group in todo;
      if group !in search.visited {
        search.Dfs(graph, group);
      }
      todo := todo - {group};
    }
    ReadyIsOnePerBackEdge(graph, search.Snapshot());
    cycles := search.groupCycles;
  }

  /** `max_element` by size: the first of the longest. */
  method Longest(cycles: seq<seq<nat>>) returns (best: seq<nat>)
    requires cycles != []
    ensures best in cycles && forall c :: c in cycles ==> |c| <= |best|
  {
    best := cycles[0];
    for k := 1 to |cycles|
      invariant best in cycles && forall j :: 0 <= j < k ==> |cycles[j]| <= |best|
    {
      if |best| < |cycles[k]| {
        best := cycles[k];
      }
    }
  }
}
