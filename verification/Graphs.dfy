/** Finite directed graphs in the shape the detector keeps them in: a map from a vertex to the
    set of its successors.  A vertex without a key has no successors. */
module Graphs {

  type Graph<T> = map<T, set<T>>

  function Succ<T>(g: Graph<T>, x: T): set<T> {
    if x in g then g[x] else {}
  }

  /** Every vertex that occurs in the graph, as a key or as a successor. */
  function Vertices<T>(g: Graph<T>): set<T> {
    g.Keys + set x, y | x in g && y in g[x] :: y
  }

  ghost function Elems<T>(s: seq<T>): set<T> {
    set x | x in s
  }

  lemma InElems<T>(s: seq<T>, x: T)
    ensures x in Elems(s) <==> x in s
  {}

  ghost predicate Distinct<T>(s: seq<T>) {
    forall i, j :: 0 <= i < j < |s| ==> s[i] != s[j]
  }

  /** `order` lists each member of `keys` exactly once. */
  ghost predicate Enumerates<T>(order: seq<T>, keys: set<T>) {
    Distinct(order) && Elems(order) == keys
  }

  /** `targets` lists the successors of every key exactly once. */
  ghost predicate ListsTargets<T>(targets: map<T, seq<T>>, g: Graph<T>) {
    forall x :: x in g ==> x in targets && Enumerates(targets[x], g[x])
  }

  ghost predicate IsWalk<T>(g: Graph<T>, w: seq<T>) {
    |w| >= 1 && forall i :: 0 <= i < |w| - 1 ==> w[i + 1] in Succ(g, w[i])
  }

  ghost predicate WalkFromTo<T>(g: Graph<T>, w: seq<T>, x: T, y: T) {
    IsWalk(g, w) && w[0] == x && w[|w| - 1] == y
  }

  /** Reachability in zero or more steps. */
  ghost predicate Reaches<T(!new)>(g: Graph<T>, x: T, y: T) {
    exists w :: WalkFromTo(g, w, x, y)
  }

  ghost predicate ClosedWalk<T>(g: Graph<T>, w: seq<T>, x: T) {
    |w| >= 2 && WalkFromTo(g, w, x, x)
  }

  ghost predicate OnCycle<T(!new)>(g: Graph<T>, x: T) {
    exists w :: ClosedWalk(g, w, x)
  }

  ghost predicate Cyclic<T(!new)>(g: Graph<T>) {
    exists x :: OnCycle(g, x)
  }

  /** `x` is on a cycle or upstream of one: it can never run again. */
  ghost predicate CanReachCycle<T(!new)>(g: Graph<T>, x: T) {
    exists y :: Reaches(g, x, y) && OnCycle(g, y)
  }

  /** A cycle without repeated vertices; the edge from the last back to the first is implied. */
  ghost predicate SimpleCycle<T>(g: Graph<T>, c: seq<T>) {
    IsWalk(g, c) && Distinct(c) && c[0] in Succ(g, c[|c| - 1])
  }

  /** `order` lists vertices so that every successor of a listed vertex is listed before it. */
  ghost predicate Topological<T>(g: Graph<T>, order: seq<T>) {
    Distinct(order) &&
    forall i, y :: 0 <= i < |order| && y in Succ(g, order[i]) ==> y in order[..i]
  }

  /** Every member of `s` has a successor in `s`. */
  ghost predicate SelfFeeding<T>(g: Graph<T>, s: set<T>) {
    forall x :: x in s ==> Succ(g, x) * s != {}
  }

  ghost predicate SubGraph<T>(h: Graph<T>, g: Graph<T>) {
    forall x :: x in h ==> x in g && h[x] <= g[x]
  }

  ghost predicate NoSelfEdges<T>(g: Graph<T>) {
    forall x :: x in g ==> x !in g[x]
  }

  // ---------------------------------------------------------------- walks

  lemma EdgeIsWalk<T>(g: Graph<T>, x: T, y: T)
    requires y in Succ(g, x)
    ensures WalkFromTo(g, [x, y], x, y)
  {}

  lemma PrependWalk<T>(g: Graph<T>, x: T, w: seq<T>)
    requires IsWalk(g, w) && w[0] in Succ(g, x)
    ensures IsWalk(g, [x] + w)
  {
    var v := [x] + w;
    forall i | 0 <= i < |v| - 1 ensures v[i + 1] in Succ(g, v[i]) {
      if i > 0 { assert v[i] == w[i - 1] && v[i + 1] == w[i]; }
    }
  }

  lemma SliceWalk<T>(g: Graph<T>, w: seq<T>, i: int, j: int)
    requires IsWalk(g, w) && 0 <= i < j <= |w|
    ensures IsWalk(g, w[i..j])
  {
    var v := w[i..j];
    forall k | 0 <= k < |v| - 1 ensures v[k + 1] in Succ(g, v[k]) {
      assert v[k] == w[i + k] && v[k + 1] == w[i + k + 1];
    }
  }

  lemma JoinWalks<T>(g: Graph<T>, v: seq<T>, w: seq<T>, x: T, y: T, z: T)
    requires WalkFromTo(g, v, x, y) && WalkFromTo(g, w, y, z)
    ensures WalkFromTo(g, v + w[1..], x, z)
    ensures |v + w[1..]| == |v| + |w| - 1
  {
    var u := v + w[1..];
    forall i | 0 <= i < |u| - 1 ensures u[i + 1] in Succ(g, u[i]) {
      if i >= |v| - 1 {
        assert u[i] == w[i - |v| + 1];
        assert u[i + 1] == w[i - |v| + 2];
      }
    }
    assert u[|u| - 1] == z;
  }

  lemma ReachesStep<T(!new)>(g: Graph<T>, x: T, y: T, z: T)
    requires y in Succ(g, x) && Reaches(g, y, z)
    ensures Reaches(g, x, z)
  {
    var w :| WalkFromTo(g, w, y, z);
    PrependWalk(g, x, w);
    assert WalkFromTo(g, [x] + w, x, z);
  }

  lemma ReachesTrans<T(!new)>(g: Graph<T>, x: T, y: T, z: T)
    requires Reaches(g, x, y) && Reaches(g, y, z)
    ensures Reaches(g, x, z)
  {
    var v :| WalkFromTo(g, v, x, y);
    var w :| WalkFromTo(g, w, y, z);
    JoinWalks(g, v, w, x, y, z);
  }

  /** Two different vertices that reach each other lie on a cycle. */
  lemma MutualReachOnCycle<T(!new)>(g: Graph<T>, x: T, y: T)
    requires Reaches(g, x, y) && Reaches(g, y, x) && x != y
    ensures OnCycle(g, x)
  {
    var v :| WalkFromTo(g, v, x, y);
    var w :| WalkFromTo(g, w, y, x);
    JoinWalks(g, v, w, x, y, x);
    assert ClosedWalk(g, v + w[1..], x);
  }

  lemma SubGraphWalk<T>(h: Graph<T>, g: Graph<T>, w: seq<T>)
    requires SubGraph(h, g) && IsWalk(h, w)
    ensures IsWalk(g, w)
  {}

  lemma SubGraphCyclic<T(!new)>(h: Graph<T>, g: Graph<T>)
    requires SubGraph(h, g) && Cyclic(h)
    ensures Cyclic(g)
  {
    var x :| OnCycle(h, x);
    var w :| ClosedWalk(h, w, x);
    SubGraphWalk(h, g, w);
    assert ClosedWalk(g, w, x);
    assert OnCycle(g, x);
  }

  // ---------------------------------------------------------------- cycles

  lemma SimpleCycleIsCyclic<T(!new)>(g: Graph<T>, c: seq<T>)
    requires SimpleCycle(g, c)
    ensures OnCycle(g, c[0]) && Cyclic(g)
  {
    EdgeIsWalk(g, c[|c| - 1], c[0]);
    JoinWalks(g, c, [c[|c| - 1], c[0]], c[0], c[|c| - 1], c[0]);
    assert ClosedWalk(g, c + [c[|c| - 1], c[0]][1..], c[0]);
  }

  /** Two edges back and forth make a cycle. */
  lemma BackAndForth<T(!new)>(g: Graph<T>, x: T, y: T)
    requires y in Succ(g, x) && x in Succ(g, y)
    ensures OnCycle(g, x) && Cyclic(g)
  {
    assert IsWalk(g, [x, y, x]);
    assert ClosedWalk(g, [x, y, x], x);
  }

  /** A walk whose last entry repeats an earlier one starts upstream of a cycle. */
  lemma RepeatIsDoomed<T(!new)>(g: Graph<T>, w: seq<T>, i: int, j: int)
    requires IsWalk(g, w) && 0 <= i < j < |w| && w[i] == w[j]
    ensures CanReachCycle(g, w[0])
  {
    SliceWalk(g, w, 0, i + 1);
    SliceWalk(g, w, i, j + 1);
    assert WalkFromTo(g, w[0..i + 1], w[0], w[i]);
    assert ClosedWalk(g, w[i..j + 1], w[i]);
    assert Reaches(g, w[0], w[i]) && OnCycle(g, w[i]);
  }

  /** Being able to reach a cycle is passed on to some successor. */
  lemma DoomedHasDoomedSucc<T(!new)>(g: Graph<T>, x: T) returns (y: T)
    requires CanReachCycle(g, x)
    ensures y in Succ(g, x) && CanReachCycle(g, y)
  {
    var z :| Reaches(g, x, z) && OnCycle(g, z);
    var w :| WalkFromTo(g, w, x, z);
    var c :| ClosedWalk(g, c, z);
    if |w| >= 2 {
      y := w[1];
      SliceWalk(g, w, 1, |w|);
      assert WalkFromTo(g, w[1..|w|], y, z);
    } else {
      y := c[1];
      SliceWalk(g, c, 1, |c|);
      assert WalkFromTo(g, c[1..|c|], y, z);
    }
    assert Reaches(g, y, z);
  }

  /** Nothing in a topological order can reach a cycle. */
  lemma {:induction false} TopologicalNotDoomed<T(!new)>(g: Graph<T>, order: seq<T>, i: nat)
    requires Topological(g, order) && i < |order|
    ensures !CanReachCycle(g, order[i])
  {
    if CanReachCycle(g, order[i]) {
      var y := DoomedHasDoomedSucc(g, order[i]);
      var k :| 0 <= k < i && order[k] == y;
      TopologicalNotDoomed(g, order, k);
    }
  }

  lemma TopologicalAppend<T>(g: Graph<T>, order: seq<T>, x: T)
    requires Topological(g, order) && x !in order
    requires forall y :: y in Succ(g, x) ==> y in order
    ensures Topological(g, order + [x])
  {
    var o := order + [x];
    forall i, y | 0 <= i < |o| && y in Succ(g, o[i]) ensures y in o[..i] {
      if i < |order| {
        assert o[..i] == order[..i];
      } else {
        assert o[..i] == order;
      }
    }
  }

  lemma TopologicalSubGraph<T>(h: Graph<T>, g: Graph<T>, order: seq<T>)
    requires SubGraph(h, g) && Topological(g, order)
    ensures Topological(h, order)
  {}

  /** Pigeonhole: more entries than members means a repeated entry. */
  lemma {:induction false} Pigeonhole<T>(w: seq<T>, s: set<T>) returns (i: nat, j: nat)
    requires forall k :: 0 <= k < |w| ==> w[k] in s
    requires |w| > |s|
    ensures i < j < |w| && w[i] == w[j]
    decreases |w|
  {
    var last := w[|w| - 1];
    if k :| 0 <= k < |w| - 1 && w[k] == last {
      i, j := k, |w| - 1;
    } else {
      i, j := Pigeonhole(w[..|w| - 1], s - {last});
    }
  }

  lemma {:induction false} WalkInside<T>(g: Graph<T>, s: set<T>, x: T, n: nat) returns (w: seq<T>)
    requires SelfFeeding(g, s) && x in s
    ensures |w| == n + 1 && IsWalk(g, w) && w[0] == x
    ensures forall k :: 0 <= k < |w| ==> w[k] in s
  {
    if n == 0 {
      w := [x];
    } else {
      var y :| y in Succ(g, x) * s;
      var v := WalkInside(g, s, y, n - 1);
      PrependWalk(g, x, v);
      w := [x] + v;
    }
  }

  /** Every member of a self-feeding set can reach a cycle. */
  lemma SelfFeedingDoomed<T(!new)>(g: Graph<T>, s: set<T>, x: T)
    requires SelfFeeding(g, s) && x in s
    ensures CanReachCycle(g, x)
  {
    var w := WalkInside(g, s, x, |s|);
    var i, j := Pigeonhole(w, s);
    RepeatIsDoomed(g, w, i, j);
  }

  lemma DoomedMakesCyclic<T(!new)>(g: Graph<T>, x: T)
    requires CanReachCycle(g, x)
    ensures x in g && Cyclic(g)
  {
    var y := DoomedHasDoomedSucc(g, x);
  }

  /** The whole-graph certificate behind every search below: a self-feeding set together with a
      topological order of all the other keys is exactly the split into doomed and safe. */
  lemma CertificateDecides<T(!new)>(g: Graph<T>, doomed: set<T>, order: seq<T>)
    requires SelfFeeding(g, doomed) && Topological(g, order)
    requires g.Keys <= doomed + Elems(order)
    ensures doomed == set x | x in g && CanReachCycle(g, x)
    ensures doomed == {} <==> !Cyclic(g)
  {
    forall x ensures x in doomed <==> x in g && CanReachCycle(g, x) {
      if x in doomed {
        SelfFeedingDoomed(g, doomed, x);
        DoomedMakesCyclic(g, x);
      } else if x in g {
        var i :| 0 <= i < |order| && order[i] == x;
        TopologicalNotDoomed(g, order, i);
      }
    }
    if Cyclic(g) {
      var x :| OnCycle(g, x);
      assert WalkFromTo(g, [x], x, x);
      assert Reaches(g, x, x);
      assert CanReachCycle(g, x);
      DoomedMakesCyclic(g, x);
      assert x in doomed;
    } else if x :| x in doomed {
      DoomedMakesCyclic(g, x);
    }
  }

  // ---------------------------------------------------------------- listing a set

  lemma {:induction false} EnumerateSet<T>(keys: set<T>) returns (order: seq<T>)
    ensures Enumerates(order, keys)
  {
    order := EnumerateOn([], keys);
  }

  /** Every list of different members can be continued to a listing of the whole set. */
  lemma {:induction false} EnumerateOn<T>(first: seq<T>, keys: set<T>) returns (order: seq<T>)
    requires Distinct(first) && Elems(first) <= keys
    ensures Enumerates(order, keys) && first <= order
    decreases keys - Elems(first)
  {
    if keys - Elems(first) != {} {
      var x :| x in keys - Elems(first);
      InElems(first, x);
      assert Elems(first + [x]) == Elems(first) + {x};
      order := EnumerateOn(first + [x], keys);
      assert first <= first + [x] <= order;
    } else {
      order := first;
      assert keys == Elems(first) + (keys - Elems(first));
    }
  }

  lemma EnumerateFirst<T>(keys: set<T>, x: T) returns (order: seq<T>)
    requires x in keys
    ensures Enumerates(order, keys) && order != [] && order[0] == x
  {
    assert Elems([x]) == {x};
    order := EnumerateOn([x], keys);
  }

  /** Successors can be listed with any choice of first ones. */
  lemma {:induction false} ListTargets<T>(g: Graph<T>, next: map<T, T>) returns (targets: map<T, seq<T>>)
    requires forall x :: x in next && x in g ==> next[x] in g[x]
    ensures ListsTargets(targets, g)
    ensures forall x :: x in next && x in g ==> targets[x] != [] && targets[x][0] == next[x]
    decreases g.Keys
  {
    targets := map[];
    if x :| x in g {
      var others := ListTargets(g - {x}, next);
      var order;
      if x in next {
        order := EnumerateFirst(g[x], next[x]);
      } else {
        order := EnumerateSet(g[x]);
      }
      targets := others[x := order];
      assert forall y :: y in g && y != x ==> y in g - {x} && (g - {x})[y] == g[y];
    }
  }
}
