/** The wait graph between groups, and what it keeps of the wait graph between threads. */
module Quotients {
  import opened Graphs
  import opened State
  import opened Latency
  import opened ConflictGroups
  import opened Grouping

  /** Some thread of the first group waits for some thread of the second. */
  predicate Crosses(g: WaitGraph, x: set<Thread>, y: set<Thread>) {
    exists t :: t in x && Succ(g, t) * y != {}
  }

  predicate CrossEdge(ts: seq<set<Thread>>, g: WaitGraph, i: nat, j: nat) {
    i < |ts| && j < |ts| && i != j && Crosses(g, ts[i], ts[j])
  }

  /** `q` is the wait graph between the groups: an edge wherever some thread of one group waits for
      some thread of another, and no key without an edge. */
  ghost predicate IsQuotient(q: Graph<nat>, ts: seq<set<Thread>>, g: WaitGraph) {
    && (forall i: nat :: i in q ==> q[i] != {})
    && (forall i: nat, j: nat :: j in Succ(q, i) <==> CrossEdge(ts, g, i, j))
  }

  function Targets(ts: seq<set<Thread>>, g: WaitGraph, i: nat): set<nat> {
    set j: nat | j < |ts| && CrossEdge(ts, g, i, j)
  }

  function Quotient(ts: seq<set<Thread>>, g: WaitGraph): Graph<nat> {
    map i: nat | i < |ts| && Targets(ts, g, i) != {} :: Targets(ts, g, i)
  }

  lemma QuotientIs(ts: seq<set<Thread>>, g: WaitGraph)
    ensures IsQuotient(Quotient(ts, g), ts, g)
  {
    var q := Quotient(ts, g);
    forall i: nat, j: nat ensures j in Succ(q, i) <==> CrossEdge(ts, g, i, j) {
      assert j in Targets(ts, g, i) <==> CrossEdge(ts, g, i, j);
    }
  }

  lemma QuotientUnique(p: Graph<nat>, q: Graph<nat>, ts: seq<set<Thread>>, g: WaitGraph)
    requires IsQuotient(p, ts, g) && IsQuotient(q, ts, g)
    ensures p == q
  {
    forall i: nat ensures Succ(p, i) == Succ(q, i) {
      forall j: nat ensures j in Succ(p, i) <==> j in Succ(q, i) {
        assert j in Succ(p, i) <==> CrossEdge(ts, g, i, j);
      }
    }
    forall i: nat ensures i in p <==> i in q {
      assert (i in p <==> Succ(p, i) != {}) && (i in q <==> Succ(q, i) != {});
    }
    assert forall i :: i in p ==> p[i] == Succ(p, i) && q[i] == Succ(q, i);
  }

  /** The group wait graph of a state. */
  ghost function GroupGraph(s: Tables, o: Order): Graph<nat> {
    Quotient(GroupThreads(s, o), s.waitsFor)
  }

  // ---------------------------------------------------------------- from threads to groups

  lemma EdgeDescends(ts: seq<set<Thread>>, g: WaitGraph, t: Thread, u: Thread, i: nat, j: nat)
    requires u in Succ(g, t) && InGroup(ts, i, t) && InGroup(ts, j, u) && i != j
    ensures CrossEdge(ts, g, i, j)
  {
    assert u in Succ(g, t) * ts[j];
  }

  ghost predicate AllGrouped(ts: seq<set<Thread>>, w: seq<Thread>) {
    forall k :: 0 <= k < |w| ==> Grouped(ts, w[k])
  }

  /** A thread walk descends to a group walk. */
  lemma {:induction false} WalkDescends(q: Graph<nat>, ts: seq<set<Thread>>, g: WaitGraph, w: seq<Thread>, i: nat, j: nat)
    requires IsQuotient(q, ts, g)
    requires IsWalk(g, w) && AllGrouped(ts, w) && Partitioned(ts)
    requires InGroup(ts, i, w[0]) && InGroup(ts, j, w[|w| - 1])
    ensures Reaches(q, i, j)
    decreases |w|
  {
    if |w| == 1 {
      assert i == j;
      assert WalkFromTo(q, [i], i, j);
    } else {
      var k: nat :| InGroup(ts, k, w[1]);
      SliceWalk(g, w, 1, |w|);
      var v := w[1..|w|];
      assert forall m :: 0 <= m < |v| ==> v[m] == w[m + 1];
      WalkDescends(q, ts, g, v, k, j);
      if i != k {
        EdgeDescends(ts, g, w[0], w[1], i, k);
        ReachesStep(q, i, k, j);
      }
    }
  }

  /** Every wait cycle stays inside one group or makes the group graph cyclic. */
  lemma WaitCycleDescends(q: Graph<nat>, ts: seq<set<Thread>>, g: WaitGraph, w: seq<Thread>, x: Thread, k: nat)
    requires IsQuotient(q, ts, g)
    requires ClosedWalk(g, w, x) && AllGrouped(ts, w) && Partitioned(ts) && k < |w|
    ensures Cyclic(q) || exists i :: InGroup(ts, i, x) && InGroup(ts, i, w[k])
  {
    var i: nat :| InGroup(ts, i, w[0]);
    var j: nat :| InGroup(ts, j, w[k]);
    if i != j {
      SliceWalk(g, w, 0, k + 1);
      SliceWalk(g, w, k, |w|);
      var a, b := w[0..k + 1], w[k..|w|];
      assert forall m :: 0 <= m < |a| ==> a[m] == w[m];
      assert forall m :: 0 <= m < |b| ==> b[m] == w[k + m];
      WalkDescends(q, ts, g, a, i, j);
      WalkDescends(q, ts, g, b, j, i);
      MutualReachOnCycle(q, i, j);
    }
  }

  /** Quotient completeness on the real groups: all threads of a wait cycle are grouped. */
  lemma CycleInsideOneGroup(s: Tables, o: Order, w: seq<Thread>, x: Thread, k: nat)
    requires OrderOf(o, s) && ClosedWalk(s.waitsFor, w, x) && k < |w|
    ensures Cyclic(GroupGraph(s, o)) ||
      exists i :: InGroup(GroupThreads(s, o), i, x) && InGroup(GroupThreads(s, o), i, w[k])
  {
    var ts := GroupThreads(s, o);
    GroupsDisjoint(s, o);
    forall m | 0 <= m < |w| ensures Grouped(ts, w[m]) {
      assert m < |w| - 1 ==> w[m + 1] in Succ(s.waitsFor, w[m]);
      assert w[0 + 1] in Succ(s.waitsFor, w[0]);
      GroupsCover(s, o, w[m]);
    }
    QuotientIs(ts, s.waitsFor);
    WaitCycleDescends(GroupGraph(s, o), ts, s.waitsFor, w, x, k);
  }

  // ---------------------------------------------------------------- from groups to threads

  ghost predicate AllSingle(ts: seq<set<Thread>>) {
    forall i :: 0 <= i < |ts| ==> Single(ts[i])
  }

  ghost predicate Single(x: set<Thread>) {
    exists t :: x == {t}
  }

  /** If no two threads share an entry in `thread_locks`, every group is a single thread. */
  lemma DisjointLocksSingle(s: Tables, o: Order)
    requires OrderOf(o, s)
    requires NothingShared(s.threadLocks)
    ensures AllSingle(GroupThreads(s, o))
  {
    GroupShape(s, o);
    var fs, ts := Founders(s.threadLocks, o.holders), GroupThreads(s, o);
    forall i | 0 <= i < |ts| ensures Single(ts[i]) {
      if i < |fs| {
        assert ts[i] == {fs[i]};
      }
    }
  }

  lemma SingleCrossing(g: WaitGraph, x: Thread, y: Thread)
    ensures Crosses(g, {x}, {y}) <==> y in Succ(g, x)
  {
    if y in Succ(g, x) {
      assert x in {x} && y in Succ(g, x) * {y};
    }
  }

  /** Between single threads, group edges are wait edges, so a group cycle is a wait cycle. */
  lemma {:induction false} SingleWalkLifts(q: Graph<nat>, ts: seq<set<Thread>>, g: WaitGraph, w: seq<nat>) returns (v: seq<Thread>)
    requires IsQuotient(q, ts, g) && AllSingle(ts) && IsWalk(q, w) && |w| >= 2
    ensures IsWalk(g, v) && |v| == |w|
    ensures forall k :: 0 <= k < |w| ==> w[k] < |ts| && ts[w[k]] == {v[k]}
    decreases |w|
  {
    var x, y := w[0], w[1];
    assert w[0 + 1] in Succ(q, w[0]);
    assert CrossEdge(ts, g, x, y);
    assert Single(ts[x]) && Single(ts[y]);
    var t :| ts[x] == {t};
    var u :| ts[y] == {u};
    SingleCrossing(g, t, u);
    if |w| == 2 {
      EdgeIsWalk(g, t, u);
      v := [t, u];
    } else {
      SliceWalk(q, w, 1, |w|);
      var rest := SingleWalkLifts(q, ts, g, w[1..|w|]);
      assert ts[y] == {rest[0]} && rest[0] in ts[y];
      PrependWalk(g, t, rest);
      v := [t] + rest;
      assert forall k :: 0 < k < |w| ==> w[1..|w|][k - 1] == w[k] && v[k] == rest[k - 1];
    }
  }

  lemma SingleVerdict(s: Tables, o: Order)
    requires OrderOf(o, s) && AllSingle(GroupThreads(s, o)) && NoSelfEdges(s.waitsFor)
    ensures Cyclic(GroupGraph(s, o)) <==> Cyclic(s.waitsFor)
  {
    var g, ts := s.waitsFor, GroupThreads(s, o);
    var q := GroupGraph(s, o);
    QuotientIs(ts, g);
    if Cyclic(q) {
      var x :| OnCycle(q, x);
      var w :| ClosedWalk(q, w, x);
      var v := SingleWalkLifts(q, ts, g, w);
      assert v[0] in ts[w[0]] && v[|v| - 1] in ts[w[|w| - 1]];
      assert ClosedWalk(g, v, v[0]);
      assert OnCycle(g, v[0]);
    }
    if Cyclic(g) {
      var x :| OnCycle(g, x);
      var w :| ClosedWalk(g, w, x);
      CycleInsideOneGroup(s, o, w, x, 1);
      assert w[0 + 1] in Succ(g, w[0]);
      assert w[1] != x;
      if i: nat :| InGroup(ts, i, x) && InGroup(ts, i, w[1]) {
        assert Single(ts[i]);
      }
    }
  }

  /** No two threads have a lock in common in `thread_locks`. */
  ghost predicate NothingShared(locks: LockSets) {
    forall x, y :: x != y ==> !Share(locks, x, y)
  }

  /** In every run, clean-ups included, without shared locks the group verdict is the thread verdict. */
  lemma GroupVerdictIsThreadVerdict(acts: seq<Action>, n: nat, o: Order)
    requires n <= |acts| && OrderOf(o, After(acts, n)) && NothingShared(After(acts, n).threadLocks)
    ensures Cyclic(GroupGraph(After(acts, n), o)) <==> Cyclic(After(acts, n).waitsFor)
  {
    NeverSelfEdge(acts, n);
    DisjointLocksSingle(After(acts, n), o);
    SingleVerdict(After(acts, n), o);
  }

  // ---------------------------------------------------------------- the order of the waiting threads

  /** Another order of `waits_for` only permutes the single waiting threads. */
  lemma SameGroupElsewhere(s: Tables, o: Order, o': Order, i: nat) returns (j: nat)
    requires OrderOf(o, s) && OrderOf(o', s) && o.holders == o'.holders && i < |GroupThreads(s, o)|
    ensures SameGroup(s, o, o', i, j)
  {
    var locks := s.threadLocks;
    var fs, ws, ws' := Founders(locks, o.holders), WaitingOnly(locks, o.waiters), WaitingOnly(locks, o'.waiters);
    OrdersList(s, o);
    OrdersList(s, o');
    WaitingOnlyList(locks, o.waiters);
    WaitingOnlyList(locks, o'.waiters);
    if i < |fs| {
      j := i;
      SameFounded(s, o, o', i);
    } else {
      assert ws[i - |fs|] in ws;
      hide OrderOf, Founders, WaitingOnly, Members;
      var k: nat :| k < |ws'| && ws'[k] == ws[i - |fs|];
      j := |fs| + k;
      assert GroupThreads(s, o)[i] == {ws[i - |fs|]} && GroupThreads(s, o')[j] == {ws'[k]};
    }
  }

  lemma SameFounded(s: Tables, o: Order, o': Order, i: nat)
    requires o.holders == o'.holders && i < |Founders(s.threadLocks, o.holders)|
    ensures SameGroup(s, o, o', i, i)
  {
    var fs := Founders(s.threadLocks, o.holders);
    assert GroupThreads(s, o)[i] == Members(s.threadLocks, fs, i) && GroupThreads(s, o')[i] == Members(s.threadLocks, fs, i);
  }

  lemma EdgeElsewhere(s: Tables, o: Order, o': Order, i: nat, j: nat, i': nat, j': nat)
    requires OrderOf(o, s) && OrderOf(o', s) && j in Succ(GroupGraph(s, o), i)
    requires SameGroup(s, o, o', i, i') && SameGroup(s, o, o', j, j')
    ensures j' in Succ(GroupGraph(s, o'), i')
  {
    var ts, ts' := GroupThreads(s, o), GroupThreads(s, o');
    QuotientIs(ts, s.waitsFor);
    QuotientIs(ts', s.waitsFor);
    assert CrossEdge(ts, s.waitsFor, i, j);
    DifferentGroups(s, o, i, j);
    assert CrossEdge(ts', s.waitsFor, i', j');
  }

  ghost predicate SameGroup(s: Tables, o: Order, o': Order, i: nat, j: nat) {
    i < |GroupThreads(s, o)| && j < |GroupThreads(s, o')| && GroupThreads(s, o)[i] == GroupThreads(s, o')[j]
  }

  lemma EdgeEnds(s: Tables, o: Order, i: nat, j: nat)
    requires j in Succ(GroupGraph(s, o), i)
    ensures i < |GroupThreads(s, o)| && j < |GroupThreads(s, o)|
  {
    QuotientIs(GroupThreads(s, o), s.waitsFor);
    assert CrossEdge(GroupThreads(s, o), s.waitsFor, i, j);
  }

  lemma {:induction false} WalkElsewhere(s: Tables, o: Order, o': Order, w: seq<nat>) returns (v: seq<nat>)
    requires OrderOf(o, s) && OrderOf(o', s) && o.holders == o'.holders
    requires IsWalk(GroupGraph(s, o), w) && |w| >= 2
    ensures IsWalk(GroupGraph(s, o'), v) && |v| == |w|
    ensures SameGroup(s, o, o', w[0], v[0]) && SameGroup(s, o, o', w[|w| - 1], v[|w| - 1])
    decreases |w|
  {
    var q, q' := GroupGraph(s, o), GroupGraph(s, o');
    assert w[0 + 1] in Succ(q, w[0]);
    EdgeEnds(s, o, w[0], w[1]);
    var a := SameGroupElsewhere(s, o, o', w[0]);
    hide GroupGraph, OrderOf, SameGroup;
    if |w| == 2 {
      var b := SameGroupElsewhere(s, o, o', w[1]);
      EdgeElsewhere(s, o, o', w[0], w[1], a, b);
      EdgeIsWalk(q', a, b);
      v := [a, b];
    } else {
      SliceWalk(q, w, 1, |w|);
      var rest := WalkElsewhere(s, o, o', w[1..|w|]);
      EdgeElsewhere(s, o, o', w[0], w[1], a, rest[0]);
      PrependWalk(q', a, rest);
      v := [a] + rest;
    }
  }

  lemma DifferentGroups(s: Tables, o: Order, i: nat, j: nat)
    requires OrderOf(o, s) && i < |GroupThreads(s, o)| && j < |GroupThreads(s, o)| && i != j
    ensures GroupThreads(s, o)[i] != GroupThreads(s, o)[j]
  {
    var ts := GroupThreads(s, o);
    GroupsDisjoint(s, o);
    GroupShape(s, o);
    var fs := Founders(s.threadLocks, o.holders);
    var x: Thread;
    if i < |fs| {
      x := fs[i];
    } else {
      x :| ts[i] == {x};
    }
    assert x in ts[i];
  }

  lemma GroupVerdictIgnoresWaiters(s: Tables, o: Order, o': Order)
    requires OrderOf(o, s) && OrderOf(o', s) && o.holders == o'.holders && Cyclic(GroupGraph(s, o))
    ensures Cyclic(GroupGraph(s, o'))
  {
    var i :| OnCycle(GroupGraph(s, o), i);
    var w :| ClosedWalk(GroupGraph(s, o), w, i);
    var v := WalkElsewhere(s, o, o', w);
    if v[0] != v[|w| - 1] {
      DifferentGroups(s, o', v[0], v[|w| - 1]);
    }
    assert ClosedWalk(GroupGraph(s, o'), v, v[0]);
    assert OnCycle(GroupGraph(s, o'), v[0]);
  }
}
