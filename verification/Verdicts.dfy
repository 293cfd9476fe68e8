/** When the group verdict can be trusted. */
module Verdicts {
  import opened Graphs
  import opened State
  import opened Monitoring
  import opened History
  import opened ConflictGroups
  import opened Grouping
  import opened Quotients

  // ---------------------------------------------------------------- when a group cycle means a wait cycle

  /** Some thread of another group waits for `u` of group `i`. */
  ghost predicate Entered(ts: seq<set<Thread>>, g: WaitGraph, i: nat, u: Thread) {
    InGroup(ts, i, u) && exists j: nat, t :: j != i && InGroup(ts, j, t) && u in Succ(g, t)
  }

  /** `t` of group `i` waits for some thread of another group. */
  ghost predicate Leaving(ts: seq<set<Thread>>, g: WaitGraph, i: nat, t: Thread) {
    InGroup(ts, i, t) && exists j: nat, u :: j != i && InGroup(ts, j, u) && u in Succ(g, t)
  }

  /** Inside every group, whoever is waited for from outside waits in turn for whoever waits outside. */
  ghost predicate PassesThrough(ts: seq<set<Thread>>, g: WaitGraph) {
    forall i: nat, u, t :: Entered(ts, g, i, u) && Leaving(ts, g, i, t) ==> Reaches(g, u, t)
  }

  lemma CrossingThreads(ts: seq<set<Thread>>, g: WaitGraph, i: nat, j: nat) returns (t: Thread, u: Thread)
    requires CrossEdge(ts, g, i, j)
    ensures u in Succ(g, t) && Leaving(ts, g, i, t) && Entered(ts, g, j, u)
  {
    t :| t in ts[i] && Succ(g, t) * ts[j] != {};
    u :| u in Succ(g, t) * ts[j];
    assert InGroup(ts, i, t) && InGroup(ts, j, u);
  }

  lemma {:induction false} PassingWalk(q: Graph<nat>, ts: seq<set<Thread>>, g: WaitGraph, w: seq<nat>)
    returns (t: Thread, v: Thread, u: Thread)
    requires IsQuotient(q, ts, g) && PassesThrough(ts, g) && IsWalk(q, w) && |w| >= 2
    ensures Leaving(ts, g, w[0], t) && v in Succ(g, t) && Reaches(g, v, u) && Entered(ts, g, w[|w| - 1], u)
    decreases |w|
  {
    assert w[0 + 1] in Succ(q, w[0]);
    t, v := CrossingThreads(ts, g, w[0], w[1]);
    if |w| == 2 {
      u := v;
      assert WalkFromTo(g, [v], v, v);
    } else {
      SliceWalk(q, w, 1, |w|);
      var t2, v2;
      t2, v2, u := PassingWalk(q, ts, g, w[1..|w|]);
      ReachesStep(g, t2, v2, u);
      ReachesTrans(g, v, t2, u);
    }
  }

  /** If wait chains pass through every group, a group cycle is backed by a wait cycle, shared locks
      or not. */
  lemma PassingGroupsAreSound(s: Tables, o: Order)
    requires PassesThrough(GroupThreads(s, o), s.waitsFor) && Cyclic(GroupGraph(s, o))
    ensures Cyclic(s.waitsFor)
  {
    var g, ts, q := s.waitsFor, GroupThreads(s, o), GroupGraph(s, o);
    QuotientIs(ts, g);
    var x :| OnCycle(q, x);
    var w :| ClosedWalk(q, w, x);
    var t, v, u := PassingWalk(q, ts, g, w);
    ReachesTrans(g, v, u, t);
    var p :| WalkFromTo(g, p, v, t);
    PrependWalk(g, t, p);
    assert ClosedWalk(g, [t] + p, t);
    assert OnCycle(g, t);
  }

  // ---------------------------------------------------------------- the exact condition on the locks

  /** Every group cycle over these lock sets, whatever the wait graph and the iteration order, is
      backed by a wait cycle. */
  ghost predicate VerdictSound(locks: LockSets) {
    forall s: Tables, o: Order ::
      OrderOf(o, s) && s.threadLocks == locks && NoSelfEdges(s.waitsFor) && Cyclic(GroupGraph(s, o)) ==>
      Cyclic(s.waitsFor)
  }

  lemma {:induction false} LongerThanAll(names: set<string>) returns (n: nat)
    ensures forall s :: s in names ==> |s| < n
  {
    n := 0;
    if names != {} {
      var s :| s in names;
      var m := LongerThanAll(names - {s});
      n := m + |s| + 1;
    }
  }

  lemma {:induction false} FirstFounds(locks: LockSets, order: seq<Thread>)
    requires order != []
    ensures Founders(locks, order) != [] && Founders(locks, order)[0] == order[0]
  {
    var n := |order| - 1;
    if n > 0 {
      FirstFounds(locks, order[..n]);
    }
  }

  /** Two threads that share a lock are in one group if one of them comes first in the order. */
  lemma SharersGrouped(s: Tables, o: Order, x: Thread, y: Thread)
    requires OrderOf(o, s) && Share(s.threadLocks, x, y) && o.holders != [] && o.holders[0] == x
    ensures InGroup(GroupThreads(s, o), 0, x) && InGroup(GroupThreads(s, o), 0, y)
  {
    FirstFounds(s.threadLocks, o.holders);
    var fs := Founders(s.threadLocks, o.holders);
    assert GroupThreads(s, o)[0] == Members(s.threadLocks, fs, 0);
  }

  lemma OutsideFirst(s: Tables, o: Order, x: Thread, r: Thread)
    requires OrderOf(o, s) && o.holders != [] && o.holders[0] == x && !Joins(s.threadLocks, x, r)
    ensures !InGroup(GroupThreads(s, o), 0, r)
  {
    FirstFounds(s.threadLocks, o.holders);
    assert GroupThreads(s, o)[0] == Members(s.threadLocks, Founders(s.threadLocks, o.holders), 0);
  }

  /** A chain through a thread outside makes a group cycle of any group with two threads. */
  lemma ChainFoolsGroups(s: Tables, o: Order, x: Thread, r: Thread, y: Thread)
    requires OrderOf(o, s) && Share(s.threadLocks, x, y) && o.holders != [] && o.holders[0] == x
    requires r in Succ(s.waitsFor, x) && y in Succ(s.waitsFor, r) && !Joins(s.threadLocks, x, r)
    ensures Cyclic(GroupGraph(s, o))
  {
    var ts, g := GroupThreads(s, o), s.waitsFor;
    QuotientIs(ts, g);
    SharersGrouped(s, o, x, y);
    GroupsCover(s, o, r);
    var j: nat :| InGroup(ts, j, r);
    OutsideFirst(s, o, x, r);
    hide GroupThreads, Share, Joins, OrderOf;
    EdgeDescends(ts, g, x, r, 0, j);
    EdgeDescends(ts, g, r, y, j, 0);
    BackAndForth(GroupGraph(s, o), 0, j);
  }

  lemma ChainIsAcyclic(x: Thread, r: Thread, y: Thread)
    requires x != r && r != y && x != y
    ensures !Cyclic(map[x := {r}, r := {y}]) && NoSelfEdges(map[x := {r}, r := {y}])
  {
    var g: WaitGraph := map[x := {r}, r := {y}];
    var order := [y, r, x];
    assert order[..1] == [y] && order[..2] == [y, r];
    assert Succ(g, y) == {} && Succ(g, r) == {y} && Succ(g, x) == {r};
    assert Topological(g, order);
    CertificateDecides(g, {}, order);
  }

  /** A chain from `x` over `r` to `y` refutes soundness. */
  lemma ChainRefutes(locks: LockSets, x: Thread, r: Thread, y: Thread) returns (s: Tables, o: Order)
    requires x != y && Share(locks, x, y) && !Joins(locks, x, r)
    ensures OrderOf(o, s) && s.threadLocks == locks && s.waitsFor == map[x := {r}, r := {y}] && NoSelfEdges(s.waitsFor)
    ensures Cyclic(GroupGraph(s, o)) && !Cyclic(s.waitsFor)
  {
    s := Tables(map[], locks, map[x := {r}, r := {y}], map[], map[]);
    var holders := EnumerateFirst(locks.Keys, x);
    var waiters := EnumerateSet(s.waitsFor.Keys);
    var targets := ListTargets(s.waitsFor, map[]);
    o := Order(holders, waiters, targets);
    ChainFoolsGroups(s, o, x, r, y);
    ChainIsAcyclic(x, r, y);
  }

  lemma NothingSharedIsSound(locks: LockSets)
    requires NothingShared(locks)
    ensures VerdictSound(locks)
  {
    forall s: Tables, o: Order | OrderOf(o, s) && s.threadLocks == locks && NoSelfEdges(s.waitsFor) && Cyclic(GroupGraph(s, o))
      ensures Cyclic(s.waitsFor)
    {
      DisjointLocksSingle(s, o);
      SingleVerdict(s, o);
    }
  }

  /** The group verdict can be trusted for every wait graph and order exactly when no two threads
      have a lock in common. */
  lemma VerdictSoundIff(locks: LockSets)
    ensures VerdictSound(locks) <==> NothingShared(locks)
  {
    if NothingShared(locks) {
      NothingSharedIsSound(locks);
    } else {
      var x, y :| x != y && Share(locks, x, y);
      var n := LongerThanAll(locks.Keys);
      var r := seq(n, _ => 'r');
      var s, o := ChainRefutes(locks, x, r, y);
    }
  }

  // ---------------------------------------------------------------- the same where targets are listed

  /** Whoever is waited for has an entry in `thread_locks`. */
  ghost predicate TargetsListed(s: Tables) {
    forall t, u :: u in Succ(s.waitsFor, t) ==> u in s.threadLocks
  }

  ghost predicate AllShared(locks: LockSets) {
    forall x, y :: x in locks && y in locks && x != y ==> Share(locks, x, y)
  }

  /** All lock holders share a lock with each other, and only lock holders are waited for. */
  ghost predicate OneGroup(s: Tables) {
    AllShared(s.threadLocks) && TargetsListed(s)
  }

  lemma HolderGroup(s: Tables, o: Order, i: nat, t: Thread)
    requires OrderOf(o, s) && InGroup(GroupThreads(s, o), i, t) && t in s.threadLocks
    ensures i < |Founders(s.threadLocks, o.holders)|
  {
    GroupShape(s, o);
  }

  lemma HoldersOneGroup(s: Tables, o: Order, i: nat, t: Thread, j: nat, u: Thread)
    requires OrderOf(o, s) && AllShared(s.threadLocks) && t in s.threadLocks && u in s.threadLocks
    requires InGroup(GroupThreads(s, o), i, t) && InGroup(GroupThreads(s, o), j, u)
    ensures i == j
  {
    HolderGroup(s, o, i, t);
    HolderGroup(s, o, j, u);
    FoundersIndependent(s.threadLocks, o.holders);
    OrdersList(s, o);
    var fs := Founders(s.threadLocks, o.holders);
    assert fs[i] in fs && fs[j] in fs;
    assert Joins(s.threadLocks, fs[i], fs[j]) && Joins(s.threadLocks, fs[j], fs[i]);
  }

  /** Then the group graph has no cycle, and the thread-level scan runs. */
  lemma OneGroupIsAcyclic(s: Tables, o: Order)
    requires OrderOf(o, s) && OneGroup(s)
    ensures !Cyclic(GroupGraph(s, o))
  {
    var ts, g, q := GroupThreads(s, o), s.waitsFor, GroupGraph(s, o);
    QuotientIs(ts, g);
    if Cyclic(q) {
      var i :| OnCycle(q, i);
      var w :| ClosedWalk(q, w, i);
      var n := |w| - 1;
      assert w[0 + 1] in Succ(q, w[0]) && w[n - 1 + 1] in Succ(q, w[n - 1]);
      var t, u := CrossingThreads(ts, g, w[0], w[1]);
      var t', u' := CrossingThreads(ts, g, w[n - 1], w[n]);
      HoldersOneGroup(s, o, w[1], u, w[n], u');
    }
  }

  /** Soundness over the states in which every thread that is waited for is listed. */
  ghost predicate ListedVerdictSound(locks: LockSets) {
    forall s: Tables, o: Order ::
      OrderOf(o, s) && s.threadLocks == locks && NoSelfEdges(s.waitsFor) && TargetsListed(s) && Cyclic(GroupGraph(s, o)) ==>
      Cyclic(s.waitsFor)
  }

  /** There the verdict can also be trusted if all lock holders share a lock with each other, and in
      no other case. */
  lemma ListedVerdictSoundIff(locks: LockSets)
    ensures ListedVerdictSound(locks) <==> NothingShared(locks) || AllShared(locks)
  {
    if NothingShared(locks) {
      NothingSharedIsSound(locks);
    } else if AllShared(locks) {
      forall s: Tables, o: Order | OrderOf(o, s) && s.threadLocks == locks && TargetsListed(s) ensures !Cyclic(GroupGraph(s, o)) {
        OneGroupIsAcyclic(s, o);
      }
    } else {
      var x, r, y := Outsider(locks);
      var s, o := ChainRefutes(locks, x, r, y);
      assert TargetsListed(s);
    }
  }

  /** Someone shares a lock with one thread and none with another. */
  lemma Outsider(locks: LockSets) returns (x: Thread, r: Thread, y: Thread)
    requires !NothingShared(locks) && !AllShared(locks)
    ensures x != y && Share(locks, x, y) && r in locks && !Joins(locks, x, r)
  {
    var u, v :| u != v && Share(locks, u, v);
    if r' :| r' in locks && !Joins(locks, u, r') {
      return u, r', v;
    }
    var p, q :| p in locks && q in locks && p != q && !Share(locks, p, q);
    assert Joins(locks, u, p) && Joins(locks, u, q);
    x, r, y := p, q, u;
    assert Share(locks, p, u) && !Joins(locks, p, q);
  }

  // ---------------------------------------------------------------- the same over runs of events

  /** Every group cycle after a run of events that leaves these lock sets is backed by a wait cycle. */
  ghost predicate RunVerdictSound(locks: LockSets) {
    forall h, o :: OrderOf(o, Run(h)) && Run(h).threadLocks == locks && Cyclic(GroupGraph(Run(h), o)) ==> Cyclic(Run(h).waitsFor)
  }

  /** The lock sets that runs of events can leave: no empty ones, and no addresses that are junk. */
  ghost predicate Attainable(locks: LockSets) {
    forall t :: t in locks ==> locks[t] != {} && forall a :: a in locks[t] ==> !Junk(a)
  }

  lemma {:induction false} RunIsAttainable(h: seq<Event>)
    ensures Attainable(Run(h).threadLocks)
  {
    if h != [] {
      RunIsAttainable(h[..|h| - 1]);
    }
  }

  lemma RunMore(h: seq<Event>, e: Event)
    ensures Run(h + [e]) == Step(Run(h), e)
  {
    assert (h + [e])[..|h|] == h;
  }

  /** The run of `h` leaves these lock sets and no wait. */
  ghost predicate Leaves(h: seq<Event>, locks: LockSets) {
    Run(h).threadLocks == locks && Run(h).waitsFor == map[]
  }

  function Plus(locks: LockSets, t: Thread, more: set<Addr>): LockSets {
    locks[t := (if t in locks then locks[t] else {}) + more]
  }

  lemma PlusTwice(locks: LockSets, t: Thread, a: set<Addr>, b: set<Addr>)
    ensures Plus(Plus(locks, t, a), t, b) == Plus(locks, t, a + b)
  {
    var held := if t in locks then locks[t] else {};
    assert held + a + b == held + (a + b);
  }

  lemma PlusHeld(locks: LockSets, t: Thread, more: set<Addr>)
    requires t in locks && more <= locks[t]
    ensures Plus(locks, t, more) == locks
  {
    assert locks[t] + more == locks[t];
  }

  lemma WakesOn(h: seq<Event>, locks: LockSets, t: Thread, a: Addr)
    requires Leaves(h, locks) && !Junk(a)
    ensures Leaves(h + [Wake(t, a)], Plus(locks, t, {a}))
    ensures Run(h + [Wake(t, a)]).lockOwners == Run(h).lockOwners[a := t]
  {
    RunMore(h, Wake(t, a));
    assert WithoutTarget(map[], t) == map[];
  }

  lemma {:induction false} TakeLocks(h: seq<Event>, locks: LockSets, t: Thread, more: set<Addr>) returns (h': seq<Event>)
    requires Leaves(h, locks) && more != {} && forall a :: a in more ==> !Junk(a)
    ensures Leaves(h', Plus(locks, t, more))
    decreases more
  {
    var a :| a in more;
    WakesOn(h, locks, t, a);
    h' := h + [Wake(t, a)];
    if more == {a} {
      assert {a} + (more - {a}) == more;
    } else {
      h' := TakeLocks(h', Plus(locks, t, {a}), t, more - {a});
      PlusTwice(locks, t, {a}, more - {a});
      assert {a} + (more - {a}) == more;
    }
  }

  lemma {:induction false} TakeAll(locks: LockSets) returns (h: seq<Event>)
    requires Attainable(locks)
    ensures Leaves(h, locks)
    decreases locks.Keys
  {
    h := [];
    if t :| t in locks {
      h := TakeAll(locks - {t});
      h := TakeLocks(h, locks - {t}, t, locks[t]);
      assert {} + locks[t] == locks[t];
      assert Plus(locks - {t}, t, locks[t]) == locks;
    } else {
      assert locks == map[];
    }
  }

  /** x queues for r and r for y. */
  lemma ChainForms(h: seq<Event>, x: Thread, r: Thread, y: Thread, m: Addr, l: Addr)
    requires Run(h).waitsFor == map[] && x != r && r != y && !Junk(m) && !Junk(l)
    requires m in Run(h).lockOwners && Run(h).lockOwners[m] == r && l in Run(h).lockOwners && Run(h).lockOwners[l] == y
    ensures var h' := h + [Wait(x, m)] + [Wait(r, l)];
      Run(h').threadLocks == Run(h).threadLocks && Run(h').waitsFor == map[x := {r}, r := {y}]
  {
    RunMore(h, Wait(x, m));
    RunMore(h + [Wait(x, m)], Wait(r, l));
    assert {} + {r} == {r} && {} + {y} == {y};
  }

  /** r and y take their locks once more before that. */
  lemma ChainRun(locks: LockSets, x: Thread, r: Thread, y: Thread) returns (h: seq<Event>)
    requires Attainable(locks) && x != y && Share(locks, x, y) && r in locks && !Joins(locks, x, r)
    ensures Run(h).threadLocks == locks && Run(h).waitsFor == map[x := {r}, r := {y}]
  {
    h := TakeAll(locks);
    var m :| m in locks[r];
    var l :| l in locks[x] && l in locks[y];
    assert m != l;
    hide Run, Step;
    WakesOn(h, locks, r, m);
    PlusHeld(locks, r, {m});
    h := h + [Wake(r, m)];
    WakesOn(h, locks, y, l);
    PlusHeld(locks, y, {l});
    h := h + [Wake(y, l)];
    ChainForms(h, x, r, y, m, l);
    h := h + [Wait(x, m)] + [Wait(r, l)];
  }

  lemma RunHasNoSelfEdges(h: seq<Event>)
    ensures NoSelfEdges(Run(h).waitsFor)
  {
    assert h[..|h|] == h;
    forall t | t in Run(h).waitsFor ensures t !in Run(h).waitsFor[t] {
      EdgeHistory(h, |h|, t, t);
    }
  }

  lemma ListedSoundOverRuns(locks: LockSets)
    requires ListedVerdictSound(locks)
    ensures RunVerdictSound(locks)
  {
    forall h, o | OrderOf(o, Run(h)) && Run(h).threadLocks == locks && Cyclic(GroupGraph(Run(h), o)) ensures Cyclic(Run(h).waitsFor) {
      HoldersAreListed(h);
      RunHasNoSelfEdges(h);
    }
  }

  /** Over the runs of events that leave given lock sets, every group cycle is backed by a wait cycle
      exactly when no two threads have a lock in common, or every two have, or no run leaves them. */
  lemma RunVerdictSoundIff(locks: LockSets)
    ensures RunVerdictSound(locks) <==> NothingShared(locks) || AllShared(locks) || !Attainable(locks)
  {
    ListedVerdictSoundIff(locks);
    if NothingShared(locks) || AllShared(locks) {
      ListedSoundOverRuns(locks);
    } else if Attainable(locks) {
      var x, r, y := Outsider(locks);
      var h := ChainRun(locks, x, r, y);
      var holders := EnumerateFirst(locks.Keys, x);
      var waiters := EnumerateSet(Run(h).waitsFor.Keys);
      var targets := ListTargets(Run(h).waitsFor, map[]);
      var o := Order(holders, waiters, targets);
      ChainFoolsGroups(Run(h), o, x, r, y);
      ChainIsAcyclic(x, r, y);
      assert OrderOf(o, Run(h));
    } else {
      forall h ensures Run(h).threadLocks != locks {
        RunIsAttainable(h);
      }
    }
  }

  // ---------------------------------------------------------------- states with nothing to find

  /** Neither detector has anything to find, whatever the order. */
  ghost predicate Calm(s: Tables) {
    !Cyclic(s.waitsFor) && forall o :: OrderOf(o, s) ==> !Cyclic(GroupGraph(s, o))
  }

  /** Group edges leave the groups of waiting threads only. */
  lemma OneWaiterIsCalm(s: Tables, t: Thread)
    requires s.waitsFor.Keys <= {t} && NoSelfEdges(s.waitsFor)
    ensures Calm(s)
  {
    var g := s.waitsFor;
    var rest := EnumerateSet(Succ(g, t));
    InElems(rest, t);
    TopologicalAppend(g, rest, t) by {
      assert forall i :: 0 <= i < |rest| ==> rest[i] in Elems(rest);
    }
    CertificateDecides(g, {}, rest + [t]) by {
      assert Elems(rest + [t]) == Elems(rest) + {t};
    }
    forall o | OrderOf(o, s) ensures !Cyclic(GroupGraph(s, o)) {
      OneGroupWaits(s, o, t);
    }
  }

  lemma OneGroupWaits(s: Tables, o: Order, t: Thread)
    requires OrderOf(o, s) && s.waitsFor.Keys <= {t}
    ensures !Cyclic(GroupGraph(s, o))
  {
    var ts, g, q := GroupThreads(s, o), s.waitsFor, GroupGraph(s, o);
    QuotientIs(ts, g);
    GroupsDisjoint(s, o);
    if Cyclic(q) {
      var i :| OnCycle(q, i);
      var w :| ClosedWalk(q, w, i);
      assert w[0 + 1] in Succ(q, w[0]);
      var t1, u1 := CrossingThreads(ts, g, w[0], w[1]);
      var t2 := LeavesEveryGroup(ts, g, q, w, 1);
    }
  }

  /** Each group of a closed walk has a waiting thread. */
  lemma LeavesEveryGroup(ts: seq<set<Thread>>, g: WaitGraph, q: Graph<nat>, w: seq<nat>, k: nat) returns (t: Thread)
    requires IsQuotient(q, ts, g) && |w| >= 2 && IsWalk(q, w) && w[0] == w[|w| - 1] && k < |w|
    ensures t in g && InGroup(ts, w[k], t)
  {
    var i := if k == |w| - 1 then 0 else k;
    assert w[i + 1] in Succ(q, w[i]);
    var u;
    t, u := CrossingThreads(ts, g, w[i], w[i + 1]);
  }

  lemma OneGroupIsCalm(s: Tables)
    requires OneGroup(s) && !Cyclic(s.waitsFor)
    ensures Calm(s)
  {
    forall o | OrderOf(o, s) ensures !Cyclic(GroupGraph(s, o)) {
      OneGroupIsAcyclic(s, o);
    }
  }
}
