/** The thread-level scan that resolves as it goes: the root loop of `detect_and_resolve_deadlocks`. */
module Scans {
  import opened Graphs
  import opened State
  import opened ThreadSearch
  import opened ConflictGroups
  import opened Resolution
  import opened Reports

  // ---------------------------------------------------------------- reports of a shrinking graph

  lemma ReportOfLarger(g: WaitGraph, g0: WaitGraph, root: Thread, r: seq<Thread>,
                       visited0: set<Thread>, stack0: set<Thread>, stack: set<Thread>)
    requires EdgesKept(g, g0) && IsReport(g, root, r, visited0, stack0, stack)
    ensures IsReport(g0, root, r, visited0, stack0, stack)
  {
    forall i | 0 <= i < |r| - 1 ensures r[i + 1] in Succ(g0, r[i]) {
      assert r[i + 1] in Succ(g, r[i]);
    }
  }

  /** A walk of the graph whose last thread repeats an earlier one: the report holds a wait cycle. */
  ghost predicate HoldsCycle(g: WaitGraph, r: seq<Thread>) {
    |r| >= 2 && IsWalk(g, r) && r[|r| - 1] in Head(r)
  }

  lemma FirstHoldsCycle(g: WaitGraph, found: seq<seq<Thread>>)
    requires GoodReports(g, found) && found != []
    ensures HoldsCycle(g, found[0]) && Cyclic(g)
  {
    assert GoodReport(g, found, 0);
    var i := FirstReportHoldsCycle(g, found);
    SimpleCycleIsCyclic(g, found[0][i..|found[0]| - 1]);
  }

  lemma HoldsCycleHasKeys(g: WaitGraph, r: seq<Thread>)
    requires HoldsCycle(g, r)
    ensures forall t :: t in r ==> t in g
  {
    var i :| 0 <= i < |r| - 1 && Head(r)[i] == r[|r| - 1];
    forall k | 0 <= k < |r| ensures r[k] in g {
      assert r[i + 1] in Succ(g, r[i]);
      assert k < |r| - 1 ==> r[k + 1] in Succ(g, r[k]);
    }
  }

  /** Whoever is listed waits for somebody. */
  lemma ListedAreKeys(g: WaitGraph, found: seq<seq<Thread>>, k: nat)
    requires GoodReports(g, found) && k < |found|
    ensures forall t :: t in found[k] ==> t in g
  {
    forall t | t in found[k] ensures t in g {
      ReportedAreDoomed(g, found, k, t);
      DoomedMakesCyclic(g, t);
    }
  }

  // ---------------------------------------------------------------- what a scan guarantees

  /** `root` is the first in the order that can reach a cycle. */
  ghost predicate FirstDoomed(g: WaitGraph, roots: seq<Thread>, root: Thread) {
    exists i :: 0 <= i < |roots| && roots[i] == root && CanReachCycle(g, root)
             && forall j :: 0 <= j < i ==> !CanReachCycle(g, roots[j])
  }

  /** These reports are laid out for the call, and all of them are on record. */
  ghost predicate LaidAndKnown(c: Call, rs: seq<seq<Thread>>) {
    Laid(c.before.view.waitsFor, c.order.waiters, c.order.targets, rs) && AllKnown(c.before.records, rs)
  }

  /** Whoever lost its entry stands in the head of a report. */
  ghost predicate ErasedCovered(g0: WaitGraph, g: WaitGraph, found: seq<seq<Thread>>)
    requires forall k :: 0 <= k < |found| ==> |found[k]| >= 1
  {
    forall t :: t in g0 && t !in g ==> t in Covered(found)
  }

  /** The contract of a scan that found the reports `found`: they are the reports of one pass over the
      initial graph, there are some iff that graph is cyclic, the first starts at the first doomed
      root, the final state is what handling them in turn makes of the initial one, and known reports
      that are laid out for the scan are the ones it finds.  A scan that was not cut short by an
      exception has gone over all roots: the heads are exactly the threads that could reach a cycle at
      the start, whatever was counted, unless somebody who is not listed lost its entry, and whoever
      still can reach one at the end is among them in any case. */
  ghost predicate ScanResult(c: Call, s: Scene, found: seq<seq<Thread>>) {
    var s0, g := c.before, c.before.view.waitsFor;
    && s == Replay(c.nameOf, s0, found, c.world)
    && GoodReports(g, found)
    && (found == [] <==> !Cyclic(g))
    && (found != [] ==> FirstDoomed(g, c.order.waiters, found[0][0]))
    && (s.counter == s0.counter ==> Covered(found) == Doomed(g))
    && (s.active && ErasedCovered(g, s.view.waitsFor, found) ==> Covered(found) == Doomed(g))
    && (s.active ==> Doomed(s.view.waitsFor) <= Covered(found))
    && (forall rs :: LaidAndKnown(c, rs) ==> found == rs)
  }

  // ---------------------------------------------------------------- the root loop

  /** What the root loop keeps true. */
  ghost predicate Between(c: Call, s: Scene, found: seq<seq<Thread>>, stack: set<Thread>) {
    && s == Replay(c.nameOf, c.before, found, c.world)
    && GoodReports(c.before.view.waitsFor, found) && Covered(found) == stack
    && SelfFeeding(c.before.view.waitsFor, stack)
  }

  lemma BetweenStep(c: Call, s: Scene, found: seq<seq<Thread>>, root: Thread, r: seq<Thread>,
                    visited0: set<Thread>, stack0: set<Thread>, stack: set<Thread>)
    requires Between(c, s, found, stack0) && stack0 <= visited0
    requires IsReport(s.view.waitsFor, root, r, visited0, stack0, stack)
    ensures Between(c, Handled(c.nameOf, s, r, c.world), found + [r], stack)
  {
    hide Handled;
    var g0 := c.before.view.waitsFor;
    ReplayShrinks(c.nameOf, c.before, found, c.world);
    ReportOfLarger(s.view.waitsFor, g0, root, r, visited0, stack0, stack);
    AppendReport(g0, found, root, r, visited0, stack0, stack);
    SelfFeedingGrows(g0, root, r, visited0, stack0, stack);
    ReplayStep(c.nameOf, c.before, found, r, c.world);
  }

  /** As long as nothing was found, the roots tried so far are safe. */
  ghost predicate TriedSafe(g: WaitGraph, roots: seq<Thread>, k: int, found: seq<seq<Thread>>)
    requires 0 <= k <= |roots|
  {
    if found == [] then forall j :: 0 <= j < k ==> !CanReachCycle(g, roots[j])
    else |found[0]| >= 1 && FirstDoomed(g, roots, found[0][0])
  }

  lemma SettledIsSafe(g: WaitGraph, m: Marks, t: Thread)
    requires SettledWith(g, m) && m.stack == {} && t in m.visited
    ensures !CanReachCycle(g, t)
  {
    InElems(m.finished, t);
    var i :| 0 <= i < |m.finished| && m.finished[i] == t;
    TopologicalNotDoomed(g, m.finished, i);
  }

  /** A turn of the loop found nothing or one report from its root on. */
  ghost predicate FoundAt(root: Thread, found: seq<seq<Thread>>, found': seq<seq<Thread>>, r: seq<Thread>) {
    found' == found || (found' == found + [r] && |r| >= 2 && r[0] == root)
  }

  /** One turn of the root loop. */
  method VisitRoot(gs: GlobalState, search: Search, threadName: Thread, o: Order, world: World, ghost c: Call, ghost found0: seq<seq<Thread>>)
    returns (threw: bool, ghost found: seq<seq<Thread>>)
    requires search.Settled(gs.waitsFor) && threadName in gs.waitsFor && ListsTargets(o.targets, gs.waitsFor)
    requires c.nameOf == gs.nameOf && c.world == world && Between(c, SceneOf(gs), found0, search.stack)
    modifies gs, search
    ensures old(search.visited) + {threadName} <= search.visited
    ensures EdgesKept(gs.waitsFor, old(gs.waitsFor))
    ensures search.Settled(gs.waitsFor) && Between(c, SceneOf(gs), found, search.stack)
    ensures FoundAt(threadName, found0, found, search.cycle)
    ensures StraightIs(old(gs.waitsFor), o.targets, threadName, old(search.visited), old(search.stack),
                       found != found0, search.cycle, search.visited)
    ensures threw ==> found != found0 && PickVictim(search.cycle, world.alive).Throws? && gs.deadlockCounter > old(gs.deadlockCounter)
    ensures old(gs.monitoringActive) ==> gs.monitoringActive == !threw
  {
    hide StraightIs, SelfFeeding, Covered;
    ghost var visited0, stack0, s, g := search.visited, search.stack, SceneOf(gs), gs.waitsFor;
    threw, found := false, found0;
    var isFound := search.TryRoot(gs.waitsFor, o.targets, threadName);
    if isFound {
      BetweenStep(c, s, found0, threadName, search.cycle, visited0, stack0, search.stack);
      HandledShrinks(gs.nameOf, s, search.cycle, world);
      threw := HandleReport(gs, search.cycle, world);
      found := found0 + [search.cycle];
      TopologicalSubGraph(gs.waitsFor, g, search.finished);
    }
  }

  /** After a turn, a root without a report is safe and a root with the first report is not. */
  lemma RootVerdict(c: Call, s: Scene, found0: seq<seq<Thread>>, found: seq<seq<Thread>>, r: seq<Thread>, m: Marks, root: Thread)
    requires Between(c, s, found, m.stack) && SettledWith(s.view.waitsFor, m) && root in m.visited
    requires FoundAt(root, found0, found, r)
    ensures found == [] ==> !CanReachCycle(c.before.view.waitsFor, root)
    ensures found0 == [] && found != [] ==> CanReachCycle(c.before.view.waitsFor, root)
  {
    if found == [] {
      assert m.stack == {};
      SettledIsSafe(s.view.waitsFor, m, root);
    } else if found0 == [] {
      ReportedAreDoomed(c.before.view.waitsFor, found, 0, found[0][0]);
    }
  }

  lemma TriedOne(g0: WaitGraph, roots: seq<Thread>, k: nat, found0: seq<seq<Thread>>, found: seq<seq<Thread>>, r: seq<Thread>)
    requires k < |roots| && TriedSafe(g0, roots, k, found0) && FoundAt(roots[k], found0, found, r)
    requires found == [] ==> !CanReachCycle(g0, roots[k])
    requires found0 == [] && found != [] ==> CanReachCycle(g0, roots[k])
    ensures TriedSafe(g0, roots, k + 1, found)
  {}

  /** As long as known reports are found, nothing has changed. */
  lemma KnownChangesNothing(c: Call, s: Scene, found: seq<seq<Thread>>, stack: set<Thread>)
    requires Between(c, s, found, stack) && AllKnown(c.before.records, found)
    ensures s == c.before
  {
    ReplayGrowsIff(c.nameOf, c.before, found, c.world);
  }

  /** If known reports are laid out for the call, the loop is on their plan. */
  ghost predicate PlanKept(c: Call, rs: seq<seq<Thread>>, k: nat, found: seq<seq<Thread>>, m: Marks) {
    LaidAndKnown(c, rs) ==> OnPlan(rs, k, found, m)
  }

  lemma PlanTurn(c: Call, s: Scene, s': Scene, k: nat, found: seq<seq<Thread>>, found': seq<seq<Thread>>, r: seq<Thread>,
                 m: Marks, m': Marks, rs: seq<seq<Thread>>)
    requires k < |c.order.waiters| && PlanKept(c, rs, k, found, m)
    requires Between(c, s, found, m.stack) && Between(c, s', found', m'.stack) && FoundAt(c.order.waiters[k], found, found', r)
    requires StraightIs(s.view.waitsFor, c.order.targets, c.order.waiters[k], m.visited, m.stack, found' != found, r, m'.visited)
    ensures PlanKept(c, rs, k + 1, found', m')
  {
    if !LaidAndKnown(c, rs) {
    } else if k < |rs| {
      assert AllKnown(c.before.records, found);
      KnownChangesNothing(c, s, found, m.stack);
      AheadIsStraight(s.view.waitsFor, c.order.waiters, c.order.targets, rs, k);
      PlanAhead(c, rs, k, found, found', r, m, m');
    } else {
      assert rs[..|rs|] == rs;
      PlanBeyond(c, s', k, found, found', r, m', rs);
    }
  }

  lemma PlanAhead(c: Call, rs: seq<seq<Thread>>, k: nat, found: seq<seq<Thread>>, found': seq<seq<Thread>>, r: seq<Thread>, m: Marks, m': Marks)
    requires k < |rs| && k < |c.order.waiters| && (forall i :: 0 <= i < |rs| ==> |rs[i]| >= 1) && OnPlan(rs, k, found, m)
    requires Covered(rs[..k]) + Elems(Head(rs[k])) == Covered(rs[..k + 1])
    requires Straight(c.before.view.waitsFor, c.order.targets, c.order.waiters[k], rs[k], m.visited, m.stack)
    requires StraightIs(c.before.view.waitsFor, c.order.targets, c.order.waiters[k], m.visited, m.stack, found' != found, r, m'.visited)
    requires FoundAt(c.order.waiters[k], found, found', r)
    requires (forall i :: 0 <= i < |found'| ==> |found'[i]| >= 1) && Covered(found') == m'.stack
    ensures OnPlan(rs, k + 1, found', m')
  {
    hide Covered, Straight;
    assert found' == rs[..k] + [rs[k]] == rs[..k + 1];
  }

  lemma PlanBeyond(c: Call, s': Scene, k: nat, found: seq<seq<Thread>>, found': seq<seq<Thread>>, r: seq<Thread>, m': Marks, rs: seq<seq<Thread>>)
    requires k >= |rs| && k < |c.order.waiters| && LaidAndKnown(c, rs) && found == rs
    requires Between(c, s', found', m'.stack) && FoundAt(c.order.waiters[k], found, found', r)
    ensures OnPlan(rs, k + 1, found', m')
  {
    if found' != found {
      NothingBeyond(c.before.view.waitsFor, rs, r);
    }
  }

  lemma PlanSkip(c: Call, s: Scene, k: nat, found: seq<seq<Thread>>, m: Marks, rs: seq<seq<Thread>>)
    requires k < |c.order.waiters| && PlanKept(c, rs, k, found, m) && Between(c, s, found, m.stack)
    requires c.order.waiters[k] in c.before.view.waitsFor && c.order.waiters[k] !in s.view.waitsFor
    ensures PlanKept(c, rs, k + 1, found, m)
  {
    if LaidAndKnown(c, rs) && k <= |rs| {
      assert AllKnown(c.before.records, found);
      KnownChangesNothing(c, s, found, m.stack);
    }
  }

  /** Where the root loop stands before the k-th root. */
  ghost predicate UpTo(c: Call, s: Scene, k: nat, found: seq<seq<Thread>>, m: Marks)
    requires k <= |c.order.waiters|
  {
    && Between(c, s, found, m.stack) && SettledWith(s.view.waitsFor, m)
    && TriedSafe(c.before.view.waitsFor, c.order.waiters, k, found)
    && EdgesKept(s.view.waitsFor, c.before.view.waitsFor)
    && (forall t :: t in c.order.waiters[..k] && t in s.view.waitsFor ==> t in m.visited)
    && (forall rs :: PlanKept(c, rs, k, found, m))
  }

  lemma AtStart(c: Call)
    ensures UpTo(c, c.before, 0, [], Marks({}, {}, []))
  {
    forall rs ensures PlanKept(c, rs, 0, [], Marks({}, {}, [])) {
      assert rs[..0] == [];
    }
  }

  lemma Turn(c: Call, s: Scene, s': Scene, k: nat, found: seq<seq<Thread>>, found': seq<seq<Thread>>, r: seq<Thread>, m: Marks, m': Marks)
    requires k < |c.order.waiters| && UpTo(c, s, k, found, m)
    requires Between(c, s', found', m'.stack) && SettledWith(s'.view.waitsFor, m')
    requires m.visited + {c.order.waiters[k]} <= m'.visited && EdgesKept(s'.view.waitsFor, s.view.waitsFor)
    requires FoundAt(c.order.waiters[k], found, found', r)
    requires StraightIs(s.view.waitsFor, c.order.targets, c.order.waiters[k], m.visited, m.stack, found' != found, r, m'.visited)
    ensures UpTo(c, s', k + 1, found', m')
  {
    hide Between, SettledWith, FoundAt, StraightIs, PlanKept, TriedSafe;
    RootVerdict(c, s', found, found', r, m', c.order.waiters[k]);
    TriedOne(c.before.view.waitsFor, c.order.waiters, k, found, found', r);
    var n := k + 1;
    forall rs ensures PlanKept(c, rs, n, found', m') {
      PlanTurn(c, s, s', k, found, found', r, m, m', rs);
    }
  }

  lemma StillTried(c: Call, s: Scene, k: nat, found: seq<seq<Thread>>, m: Marks)
    requires k < |c.order.waiters| && UpTo(c, s, k, found, m)
    requires c.order.waiters[k] in c.before.view.waitsFor && c.order.waiters[k] !in s.view.waitsFor
    ensures TriedSafe(c.before.view.waitsFor, c.order.waiters, k + 1, found)
  {
    hide PlanKept, SettledWith;
    TriedOne(c.before.view.waitsFor, c.order.waiters, k, found, found, []);
  }

  lemma Skip(c: Call, s: Scene, k: nat, found: seq<seq<Thread>>, m: Marks)
    requires k < |c.order.waiters| && UpTo(c, s, k, found, m)
    requires c.order.waiters[k] in c.before.view.waitsFor && c.order.waiters[k] !in s.view.waitsFor
    ensures UpTo(c, s, k + 1, found, m)
  {
    StillTried(c, s, k, found, m);
    hide Between, SettledWith, PlanKept, TriedSafe;
    var n := k + 1;
    forall rs ensures PlanKept(c, rs, n, found, m) {
      PlanSkip(c, s, k, found, m, rs);
    }
  }

  lemma Standing(c: Call, s: Scene, k: nat, found: seq<seq<Thread>>, m: Marks)
    requires k <= |c.order.waiters| && UpTo(c, s, k, found, m) && OrderOf(c.order, c.before.view)
    ensures Between(c, s, found, m.stack) && SettledWith(s.view.waitsFor, m) && ListsTargets(c.order.targets, s.view.waitsFor)
  {}

  lemma WaiterIsKey(o: Order, s: Tables, k: nat)
    requires OrderOf(o, s) && k < |o.waiters|
    ensures o.waiters[k] in s.waitsFor
  {
    InElems(o.waiters, o.waiters[k]);
  }

  /** Finished threads were never erased, so that what they waited for at the start had finished before. */
  lemma FinishedFromStart(g0: WaitGraph, g: WaitGraph, m: Marks)
    requires EdgesKept(g, g0) && SettledWith(g, m) && forall t :: t in g0 && t !in g ==> t in m.stack
    ensures Topological(g0, m.finished)
  {
    forall i, y | 0 <= i < |m.finished| && y in Succ(g0, m.finished[i]) ensures y in m.finished[..i] {
      InElems(m.finished, m.finished[i]);
      assert y in Succ(g, m.finished[i]);
    }
  }

  /** If only covered threads were erased, the heads of the reports found are all doomed threads. */
  lemma AllCovered(c: Call, s: Scene, found: seq<seq<Thread>>, m: Marks)
    requires Between(c, s, found, m.stack) && SettledWith(s.view.waitsFor, m) && s.view.waitsFor.Keys <= m.visited
    requires EdgesKept(s.view.waitsFor, c.before.view.waitsFor) && ErasedCovered(c.before.view.waitsFor, s.view.waitsFor, found)
    ensures Covered(found) == Doomed(c.before.view.waitsFor) && (found == [] <==> !Cyclic(c.before.view.waitsFor))
  {
    var g := c.before.view.waitsFor;
    FinishedFromStart(g, s.view.waitsFor, m);
    CertificateDecides(g, m.stack, m.finished);
    assert Covered(found) == Doomed(g);
    if found != [] {
      FirstHoldsCycle(g, found);
    }
  }

  /** Whoever can reach a cycle at the end is covered. */
  lemma LeftIsCovered(c: Call, s: Scene, found: seq<seq<Thread>>, m: Marks)
    requires Between(c, s, found, m.stack) && SettledWith(s.view.waitsFor, m) && s.view.waitsFor.Keys <= m.visited
    ensures Doomed(s.view.waitsFor) <= Covered(found)
  {
    forall t | t in Doomed(s.view.waitsFor) ensures t in m.stack {
      if t !in m.stack {
        InElems(m.finished, t);
        var i :| 0 <= i < |m.finished| && m.finished[i] == t;
        TopologicalNotDoomed(s.view.waitsFor, m.finished, i);
      }
    }
  }

  lemma PlanDone(c: Call, s: Scene, found: seq<seq<Thread>>, m: Marks, rs: seq<seq<Thread>>)
    requires UpTo(c, s, |c.order.waiters|, found, m) && LaidAndKnown(c, rs)
    ensures found == rs
  {
    assert PlanKept(c, rs, |c.order.waiters|, found, m);
    assert rs[..|rs|] == rs;
  }

  lemma ScanEnds(c: Call, s: Scene, found: seq<seq<Thread>>, m: Marks)
    requires UpTo(c, s, |c.order.waiters|, found, m) && OrderOf(c.order, c.before.view)
    ensures ScanResult(c, s, found)
  {
    forall t | t in s.view.waitsFor ensures t in m.visited {
      InElems(c.order.waiters, t);
    }
    forall rs | LaidAndKnown(c, rs) ensures found == rs {
      PlanDone(c, s, found, m, rs);
    }
    hide SettledWith, LaidAndKnown, OrderOf, Covered, SelfFeeding, OnPlan, Doomed;
    ReplayGrowsIff(c.nameOf, c.before, found, c.world);
    LeftIsCovered(c, s, found, m);
    if ErasedCovered(c.before.view.waitsFor, s.view.waitsFor, found) {
      AllCovered(c, s, found, m);
    } else {
      FirstHoldsCycle(c.before.view.waitsFor, found);
    }
  }

  /** The same for a scan that an exception cut short right after it found a report. */
  lemma ScanCut(c: Call, s: Scene, k: nat, found: seq<seq<Thread>>, m: Marks)
    requires k <= |c.order.waiters| && UpTo(c, s, k, found, m) && found != [] && s.counter > c.before.counter && !s.active
    ensures ScanResult(c, s, found)
  {
    FirstHoldsCycle(c.before.view.waitsFor, found);
    forall rs | LaidAndKnown(c, rs) ensures found == rs {
      assert PlanKept(c, rs, k, found, m);
      if AllKnown(c.before.records, found) {
        KnownChangesNothing(c, s, found, m.stack);
      }
    }
  }

  lemma CounterOnlyGrows(c: Call, s: Scene, found: seq<seq<Thread>>, stack: set<Thread>)
    requires Between(c, s, found, stack)
    ensures s.counter >= c.before.counter
  {
    ReplayGrowsIff(c.nameOf, c.before, found, c.world);
  }

  /** The k-th root: skipped if its entry is gone by now. */
  method TakeTurn(gs: GlobalState, search: Search, k: nat, o: Order, world: World, ghost c: Call, ghost found0: seq<seq<Thread>>)
    returns (threw: bool, ghost found: seq<seq<Thread>>)
    requires c.nameOf == gs.nameOf && c.world == world && c.order == o && OrderOf(o, c.before.view)
    requires k < |o.waiters| && gs.monitoringActive && UpTo(c, SceneOf(gs), k, found0, search.Left())
    modifies gs, search
    ensures !threw ==> UpTo(c, SceneOf(gs), k + 1, found, search.Left())
    ensures threw ==> ScanResult(c, SceneOf(gs), found) && found != [] && PickVictim(found[|found| - 1], world.alive).Throws?
    ensures gs.monitoringActive == !threw
  {
    hide UpTo, ScanResult, Between, PickVictim, OrderOf, SettledWith, StraightIs, ListsTargets, EdgesKept;
    var threadName := o.waiters[k];
    ghost var s, m := SceneOf(gs), search.Left();
    Standing(c, s, k, found0, m);
    if threadName in gs.waitsFor {
      threw, found := VisitRoot(gs, search, threadName, o, world, c, found0);
      Turn(c, s, SceneOf(gs), k, found0, found, search.cycle, m, search.Left());
      if threw {
        CounterOnlyGrows(c, s, found0, m.stack);
        ScanCut(c, SceneOf(gs), k + 1, found, search.Left());
      }
    } else {
      threw, found := false, found0;
      WaiterIsKey(o, c.before.view, k);
      Skip(c, s, k, found, m);
    }
  }

  /** The thread-level part of `detect_and_resolve_deadlocks`.  The keys are visited in iteration
      order, those erased on the way are skipped. */
  method ScanAndResolve(gs: GlobalState, o: Order, world: World) returns (threw: bool, ghost found: seq<seq<Thread>>)
    requires gs.monitoringActive && OrderOf(o, gs.View())
    modifies gs
    ensures ScanResult(Call(gs.nameOf, old(SceneOf(gs)), o, world), SceneOf(gs), found)
    ensures threw ==> found != [] && PickVictim(found[|found| - 1], world.alive).Throws?
    ensures gs.monitoringActive == !threw
  {
    ghost var c := Call(gs.nameOf, SceneOf(gs), o, world);
    var search := new Search();
    threw, found := false, [];
    AtStart(c);
    assert c.before.view == gs.View() && search.Left() == Marks({}, {}, []);
    hide *;
    for k := 0 to |o.waiters|
      invariant fresh(search) && gs.monitoringActive
      invariant UpTo(c, SceneOf(gs), k, found, search.Left())
    {
      threw, found := TakeTurn(gs, search, k, o, world, c, found);
      if threw {
        return;
      }
    }
    threw := false;
    ScanEnds(c, SceneOf(gs), found, search.Left());
  }
}
