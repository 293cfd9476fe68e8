/** A deadlock that forms a second time: the record of the first hides it. */
module Recurrence {
  import opened Graphs
  import opened Identifiers
  import opened State
  import opened Monitoring
  import opened ThreadSearch
  import opened ConflictGroups
  import opened GroupDeadlocks
  import opened Verdicts
  import opened Resolution
  import opened Reports
  import opened Scans
  import opened Traces
  import opened Scripts

  ghost predicate ThreeLocks(k: Addr, a: Addr, b: Addr) {
    !Junk(k) && !Junk(a) && !Junk(b) && k != a && k != b && a != b
  }

  /** Two threads use the common lock `k`, take a lock each and queue for the other's; afterwards `x`
      takes both its locks again and they queue once more. */
  function TwiceScript(x: Thread, y: Thread, k: Addr, a: Addr, b: Addr): seq<Event> {
    [Wake(x, k), Wake(y, k), Wake(x, a), Wake(y, b), Wait(x, b), Wait(y, a),
     Wake(x, k), Wake(x, a), Wait(y, a), Wait(x, b)]
  }

  ghost predicate PlaysTwice(tr: Trail, x: Thread, y: Thread, k: Addr, a: Addr, b: Addr) {
    x != y && ThreeLocks(k, a, b) && Plays(tr, TwiceScript(x, y, k, a, b))
  }

  /** The deadlock of two threads in one group. */
  ghost predicate TwoRing(s: Tables, x: Thread, y: Thread, k: Addr, a: Addr, b: Addr) {
    && s.lockOwners.Keys == {k, a, b} && s.threadLocks.Keys == s.waitsFor.Keys == {x, y} && Waiters(s, k) == []
    && Owning(s, x, k, a) && Owning(s, y, k, b) && WaitsOn(s, x, y, b) && WaitsOn(s, y, x, a)
  }

  // ---------------------------------------------------------------- up to the first ring

  lemma SharedByTwo(tr: Trail, x: Thread, y: Thread, k: Addr, a: Addr, b: Addr)
    requires PlaysTwice(tr, x, y, k, a, b)
    ensures |tr.scenes| == 11
    ensures var s := tr.scenes[2].view;
      && Unreported(tr.scenes[2])
      && Still(s) && s.lockOwners.Keys == {k} && s.threadLocks.Keys == {x, y} && k in LocksOf(s, x) && k in LocksOf(s, y)
  {
    var script := TwiceScript(x, y, k, a, b);
    hide Plays, Still, Owns, LocksOf, Junk, OwnersListed, Unreported;
    BeforeTheFirst(tr, script);
    TakesTurn(tr, script, 0, x, k);
    TakesTurn(tr, script, 1, y, k);
  }

  lemma TwoOwners(tr: Trail, x: Thread, y: Thread, k: Addr, a: Addr, b: Addr)
    requires PlaysTwice(tr, x, y, k, a, b)
    ensures |tr.scenes| == 11
    ensures var s := tr.scenes[4].view;
      && Unreported(tr.scenes[4])
      && Still(s) && s.lockOwners.Keys == {k, a, b} && s.threadLocks.Keys == {x, y}
      && Owning(s, x, k, a) && Owning(s, y, k, b)
  {
    var script := TwiceScript(x, y, k, a, b);
    hide Plays, Still, Owns, LocksOf, Junk, OwnersListed, Unreported;
    SharedByTwo(tr, x, y, k, a, b);
    TakesTurn(tr, script, 2, x, a);
    TakesTurn(tr, script, 3, y, b);
  }

  /** `x` queues for the lock of `y`, and that is all. */
  ghost predicate OneWaits(s: Tables, x: Thread, y: Thread, k: Addr, a: Addr, b: Addr) {
    && s.waitsFor == map[x := {y}] && s.lockOwners.Keys == {k, a, b} && s.threadLocks.Keys == {x, y}
    && Owning(s, x, k, a) && Owning(s, y, k, b) && WaitsOn(s, x, y, b) && Waiters(s, k) == Waiters(s, a) == []
  }

  lemma FirstQueues(s: Tables, x: Thread, y: Thread, k: Addr, a: Addr, b: Addr)
    requires x != y && ThreeLocks(k, a, b) && Still(s) && s.lockOwners.Keys == {k, a, b} && s.threadLocks.Keys == {x, y}
    requires Owning(s, x, k, a) && Owning(s, y, k, b)
    ensures OneWaits(Step(s, Wait(x, b)), x, y, k, a, b) && Calm(Step(s, Wait(x, b)))
  {
    assert Waiters(s, k) == Waiters(s, a) == Waiters(s, b) == [];
    assert s.waitsFor == map[];
    hide Step, Owns, WaitsOn, Waiters, Still, Calm, Junk, LocksOf;
    QueuesUp(s, x, b, y);
    SameLocks(s, Step(s, Wait(x, b)));
    OneWaiterIsCalm(Step(s, Wait(x, b)), x);
  }

  lemma OneQueues(tr: Trail, x: Thread, y: Thread, k: Addr, a: Addr, b: Addr)
    requires PlaysTwice(tr, x, y, k, a, b)
    ensures |tr.scenes| == 11 && Unreported(tr.scenes[5]) && OneWaits(tr.scenes[5].view, x, y, k, a, b)
  {
    var script := TwiceScript(x, y, k, a, b);
    hide Step, Plays, Owning, Still, OwnersListed, Unreported, Calm, OneWaits, ThreeLocks;
    TwoOwners(tr, x, y, k, a, b);
    FirstQueues(tr.scenes[4].view, x, y, k, a, b);
    CalmTurn(tr, script, 4);
  }

  lemma FirstRing(tr: Trail, x: Thread, y: Thread, k: Addr, a: Addr, b: Addr)
    requires PlaysTwice(tr, x, y, k, a, b)
    ensures |tr.scenes| == 11 && Unreported(tr.scenes[5]) && TwoRing(Step(tr.scenes[5].view, Wait(y, a)), x, y, k, a, b)
  {
    hide Step, Plays, Owns, WaitsOn, Waiters, Unreported, Junk, LocksOf;
    OneQueues(tr, x, y, k, a, b);
    var s := tr.scenes[5].view;
    QueuesUp(s, y, a, x);
    SameLocks(s, Step(s, Wait(y, a)));
  }

  // ---------------------------------------------------------------- up to the second

  /** Without `x`, who is still waited for. */
  ghost predicate OnlyOther(s: Tables, x: Thread, y: Thread, k: Addr, a: Addr, b: Addr) {
    && s.lockOwners.Keys == {k, b} && s.threadLocks.Keys == {y} && s.waitsFor == map[y := {x}]
    && Owning(s, y, k, b) && Waiters(s, k) == Waiters(s, b) == [] && Waiters(s, a) == [y]
    && forall q :: q in s.futexWaiters ==> x !in s.futexWaiters[q]
  }

  lemma WithoutEnd(q: seq<Thread>, t: Thread, u: Thread)
    ensures Without([], t) == [] && Without([t], t) == [] && (u != t ==> Without([u], t) == [u])
  {
    assert [t][..0] == [] && [u][..0] == [];
  }

  lemma RingCleaned(s: Tables, x: Thread, y: Thread, k: Addr, a: Addr, b: Addr)
    requires x != y && ThreeLocks(k, a, b) && TwoRing(s, x, y, k, a, b)
    ensures OnlyOther(CleanedUp(s, x, {a, b}), x, y, k, a, b)
  {
    var s' := CleanedUp(s, x, {a, b});
    WithoutEnd([], x, y);
    forall q | q in s'.futexWaiters ensures x !in s'.futexWaiters[q] {
      WithoutGone(s.futexWaiters[q], x);
    }
  }

  /** `y` still waits, for nobody any more, while `x` takes locks that `y` may be queueing for. */
  ghost predicate Resumed(s: Tables, x: Thread, y: Thread, k: Addr, b: Addr) {
    && s.threadLocks.Keys == {x, y} && k in LocksOf(s, x) && Owning(s, y, k, b)
    && s.waitsFor == map[y := {}] && Waiters(s, k) == Waiters(s, b) == []
    && forall q :: q in s.futexWaiters ==> x !in s.futexWaiters[q]
  }

  lemma TargetGone(x: Thread, y: Thread)
    ensures WithoutTarget(map[y := {x}], x) == map[y := {}] && WithoutTarget(map[y := {}], x) == map[y := {}]
  {
    var none: set<Thread> := {};
    assert {x} - {x} == none && none - {x} == none;
  }

  lemma ResumesWithShared(s: Tables, x: Thread, y: Thread, k: Addr, a: Addr, b: Addr)
    requires x != y && ThreeLocks(k, a, b) && OnlyOther(s, x, y, k, a, b)
    ensures Resumed(Step(s, Wake(x, k)), x, y, k, b) && Step(s, Wake(x, k)).lockOwners.Keys == {k, b}
  {
    AcquireStep(s, x, k);
    TargetGone(x, y);
  }

  lemma ResumesWithOwn(s: Tables, x: Thread, y: Thread, k: Addr, a: Addr, b: Addr)
    requires x != y && ThreeLocks(k, a, b) && Resumed(s, x, y, k, b) && s.lockOwners.Keys == {k, b}
    ensures var s' := Step(s, Wake(x, a));
      Resumed(s', x, y, k, b) && s'.lockOwners.Keys == {k, a, b} && Owning(s', x, k, a) && Waiters(s', a) == []
  {
    AcquireStep(s, x, a);
    TargetGone(x, y);
  }

  lemma WaitsAgain(s: Tables, x: Thread, y: Thread, k: Addr, a: Addr, b: Addr)
    requires x != y && ThreeLocks(k, a, b) && Resumed(s, x, y, k, b)
    requires s.lockOwners.Keys == {k, a, b} && Owning(s, x, k, a) && Waiters(s, a) == []
    ensures Calm(Step(s, Wait(y, a)))
    ensures TwoRing(Step(Step(s, Wait(y, a)), Wait(x, b)), x, y, k, a, b)
  {
    assert Succ(s.waitsFor, y) == {};
    hide Step, Owns, WaitsOn, Waiters, Calm;
    QueuesUp(s, y, a, x);
    OneWaiterIsCalm(Step(s, Wait(y, a)), y);
    assert Succ(Step(s, Wait(y, a)).waitsFor, x) == {};
    QueuesUp(Step(s, Wait(y, a)), x, b, y);
  }

  lemma ResumedIsCalm(s: Tables, x: Thread, y: Thread, k: Addr, b: Addr)
    requires Resumed(s, x, y, k, b)
    ensures Calm(s)
  {
    OneWaiterIsCalm(s, y);
  }

  /** One report on record, and monitoring on. */
  ghost predicate OnRecordOnce(s: Scene, r: seq<Thread>) {
    s.active && |s.records| == 1 && s.records[0].cycle == r && s.counter == 1
  }

  lemma SecondRing(tr: Trail, x: Thread, y: Thread, k: Addr, a: Addr, b: Addr)
    requires PlaysTwice(tr, x, y, k, a, b) && |tr.scenes| == 11
    requires OnlyOther(tr.scenes[6].view, x, y, k, a, b) && OnRecordOnce(tr.scenes[6], [x, y, x])
    ensures OnRecordOnce(tr.scenes[9], [x, y, x]) && TwoRing(Step(tr.scenes[9].view, Wait(x, b)), x, y, k, a, b)
  {
    var script := TwiceScript(x, y, k, a, b);
    hide Plays, Step, Calm, TwoRing, ThreeLocks, Owning, OnlyOther, Resumed, Unreported, OwnersListed;
    ResumesWithShared(tr.scenes[6].view, x, y, k, a, b);
    ResumedIsCalm(Step(tr.scenes[6].view, Wake(x, k)), x, y, k, b);
    CalmTurn(tr, script, 6);
    ResumesWithOwn(tr.scenes[7].view, x, y, k, a, b);
    ResumedIsCalm(Step(tr.scenes[7].view, Wake(x, a)), x, y, k, b);
    CalmTurn(tr, script, 7);
    WaitsAgain(tr.scenes[8].view, x, y, k, a, b);
    CalmTurn(tr, script, 8);
  }

  // ---------------------------------------------------------------- a call on the ring

  ghost predicate TwoEdges(g: WaitGraph, x: Thread, y: Thread) {
    g.Keys == {x, y} && g[x] == {y} && g[y] == {x}
  }

  lemma TwoReport(g: WaitGraph, x: Thread, y: Thread, r: seq<Thread>)
    requires x != y && TwoEdges(g, x, y) && HoldsCycle(g, r) && Distinct(Head(r)) && r[0] == x
    ensures r == [x, y, x]
  {
    var h := Head(r);
    assert forall i :: 0 <= i < |h| ==> h[i] == r[i];
    assert r[0 + 1] in Succ(g, r[0]);
    assert |r| > 2;
    assert r[1 + 1] in Succ(g, r[1]);
    assert r[2] == r[0];
  }

  lemma RingIsDoomed(g: WaitGraph, x: Thread, y: Thread)
    requires TwoEdges(g, x, y)
    ensures CanReachCycle(g, x) && Cyclic(g)
  {
    BackAndForth(g, x, y);
    assert WalkFromTo(g, [x], x, x);
    assert Reaches(g, x, x);
  }

  /** The scan of a ring reports it once, from the first root on. */
  lemma TwoFound(c: Call, s': Scene, found: seq<seq<Thread>>, x: Thread, y: Thread)
    requires x != y && TwoEdges(c.before.view.waitsFor, x, y) && c.order.waiters != [] && c.order.waiters[0] == x
    requires ScanResult(c, s', found)
    ensures found == [[x, y, x]] && s' == Handled(c.nameOf, c.before, [x, y, x], c.world)
  {
    var g := c.before.view.waitsFor;
    RingIsDoomed(g, x, y);
    assert found[0][0] == x;
    assert GoodReport(g, found, 0);
    FirstHoldsCycle(g, found);
    TwoReport(g, x, y, found[0]);
    assert Head([x, y, x]) == [x, y];
    OneReportOnly(g, found);
    ReplayOne(c.nameOf, c.before, [x, y, x], c.world);
  }

  lemma RingInOneGroup(s: Tables, x: Thread, y: Thread, k: Addr, a: Addr, b: Addr)
    requires TwoRing(s, x, y, k, a, b)
    ensures OneGroup(s) && TwoEdges(s.waitsFor, x, y)
  {
    forall t, u | t in s.threadLocks && u in s.threadLocks ensures SharesLock(s.threadLocks[t], s.threadLocks[u]) {
      assert k in s.threadLocks[t] && k in s.threadLocks[u];
    }
  }

  /** The report of the ring names the two locks that close it. */
  lemma BothLocksNamed(s: Tables, x: Thread, y: Thread, k: Addr, a: Addr, b: Addr)
    requires x != y && ThreeLocks(k, a, b) && TwoRing(s, x, y, k, a, b)
    ensures LocksNamed(s, [x, y, x]) == {a, b}
  {
    var r := [x, y, x];
    NextIndex(0, 3);
    NextIndex(1, 3);
    NextIndex(2, 3);
    assert LockBetween(s, r, 0, a) && LockBetween(s, r, 1, b);
    forall i: nat, l | i < |r| && LockBetween(s, r, i, l) ensures l == a || l == b {
      assert i == 0 || i == 1 || i == 2;
      assert l == k || l == a || l == b;
    }
  }

  /** The first time, `x` is taken out and the ring is put on record. */
  lemma FirstTime(nameOf: Tid -> string, s: Scene, world: World, x: Thread, y: Thread, k: Addr, a: Addr, b: Addr)
    requires x != y && ThreeLocks(k, a, b) && TwoRing(s.view, x, y, k, a, b)
    requires s.records == [] && LiveThread(x, world) && world.shadowRuns(s.counter + 1)
    ensures var s' := Handled(nameOf, s, [x, y, x], world);
      s'.view == CleanedUp(s.view, x, {a, b}) && (s.counter == 0 ==> OnRecordOnce(s', [x, y, x]))
  {
    var r := [x, y, x];
    FirstIsVictim(r, world);
    BothLocksNamed(s.view, x, y, k, a, b);
    assert Fresh(s, r);
    hide *;
    HandledByShadow(nameOf, s, r, world, x, ExtractTid(x).value);
    assert [] + [Record(r, {a, b}, s.counter + 1, true)] == [Record(r, {a, b}, s.counter + 1, true)];
  }

  /** The second time, the record hides it from a scan that starts at `x`, and only from that one. */
  lemma SecondTime(c: Call, s': Scene, found: seq<seq<Thread>>, x: Thread, y: Thread, k: Addr, a: Addr, b: Addr)
    requires x != y && TwoRing(c.before.view, x, y, k, a, b) && OrderOf(c.order, c.before.view)
    requires OnRecordOnce(c.before, [x, y, x]) && ScanResult(c, s', found)
    ensures c.order.waiters != [] && c.order.waiters[0] in {x, y} && Cyclic(c.before.view.waitsFor)
    ensures c.order.waiters[0] == x ==> s' == c.before
    ensures c.order.waiters[0] == y ==> s'.counter == 2
  {
    var o := c.order;
    RingInOneGroup(c.before.view, x, y, k, a, b);
    RingIsDoomed(c.before.view.waitsFor, x, y);
    InElems(o.waiters, x);
    InElems(o.waiters, o.waiters[0]);
    hide ScanResult, TwoRing, OrderOf, Cyclic;
    if o.waiters[0] == x {
      TwoFound(c, s', found, x, y);
      assert Known(c.before.records, [x, y, x]);
    } else {
      assert {y, x} == {x, y};
      TwoFound(c, s', found, y, x);
      assert [y, x, y][0] != c.before.records[0].cycle[0];
      assert Fresh(c.before, [y, x, y]);
    }
  }

  // ---------------------------------------------------------------- the whole story

  lemma FirstReport(c: Call, s': Scene, found: seq<seq<Thread>>, x: Thread, y: Thread, k: Addr, a: Addr, b: Addr)
    requires x != y && ThreeLocks(k, a, b) && TwoRing(c.before.view, x, y, k, a, b) && Unreported(c.before)
    requires ScanResult(c, s', found) && c.order.waiters != [] && c.order.waiters[0] == x
    requires LiveThread(x, c.world) && c.world.shadowRuns(1)
    ensures OnlyOther(s'.view, x, y, k, a, b) && OnRecordOnce(s', [x, y, x])
  {
    hide ScanResult, TwoRing, LiveThread, ThreeLocks, Handled, OnlyOther, OnRecordOnce, CleanedUp;
    RingHandled(c, s', found, x, y, k, a, b);
    FirstTime(c.nameOf, c.before, c.world, x, y, k, a, b);
    RingCleaned(c.before.view, x, y, k, a, b);
  }

  lemma RingHandled(c: Call, s': Scene, found: seq<seq<Thread>>, x: Thread, y: Thread, k: Addr, a: Addr, b: Addr)
    requires x != y && TwoRing(c.before.view, x, y, k, a, b)
    requires ScanResult(c, s', found) && c.order.waiters != [] && c.order.waiters[0] == x
    ensures s' == Handled(c.nameOf, c.before, [x, y, x], c.world)
  {
    RingInOneGroup(c.before.view, x, y, k, a, b);
    hide ScanResult, TwoRing, OneGroup, Handled;
    TwoFound(c, s', found, x, y);
  }

  lemma RingTurn(tr: Trail, script: seq<Event>, i: nat, x: Thread, y: Thread, k: Addr, a: Addr, b: Addr) returns (found: seq<seq<Thread>>)
    requires Plays(tr, script) && i < |script| && tr.scenes[i].active && TwoRing(Step(tr.scenes[i].view, script[i]), x, y, k, a, b)
    ensures CallAt(tr, i).before == tr.scenes[i].(view := Step(tr.scenes[i].view, script[i]))
    ensures OrderOf(tr.orders[i], Step(tr.scenes[i].view, script[i]))
    ensures ScanResult(CallAt(tr, i), tr.scenes[i + 1], found)
  {
    RingInOneGroup(Step(tr.scenes[i].view, script[i]), x, y, k, a, b);
    hide OneGroup, TwoRing, Step, ScanResult, OrderOf;
    found := ScanTurn(tr, script, i);
  }

  lemma FirstCall(tr: Trail, script: seq<Event>, x: Thread, y: Thread, k: Addr, a: Addr, b: Addr)
    requires Plays(tr, script) && |script| == 10 && FoundFrom(tr, 5, x) && x != y && ThreeLocks(k, a, b)
    requires Unreported(tr.scenes[5]) && TwoRing(Step(tr.scenes[5].view, script[5]), x, y, k, a, b)
    ensures OnlyOther(tr.scenes[6].view, x, y, k, a, b) && OnRecordOnce(tr.scenes[6], [x, y, x])
  {
    hide Step, TwoRing, ScanResult, OrderOf, OnlyOther, LiveThread, ThreeLocks, Proper;
    var found := RingTurn(tr, script, 5, x, y, k, a, b);
    FirstReport(CallAt(tr, 5), tr.scenes[6], found, x, y, k, a, b);
  }

  ghost predicate SecondOutcome(c: Call, s': Scene, x: Thread, y: Thread) {
    && Cyclic(c.before.view.waitsFor) && c.order.waiters != [] && c.order.waiters[0] in {x, y}
    && (c.order.waiters[0] == x ==> s' == c.before)
    && (c.order.waiters[0] == y ==> s'.counter == 2)
  }

  lemma SecondCall(tr: Trail, script: seq<Event>, x: Thread, y: Thread, k: Addr, a: Addr, b: Addr)
    requires Plays(tr, script) && |script| == 10 && x != y
    requires OnRecordOnce(tr.scenes[9], [x, y, x]) && TwoRing(Step(tr.scenes[9].view, script[9]), x, y, k, a, b)
    ensures SecondOutcome(CallAt(tr, 9), tr.scenes[10], x, y)
  {
    hide Step, TwoRing, ScanResult, OrderOf, Proper;
    var found := RingTurn(tr, script, 9, x, y, k, a, b);
    SecondTime(CallAt(tr, 9), tr.scenes[10], found, x, y, k, a, b);
  }

  /** Every run of these ten stops in which the sixth finds the ring from `x`: it is resolved, put on
      record and counted.  The tenth faces the same ring again, and if its scan starts at `x` as well,
      nothing is counted, recorded or resolved although the two threads are deadlocked.  If it starts
      at the other thread, it reports. */
  lemma FormsTwice(tr: Trail, x: Thread, y: Thread, k: Addr, a: Addr, b: Addr)
    requires PlaysTwice(tr, x, y, k, a, b) && FoundFrom(tr, 5, x)
    ensures |tr.scenes| == 11 && OnRecordOnce(tr.scenes[6], [x, y, x]) && OnRecordOnce(tr.scenes[9], [x, y, x])
    ensures SecondOutcome(CallAt(tr, 9), tr.scenes[10], x, y)
  {
    var script := TwiceScript(x, y, k, a, b);
    assert |script| == 10 && script[5] == Wait(y, a) && script[9] == Wait(x, b);
    assert Plays(tr, script) && x != y && ThreeLocks(k, a, b);
    assert |tr.stops| == |tr.orders| == |tr.worlds| == 10 && |tr.scenes| == 11;
    hide *;
    FirstRing(tr, x, y, k, a, b);
    FirstCall(tr, script, x, y, k, a, b);
    SecondRing(tr, x, y, k, a, b);
    SecondCall(tr, script, x, y, k, a, b);
  }
}
