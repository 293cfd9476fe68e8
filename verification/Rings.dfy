/** A deadlock of three threads is cleaned up without any lock: a run of nine stops. */
module Rings {
  import opened Graphs
  import opened Identifiers
  import opened State
  import opened Monitoring
  import opened ThreadSearch
  import opened ConflictGroups
  import opened GroupDeadlocks
  import opened Verdicts
  import opened Resolution
  import opened Reports
  import opened Scans
  import opened Traces
  import opened Scripts

  /** Three threads use the common lock `k`, so that they form one group, each takes a lock of its own
      and then queues for the next thread's. */
  function RingScript(x: Thread, y: Thread, z: Thread, k: Addr, a: Addr, b: Addr, c: Addr): seq<Event> {
    [Wake(x, k), Wake(y, k), Wake(z, k), Wake(x, a), Wake(y, b), Wake(z, c), Wait(x, b), Wait(y, c), Wait(z, a)]
  }

  ghost predicate PlaysRing(tr: Trail, x: Thread, y: Thread, z: Thread, k: Addr, a: Addr, b: Addr, c: Addr) {
    Three(x, y, z) && FourLocks(k, a, b, c) && Plays(tr, RingScript(x, y, z, k, a, b, c))
  }

  /** The deadlock: each thread owns its lock and queues for the next thread's. */
  ghost predicate ThreeRing(s: Tables, x: Thread, y: Thread, z: Thread, k: Addr, a: Addr, b: Addr, c: Addr) {
    && s.lockOwners.Keys == {k, a, b, c} && s.threadLocks.Keys == s.waitsFor.Keys == {x, y, z} && Waiters(s, k) == []
    && Owning(s, x, k, a) && Owning(s, y, k, b) && Owning(s, z, k, c)
    && WaitsOn(s, x, y, b) && WaitsOn(s, y, z, c) && WaitsOn(s, z, x, a)
  }

  // ---------------------------------------------------------------- the run

  lemma SharedByThree(tr: Trail, x: Thread, y: Thread, z: Thread, k: Addr, a: Addr, b: Addr, c: Addr)
    requires PlaysRing(tr, x, y, z, k, a, b, c)
    ensures |tr.scenes| == 10 && |tr.worlds| == 9
    ensures var s := tr.scenes[3].view;
      && Unreported(tr.scenes[3]) && OwnersListed(s)
      && Still(s) && s.lockOwners.Keys == {k} && s.threadLocks.Keys == {x, y, z}
      && k in LocksOf(s, x) && k in LocksOf(s, y) && k in LocksOf(s, z)
  {
    var script := RingScript(x, y, z, k, a, b, c);
    hide Plays, Still, Owns, LocksOf, Junk, OwnersListed, Unreported;
    BeforeTheFirst(tr, script);
    TakesTurn(tr, script, 0, x, k);
    TakesTurn(tr, script, 1, y, k);
    TakesTurn(tr, script, 2, z, k);
  }

  lemma OwnersOfThree(tr: Trail, x: Thread, y: Thread, z: Thread, k: Addr, a: Addr, b: Addr, c: Addr)
    requires PlaysRing(tr, x, y, z, k, a, b, c)
    ensures |tr.scenes| == 10 && |tr.worlds| == 9
    ensures var s := tr.scenes[6].view;
      && Unreported(tr.scenes[6]) && OwnersListed(s)
      && Still(s) && s.lockOwners.Keys == {k, a, b, c} && s.threadLocks.Keys == {x, y, z}
      && Owning(s, x, k, a) && Owning(s, y, k, b) && Owning(s, z, k, c)
  {
    var script := RingScript(x, y, z, k, a, b, c);
    hide Plays, Still, Owns, LocksOf, Junk, OwnersListed, Unreported;
    SharedByThree(tr, x, y, z, k, a, b, c);
    TakesTurn(tr, script, 3, x, a);
    TakesTurn(tr, script, 4, y, b);
    TakesTurn(tr, script, 5, z, c);
  }

  lemma TwoQueue(tr: Trail, x: Thread, y: Thread, z: Thread, k: Addr, a: Addr, b: Addr, c: Addr)
    requires PlaysRing(tr, x, y, z, k, a, b, c)
    ensures |tr.scenes| == 10 && |tr.worlds| == 9
    ensures var s := tr.scenes[8].view;
      && Unreported(tr.scenes[8]) && OwnersListed(s)
      && s.lockOwners.Keys == {k, a, b, c} && s.threadLocks.Keys == {x, y, z} && s.waitsFor == map[x := {y}, y := {z}]
      && Owning(s, x, k, a) && Owning(s, y, k, b) && Owning(s, z, k, c)
      && Waiters(s, k) == Waiters(s, a) == [] && WaitsOn(s, x, y, b) && WaitsOn(s, y, z, c)
  {
    var script := RingScript(x, y, z, k, a, b, c);
    OwnersOfThree(tr, x, y, z, k, a, b, c);
    var s := tr.scenes[6].view;
    assert Waiters(s, k) == Waiters(s, a) == Waiters(s, b) == Waiters(s, c) == [];
    assert s.waitsFor == map[];
    hide Step, Plays, Owns, WaitsOn, Waiters, Still, OwnersListed, Unreported, Calm, Junk, LocksOf;
    QueuesUp(s, x, b, y);
    SameLocks(s, Step(s, Wait(x, b)));
    OneWaiterIsCalm(Step(s, Wait(x, b)), x);
    CalmTurn(tr, script, 6);
    var s7 := tr.scenes[7].view;
    QueuesUp(s7, y, c, z);
    SameLocks(s7, Step(s7, Wait(y, c)));
    TwoWaitsAreCalm(Step(s7, Wait(y, c)), x, y, z, k);
    CalmTurn(tr, script, 7);
  }

  /** What detection faces at the last stop. */
  lemma RingForms(tr: Trail, x: Thread, y: Thread, z: Thread, k: Addr, a: Addr, b: Addr, c: Addr)
    requires PlaysRing(tr, x, y, z, k, a, b, c)
    ensures |tr.scenes| == 10 && |tr.worlds| == 9
    ensures var s := Step(tr.scenes[8].view, Wait(z, a));
      ThreeRing(s, x, y, z, k, a, b, c) && OwnersListed(s) && Unreported(tr.scenes[8])
  {
    hide Step, Plays, Owns, WaitsOn, Waiters, OwnersListed, Unreported, Junk, LocksOf;
    TwoQueue(tr, x, y, z, k, a, b, c);
    var s := tr.scenes[8].view;
    QueuesUp(s, z, a, x);
    SameLocks(s, Step(s, Wait(z, a)));
    EventKeepsOwners(s, Wait(z, a));
  }

  // ---------------------------------------------------------------- the call

  lemma TurnRing(s: Tables, x: Thread, y: Thread, z: Thread, k: Addr, a: Addr, b: Addr, c: Addr)
    requires ThreeRing(s, x, y, z, k, a, b, c)
    ensures ThreeRing(s, y, z, x, k, b, c, a)
  {
    hide Owning, WaitsOn;
    assert {k, a, b, c} == {k, b, c, a} && {x, y, z} == {y, z, x};
  }

  lemma RingIsOneGroup(s: Tables, x: Thread, y: Thread, z: Thread, k: Addr, a: Addr, b: Addr, c: Addr)
    requires ThreeRing(s, x, y, z, k, a, b, c)
    ensures OneGroup(s)
  {
    SharersAreOneGroup(s, k);
  }

  ghost predicate RingEdges(g: WaitGraph, x: Thread, y: Thread, z: Thread) {
    g.Keys == {x, y, z} && Succ(g, x) == {y} && Succ(g, y) == {z} && Succ(g, z) == {x}
  }

  /** The only report of the ring that starts at `x`. */
  lemma ReportFrom(g: WaitGraph, x: Thread, y: Thread, z: Thread, r: seq<Thread>)
    requires Three(x, y, z) && RingEdges(g, x, y, z) && HoldsCycle(g, r) && Distinct(Head(r)) && r[0] == x
    ensures r == [x, y, z, x]
  {
    var h := Head(r);
    assert forall i :: 0 <= i < |h| ==> h[i] == r[i];
    assert r[0 + 1] in Succ(g, r[0]);
    assert |r| > 2;
    assert r[1 + 1] in Succ(g, r[1]);
    assert |r| > 3;
    assert r[2 + 1] in Succ(g, r[2]);
    assert r[3] == r[0];
  }

  lemma ReportsOfThree(g: WaitGraph, x: Thread, y: Thread, z: Thread, found: seq<seq<Thread>>)
    requires Three(x, y, z) && RingEdges(g, x, y, z) && GoodReports(g, found) && found != [] && found[0][0] == x
    ensures found == [[x, y, z, x]]
  {
    assert GoodReport(g, found, 0);
    FirstHoldsCycle(g, found);
    ReportFrom(g, x, y, z, found[0]);
    assert Head([x, y, z, x]) == [x, y, z];
    OneReportOnly(g, found);
  }

  /** For no entry of the report does the next entry queue for its lock. */
  lemma NoLockNamed(s: Tables, x: Thread, y: Thread, z: Thread, k: Addr, a: Addr, b: Addr, c: Addr)
    requires Three(x, y, z) && FourLocks(k, a, b, c) && ThreeRing(s, x, y, z, k, a, b, c)
    ensures forall l :: !LockBetweenSome(s, [x, y, z, x], l)
  {
    var r := [x, y, z, x];
    forall l, i: nat | i < |r| ensures !LockBetween(s, r, i, l) {
      NextIndex(i, 4);
      assert i == 0 || i == 1 || i == 2 || i == 3;
      if l in s.lockOwners {
        assert l == k || l == a || l == b || l == c;
      }
    }
  }

  /** Handling the ring's report loses ownership: the victim goes, and nothing it owns is released. */
  lemma RingLosesOwner(nameOf: Tid -> string, s: Scene, world: World, x: Thread, y: Thread, z: Thread, k: Addr, a: Addr, b: Addr, c: Addr)
    requires Three(x, y, z) && FourLocks(k, a, b, c) && ThreeRing(s.view, x, y, z, k, a, b, c)
    requires OwnersListed(s.view) && s.records == [] && LiveThread(x, world) && world.shadowRuns(s.counter + 1)
    ensures var s' := Replay(nameOf, s, [[x, y, z, x]], world);
      !OwnersListed(s'.view) && s'.counter == s.counter + 1 && s'.active
  {
    var r := [x, y, z, x];
    ReplayOne(nameOf, s, r, world);
    assert PickVictim(r, world.alive) == Victim(x, ExtractTid(x).value);
    ReportKeepsOwnersIff(nameOf, s, r, world, x, ExtractTid(x).value);
    NoLockNamed(s.view, x, y, z, k, a, b, c);
    assert s.view.lockOwners[a] == x;
  }

  /** Every run of these nine stops, in whatever orders the containers are iterated: the last one has the
      deadlock counted and cleaned up, and whichever rotation is found, no lock is named, nothing is
      released, and a lock stays with an owner that holds none. */
  lemma RingRunLosesOwner(tr: Trail, x: Thread, y: Thread, z: Thread, k: Addr, a: Addr, b: Addr, c: Addr)
    requires PlaysRing(tr, x, y, z, k, a, b, c)
    requires var world := tr.worlds[8]; LiveThread(x, world) && LiveThread(y, world) && LiveThread(z, world) && world.shadowRuns(1)
    ensures |tr.scenes| == 10 && OwnersListed(tr.scenes[8].view)
    ensures !OwnersListed(tr.scenes[9].view) && tr.scenes[9].counter == 1 && tr.scenes[9].active
  {
    RingForms(tr, x, y, z, k, a, b, c);
    var script := RingScript(x, y, z, k, a, b, c);
    assert |script| == 9 && script[8] == Wait(z, a);
    assert Plays(tr, script);
    assert tr.scenes[8].active && tr.scenes[8].records == [] && tr.scenes[8].counter == 0;
    RingIsOneGroup(Step(tr.scenes[8].view, Wait(z, a)), x, y, z, k, a, b, c);
    LastOwners(tr, x, y, z, k, a, b, c);
    hide RingScript, Step, ThreeRing, OneGroup, ScanResult, LiveThread, FourLocks, Plays, PlaysRing, OwnersListed, OrderOf, Three, Unreported;
    var found := ScanTurn(tr, script, 8);
    assert RingCall(CallAt(tr, 8), tr.scenes[9], found, x, y, z, k, a, b, c);
    hide RingCall;
    RingVerdict(CallAt(tr, 8), tr.scenes[9], found, x, y, z, k, a, b, c);
  }

  lemma LastOwners(tr: Trail, x: Thread, y: Thread, z: Thread, k: Addr, a: Addr, b: Addr, c: Addr)
    requires PlaysRing(tr, x, y, z, k, a, b, c)
    ensures |tr.scenes| == 10 && OwnersListed(tr.scenes[8].view) && Three(x, y, z) && FourLocks(k, a, b, c)
  {
    hide Plays, OwnersListed;
    TwoQueue(tr, x, y, z, k, a, b, c);
  }

  /** A call on the ring of which nothing is on record. */
  ghost predicate RingCall(call: Call, s': Scene, found: seq<seq<Thread>>, x: Thread, y: Thread, z: Thread, k: Addr, a: Addr, b: Addr, c: Addr) {
    && Three(x, y, z) && FourLocks(k, a, b, c) && ThreeRing(call.before.view, x, y, z, k, a, b, c)
    && OwnersListed(call.before.view) && call.before.records == [] && ScanResult(call, s', found)
    && LiveThread(x, call.world) && LiveThread(y, call.world) && LiveThread(z, call.world) && call.world.shadowRuns(call.before.counter + 1)
  }

  ghost predicate StartsAt(found: seq<seq<Thread>>, x: Thread) {
    found != [] && found[0] != [] && found[0][0] == x
  }

  lemma TurnCall(call: Call, s': Scene, found: seq<seq<Thread>>, x: Thread, y: Thread, z: Thread, k: Addr, a: Addr, b: Addr, c: Addr)
    requires RingCall(call, s', found, x, y, z, k, a, b, c)
    ensures RingCall(call, s', found, y, z, x, k, b, c, a)
  {
    hide ScanResult, ThreeRing, OwnersListed, LiveThread;
    TurnRing(call.before.view, x, y, z, k, a, b, c);
  }

  /** Whichever thread the scan found it from ... */
  lemma RotationFound(call: Call, s': Scene, found: seq<seq<Thread>>, x: Thread, y: Thread, z: Thread, k: Addr, a: Addr, b: Addr, c: Addr)
    requires RingCall(call, s', found, x, y, z, k, a, b, c) && StartsAt(found, x)
    ensures !OwnersListed(s'.view) && s'.counter == call.before.counter + 1 && s'.active
  {
    RingWaits(call.before.view, x, y, z, k, a, b, c);
    RingFound(call, s', found, x, y, z);
    ReportsOfThree(call.before.view.waitsFor, x, y, z, found);
    hide *;
    RingLoses(call, s', found, x, y, z, k, a, b, c);
  }

  lemma RingLoses(call: Call, s': Scene, found: seq<seq<Thread>>, x: Thread, y: Thread, z: Thread, k: Addr, a: Addr, b: Addr, c: Addr)
    requires RingCall(call, s', found, x, y, z, k, a, b, c) && found == [[x, y, z, x]]
    requires s' == Replay(call.nameOf, call.before, found, call.world)
    ensures !OwnersListed(s'.view) && s'.counter == call.before.counter + 1 && s'.active
  {
    hide ScanResult, ThreeRing, OwnersListed, LiveThread, FourLocks, Replay;
    RingLosesOwner(call.nameOf, call.before, call.world, x, y, z, k, a, b, c);
  }

  lemma RingVerdict(call: Call, s': Scene, found: seq<seq<Thread>>, x: Thread, y: Thread, z: Thread, k: Addr, a: Addr, b: Addr, c: Addr)
    requires RingCall(call, s', found, x, y, z, k, a, b, c)
    ensures !OwnersListed(s'.view) && s'.counter == call.before.counter + 1 && s'.active
  {
    RingWaits(call.before.view, x, y, z, k, a, b, c);
    RingFound(call, s', found, x, y, z);
    assert StartsAt(found, x) || StartsAt(found, y) || StartsAt(found, z);
    hide *;
    TurnCall(call, s', found, x, y, z, k, a, b, c);
    TurnCall(call, s', found, y, z, x, k, b, c, a);
    if StartsAt(found, x) {
      RotationFound(call, s', found, x, y, z, k, a, b, c);
    } else if StartsAt(found, y) {
      RotationFound(call, s', found, y, z, x, k, b, c, a);
    } else {
      RotationFound(call, s', found, z, x, y, k, c, a, b);
    }
  }

  lemma RingWaits(s: Tables, x: Thread, y: Thread, z: Thread, k: Addr, a: Addr, b: Addr, c: Addr)
    requires ThreeRing(s, x, y, z, k, a, b, c)
    ensures var g := s.waitsFor; g.Keys == {x, y, z} && g[x] == {y} && g[y] == {z} && g[z] == {x}
  {}

  lemma RingFound(call: Call, s': Scene, found: seq<seq<Thread>>, x: Thread, y: Thread, z: Thread)
    requires var g := call.before.view.waitsFor; Three(x, y, z) && g.Keys == {x, y, z} && g[x] == {y} && g[y] == {z} && g[z] == {x}
    requires ScanResult(call, s', found)
    ensures var g := call.before.view.waitsFor; RingEdges(g, x, y, z) && RingEdges(g, y, z, x) && RingEdges(g, z, x, y)
    ensures GoodReports(call.before.view.waitsFor, found) && found != [] && found[0][0] in {x, y, z}
    ensures s' == Replay(call.nameOf, call.before, found, call.world)
  {
    var g := call.before.view.waitsFor;
    assert {x, y, z} == {y, z, x} == {z, x, y};
    RingIsCycle(g, x, y, z);
    SimpleCycleIsCyclic(g, [x, y, z]);
    ListedAreKeys(g, found, 0);
    assert found[0][0] in found[0];
  }

  lemma RingIsCycle(g: WaitGraph, x: Thread, y: Thread, z: Thread)
    requires Three(x, y, z) && y in Succ(g, x) && z in Succ(g, y) && x in Succ(g, z)
    ensures SimpleCycle(g, [x, y, z])
  {
    var c := [x, y, z];
    forall i | 0 <= i < |c| - 1 ensures c[i + 1] in Succ(g, c[i]) {
      assert i == 0 || i == 1;
    }
  }
}
