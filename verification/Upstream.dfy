/** Which wait cycles a resolution breaks: the victim need not be on the reported one. */
module Upstream {
  import opened Graphs
  import opened Identifiers
  import opened State
  import opened Monitoring
  import opened ThreadSearch
  import opened ConflictGroups
  import opened Verdicts
  import opened Resolution
  import opened Reports
  import opened Scans
  import opened Detection
  import opened Traces
  import opened Scripts

  // ---------------------------------------------------------------- the reported cycle

  /** Whose entry handling a new report takes out of `waits_for`. */
  ghost function Erased(nameOf: Tid -> string, r: seq<Thread>, world: World, deadlockId: nat): set<Thread> {
    match PickVictim(r, world.alive)
    case Victim(name, tid) => {if tid != 0 && world.shadowRuns(deadlockId) then name else GetThreadIdentifier(nameOf(tid), tid)}
    case _ => {}
  }

  lemma HandledTakes(nameOf: Tid -> string, s: Scene, r: seq<Thread>, world: World)
    requires Fresh(s, r)
    ensures Handled(nameOf, s, r, world).view.waitsFor == s.view.waitsFor - Erased(nameOf, r, world, s.counter + 1)
  {
    hide PickVictim, Fresh, LocksNamed, GetThreadIdentifier, ExtractTid;
    assert s.view.waitsFor - {} == s.view.waitsFor;
  }

  lemma SurvivorAvoids(g: WaitGraph, c: seq<Thread>, gone: set<Thread>)
    requires SimpleCycle(g - gone, c)
    ensures forall t :: t in c ==> t !in gone
  {
    forall i | 0 <= i < |c| ensures c[i] !in gone {
      assert i < |c| - 1 ==> c[i + 1] in Succ(g - gone, c[i]);
    }
  }

  lemma AvoiderSurvives(g: WaitGraph, c: seq<Thread>, gone: set<Thread>)
    requires SimpleCycle(g, c) && forall t :: t in c ==> t !in gone
    ensures SimpleCycle(g - gone, c)
  {
    forall i | 0 <= i < |c| - 1 ensures c[i + 1] in Succ(g - gone, c[i]) {
      assert c[i + 1] in Succ(g, c[i]) && c[i] in c;
    }
    assert c[|c| - 1] in c;
  }

  lemma SurvivesIff(g: WaitGraph, c: seq<Thread>, gone: set<Thread>)
    requires SimpleCycle(g, c)
    ensures SimpleCycle(g - gone, c) <==> forall t :: t in c ==> t !in gone
  {
    hide SimpleCycle;
    if SimpleCycle(g - gone, c) {
      SurvivorAvoids(g, c, gone);
    }
    if forall t :: t in c ==> t !in gone {
      AvoiderSurvives(g, c, gone);
    }
  }

  /** The cycle in a report is there after its resolution exactly if the victim is not on it. */
  lemma CycleSurvivesIff(nameOf: Tid -> string, s: Scene, r: seq<Thread>, world: World, i: nat)
    requires Fresh(s, r) && IsWalk(s.view.waitsFor, r) && Distinct(Head(r)) && i < |r| - 1 && r[i] == r[|r| - 1]
    ensures var c, g' := r[i..|r| - 1], Handled(nameOf, s, r, world).view.waitsFor;
      && SimpleCycle(s.view.waitsFor, c)
      && (SimpleCycle(g', c) <==> forall t :: t in c ==> t !in Erased(nameOf, r, world, s.counter + 1))
  {
    ClosingSlice(s.view.waitsFor, r, i);
    HandledTakes(nameOf, s, r, world);
    SurvivesIff(s.view.waitsFor, r[i..|r| - 1], Erased(nameOf, r, world, s.counter + 1));
  }

  // ---------------------------------------------------------------- told beforehand

  ghost predicate Alive(t: Thread, world: World) {
    ExtractTid(t).Some? && ExtractTid(t).value in world.alive
  }

  lemma {:induction false} PicksFirst(r: seq<Thread>, world: World, p: nat)
    requires p < |r| && Alive(r[p], world) && forall q :: 0 <= q < p ==> ExtractTid(r[q]).Some? && !Alive(r[q], world)
    ensures PickVictim(r, world.alive) == Victim(r[p], ExtractTid(r[p]).value)
  {
    if p > 0 {
      assert ExtractTid(r[0]).Some?;
      PicksFirst(r[1..], world, p - 1);
    }
  }

  lemma {:induction false} FirstAlive(r: seq<Thread>, world: World, n: nat) returns (p: nat)
    requires n < |r| && Alive(r[n], world)
    ensures p <= n && Alive(r[p], world) && forall q :: 0 <= q < p ==> !Alive(r[q], world)
  {
    if m: nat :| m < n && Alive(r[m], world) {
      p := FirstAlive(r, world, m);
    } else {
      p := n;
    }
  }

  /** With readable names the first live thread of the report loses its entry. */
  lemma FirstAliveErased(nameOf: Tid -> string, r: seq<Thread>, world: World, deadlockId: nat, p: nat)
    requires ThreadsNamed(nameOf, r) && p < |r| && Alive(r[p], world) && forall q :: 0 <= q < p ==> !Alive(r[q], world)
    ensures Erased(nameOf, r, world, deadlockId) == {r[p]}
  {
    hide ExtractTid, GetThreadIdentifier, PickVictim, Named;
    forall t | t in r ensures ExtractTid(t).Some? {
      NamedReadsBack(nameOf, t);
    }
    PicksFirst(r, world, p);
    assert r[p] in r;
    NamedReadsBack(nameOf, r[p]);
  }

  /** A listed thread is on the cycle iff it is not listed before it. */
  lemma OnSliceIff(r: seq<Thread>, i: nat, p: nat)
    requires |r| >= 2 && Distinct(Head(r)) && i < |r| - 1 && r[i] == r[|r| - 1] && p < |r|
    ensures r[p] in r[i..|r| - 1] <==> i <= p
  {
    var c := r[i..|r| - 1];
    if p < i {
      forall k | 0 <= k < |c| ensures c[k] != r[p] {
        assert Head(r)[p] == r[p] && Head(r)[i + k] == c[k];
      }
    } else {
      var k := if p == |r| - 1 then 0 else p - i;
      assert c[k] == r[p];
    }
  }

  lemma NobodyErased(nameOf: Tid -> string, r: seq<Thread>, world: World, deadlockId: nat)
    requires forall t :: t in r ==> !Alive(t, world)
    ensures Erased(nameOf, r, world, deadlockId) == {}
  {}

  /** With readable names, exactly when the reported cycle outlives its resolution: some thread that is
      listed before the cycle is alive, or nobody listed is. */
  lemma CycleOutlivesIff(nameOf: Tid -> string, s: Scene, r: seq<Thread>, world: World, i: nat)
    requires Fresh(s, r) && IsWalk(s.view.waitsFor, r) && Distinct(Head(r)) && i < |r| - 1 && r[i] == r[|r| - 1]
    requires ThreadsNamed(nameOf, r)
    ensures SimpleCycle(Handled(nameOf, s, r, world).view.waitsFor, r[i..|r| - 1]) <==>
      (exists j :: 0 <= j < i && Alive(r[j], world)) || forall t :: t in r ==> !Alive(t, world)
  {
    CycleSurvivesIff(nameOf, s, r, world, i);
    hide Handled, Fresh, Erased, SimpleCycle, IsWalk, Alive, ThreadsNamed;
    if n: nat :| n < |r| && Alive(r[n], world) {
      var p := FirstAlive(r, world, n);
      FirstAliveErased(nameOf, r, world, s.counter + 1, p);
      OnSliceIff(r, i, p);
      assert r[n] in r;
    } else {
      NobodyErased(nameOf, r, world, s.counter + 1);
    }
  }

  // ---------------------------------------------------------------- a run

  /** Three threads use the common lock `k`; y takes b and z takes c; w queues for b, y for c and z for b. */
  function UpstreamScript(w: Thread, y: Thread, z: Thread, k: Addr, b: Addr, c: Addr): seq<Event> {
    [Wake(w, k), Wake(y, k), Wake(z, k), Wake(y, b), Wake(z, c), Wait(w, b), Wait(y, c), Wait(z, b)]
  }

  ghost predicate PlaysUpstream(tr: Trail, w: Thread, y: Thread, z: Thread, k: Addr, b: Addr, c: Addr) {
    && Three(w, y, z) && !Junk(k) && !Junk(b) && !Junk(c) && k != b && k != c && b != c
    && Plays(tr, UpstreamScript(w, y, z, k, b, c))
  }

  ghost predicate AllHave(s: Tables, w: Thread, y: Thread, z: Thread, k: Addr) {
    s.threadLocks.Keys == {w, y, z} && k in LocksOf(s, w) && k in LocksOf(s, y) && k in LocksOf(s, z)
  }

  lemma AllShare(tr: Trail, w: Thread, y: Thread, z: Thread, k: Addr, b: Addr, c: Addr)
    requires PlaysUpstream(tr, w, y, z, k, b, c)
    ensures |tr.scenes| == 9
    ensures Unreported(tr.scenes[3]) && Still(tr.scenes[3].view) && AllHave(tr.scenes[3].view, w, y, z, k)
  {
    var script := UpstreamScript(w, y, z, k, b, c);
    hide Plays, Still, Owns, LocksOf, Junk, OwnersListed, Unreported;
    BeforeTheFirst(tr, script);
    TakesTurn(tr, script, 0, w, k);
    TakesTurn(tr, script, 1, y, k);
    TakesTurn(tr, script, 2, z, k);
  }

  lemma TwoOwn(tr: Trail, w: Thread, y: Thread, z: Thread, k: Addr, b: Addr, c: Addr)
    requires PlaysUpstream(tr, w, y, z, k, b, c)
    ensures |tr.scenes| == 9
    ensures var s := tr.scenes[5].view;
      Unreported(tr.scenes[5]) && Still(s) && AllHave(s, w, y, z, k) && Owns(s, y, b) && Owns(s, z, c)
  {
    var script := UpstreamScript(w, y, z, k, b, c);
    hide Plays, Still, Owns, LocksOf, Junk, OwnersListed, Unreported;
    AllShare(tr, w, y, z, k, b, c);
    TakesTurn(tr, script, 3, y, b);
    TakesTurn(tr, script, 4, z, c);
  }

  /** The three waits, the last of which closes a cycle that `w` is not on. */
  lemma ThreeQueue(s: Tables, w: Thread, y: Thread, z: Thread, k: Addr, b: Addr, c: Addr)
    requires Three(w, y, z) && !Junk(b) && !Junk(c) && b != c
    requires Still(s) && AllHave(s, w, y, z, k) && Owns(s, y, b) && Owns(s, z, c)
    ensures var s1 := Step(s, Wait(w, b));
      var s2 := Step(s1, Wait(y, c));
      var s3 := Step(s2, Wait(z, b));
      Calm(s1) && Calm(s2) && OneGroup(s3) && s3.waitsFor == map[w := {y}, y := {z}, z := {y}]
  {
    var s1 := Step(s, Wait(w, b));
    var s2 := Step(s1, Wait(y, c));
    var s3 := Step(s2, Wait(z, b));
    assert s.waitsFor == map[];
    hide Step, Owns, WaitsOn, Waiters, Still, LocksOf, Calm, OneGroup, Junk;
    QueuesUp(s, w, b, y);
    SameLocks(s, s1);
    OneWaiterIsCalm(s1, w);
    QueuesUp(s1, y, c, z);
    SameLocks(s1, s2);
    TwoWaitsAreCalm(s2, w, y, z, k);
    QueuesUp(s2, z, b, y);
    SameLocks(s2, s3);
    SharersAreOneGroup(s3, k);
  }

  ghost predicate Lasso(g: WaitGraph, w: Thread, y: Thread, z: Thread) {
    g.Keys == {w, y, z} && g[w] == {y} && g[y] == {z} && g[z] == {y}
  }

  lemma LassoReport(g: WaitGraph, w: Thread, y: Thread, z: Thread, r: seq<Thread>)
    requires Three(w, y, z) && Lasso(g, w, y, z) && HoldsCycle(g, r) && Distinct(Head(r)) && r[0] == w
    ensures r == [w, y, z, y]
  {
    var h := Head(r);
    assert forall i :: 0 <= i < |h| ==> h[i] == r[i];
    assert r[0 + 1] in Succ(g, r[0]);
    assert |r| > 2;
    assert r[1 + 1] in Succ(g, r[1]);
    assert |r| > 3;
    assert r[2 + 1] in Succ(g, r[2]);
    assert r[3] == r[1];
  }

  lemma LassoIsDoomed(g: WaitGraph, w: Thread, y: Thread, z: Thread)
    requires Three(w, y, z) && Lasso(g, w, y, z)
    ensures CanReachCycle(g, w) && Cyclic(g) && Cyclic(g - {w}) && !OnCycle(g, w)
  {
    BackAndForth(g, y, z);
    BackAndForth(g - {w}, y, z);
    assert WalkFromTo(g, [w, y], w, y);
    assert Reaches(g, w, y);
    forall v ensures !ClosedWalk(g, v, w) {
      assert |v| >= 2 && IsWalk(g, v) ==> v[|v| - 2 + 1] in Succ(g, v[|v| - 2]);
    }
  }

  lemma LassoFound(call: Call, s': Scene, found: seq<seq<Thread>>, w: Thread, y: Thread, z: Thread)
    requires Three(w, y, z) && Lasso(call.before.view.waitsFor, w, y, z) && ScanResult(call, s', found)
    requires call.order.waiters != [] && call.order.waiters[0] == w
    ensures s' == Handled(call.nameOf, call.before, [w, y, z, y], call.world)
  {
    var g := call.before.view.waitsFor;
    LassoIsDoomed(g, w, y, z);
    assert found[0][0] == w;
    assert GoodReport(g, found, 0);
    FirstHoldsCycle(g, found);
    LassoReport(g, w, y, z, found[0]);
    assert Head([w, y, z, y]) == [w, y, z];
    OneReportOnly(g, found);
    ReplayOne(call.nameOf, call.before, [w, y, z, y], call.world);
  }

  /** A deadlock is put on record as resolved, and it is still there. */
  ghost predicate ResolvedInVain(call: Call, s': Scene, w: Thread) {
    && s'.active && s'.counter == 1 && |s'.records| == 1 && s'.records[0].resolved
    && !OnCycle(call.before.view.waitsFor, w) && s'.view.waitsFor == call.before.view.waitsFor - {w} && Cyclic(s'.view.waitsFor)
  }

  lemma LassoVictim(call: Call, s': Scene, found: seq<seq<Thread>>, w: Thread, y: Thread, z: Thread)
    requires Three(w, y, z) && Lasso(call.before.view.waitsFor, w, y, z) && ScanResult(call, s', found) && Unreported(call.before)
    requires call.order.waiters != [] && call.order.waiters[0] == w && LiveThread(w, call.world) && call.world.shadowRuns(1)
    ensures ResolvedInVain(call, s', w)
  {
    hide Lasso, ScanResult, LiveThread, Handled, Cyclic, OnCycle, Unreported;
    LassoFound(call, s', found, w, y, z);
    LassoIsDoomed(call.before.view.waitsFor, w, y, z);
    FirstAnswer(call.nameOf, call.before, call.world, [w, y, z, y]);
  }

  /** A first report with a live first thread. */
  lemma FirstAnswer(nameOf: Tid -> string, s: Scene, world: World, r: seq<Thread>)
    requires Unreported(s) && |r| >= 2 && LiveThread(r[0], world) && world.shadowRuns(1)
    ensures var s' := Handled(nameOf, s, r, world);
      s'.active && s'.counter == 1 && |s'.records| == 1 && s'.records[0].resolved && s'.view.waitsFor == s.view.waitsFor - {r[0]}
  {
    FirstIsVictim(r, world);
    assert Fresh(s, r);
    assert s.counter == 0 && s.records == [];
    var tid := ExtractTid(r[0]).value;
    hide Handled, PickVictim, Fresh, LocksNamed, LiveThread, ExtractTid, CleanedUp;
    HandledByShadow(nameOf, s, r, world, r[0], tid);
    CleanedUpWaits(s.view, r[0], LocksNamed(s.view, r));
  }

  lemma CleanedUpWaits(v: Tables, t: Thread, locks: set<Addr>)
    ensures CleanedUp(v, t, locks).waitsFor == v.waitsFor - {t}
  {}

  /** Every run of these eight stops whose last scan starts at `w` takes out `w`, which was on no cycle,
      and leaves y and z deadlocked with the record saying that they are not. */
  lemma VictimUpstream(tr: Trail, w: Thread, y: Thread, z: Thread, k: Addr, b: Addr, c: Addr)
    requires PlaysUpstream(tr, w, y, z, k, b, c) && FoundFrom(tr, 7, w)
    ensures |tr.scenes| == 9 && |tr.stops| == 8 && ResolvedInVain(CallAt(tr, 7), tr.scenes[8], w)
  {
    var script := UpstreamScript(w, y, z, k, b, c);
    assert |script| == 8 && script[5] == Wait(w, b) && script[6] == Wait(y, c) && script[7] == Wait(z, b);
    assert Plays(tr, script) && Three(w, y, z) && |tr.stops| == 8;
    TwoOwn(tr, w, y, z, k, b, c);
    assert !Junk(b) && !Junk(c) && b != c;
    hide UpstreamScript, PlaysUpstream, Plays, FoundFrom, Three, Junk, Step, Still, Calm, OneGroup, Owns, AllHave, Unreported, OwnersListed, Proper, ScanResult, ResolvedInVain, OrderOf;
    ThreeQueue(tr.scenes[5].view, w, y, z, k, b, c);
    CalmTurn(tr, script, 5);
    CalmTurn(tr, script, 6);
    LastTurn(tr, script, w, y, z);
  }

  lemma IsLasso(g: WaitGraph, w: Thread, y: Thread, z: Thread)
    requires Three(w, y, z) && g == map[w := {y}, y := {z}, z := {y}]
    ensures Lasso(g, w, y, z)
  {}

  lemma StillUnreported(s: Scene, v: Tables)
    requires Unreported(s)
    ensures Unreported(s.(view := v))
  {}

  lemma LastTurn(tr: Trail, script: seq<Event>, w: Thread, y: Thread, z: Thread)
    requires Plays(tr, script) && |script| == 8 && FoundFrom(tr, 7, w) && Three(w, y, z)
    requires var s := Step(tr.scenes[7].view, script[7]); OneGroup(s) && s.waitsFor == map[w := {y}, y := {z}, z := {y}]
    requires Unreported(tr.scenes[7])
    ensures ResolvedInVain(CallAt(tr, 7), tr.scenes[8], w)
  {
    assert tr.scenes[7].active;
    hide Step, OneGroup, OrderOf, Proper, ScanResult, LiveThread, ResolvedInVain, Unreported, Lasso;
    IsLasso(Step(tr.scenes[7].view, script[7]).waitsFor, w, y, z);
    StillUnreported(tr.scenes[7], Step(tr.scenes[7].view, script[7]));
    var found := ScanTurn(tr, script, 7);
    LassoVictim(CallAt(tr, 7), tr.scenes[8], found, w, y, z);
  }
}
