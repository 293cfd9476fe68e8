/** A group cycle without a wait cycle: the group detector switches monitoring off although every
    thread can go on. */
module FalseAlarms {
  import opened Graphs
  import opened State
  import opened Monitoring
  import opened ConflictGroups
  import opened Grouping
  import opened Quotients
  import opened Verdicts
  import opened Resolution
  import opened Reports
  import opened Scans
  import opened Detection
  import opened Traces
  import opened Scripts

  /** Two lock holders that share a lock with each other and with nobody else. */
  ghost predicate Pair(locks: LockSets, x: Thread, y: Thread) {
    Share(locks, x, y) && Share(locks, y, x) && forall t :: Share(locks, t, x) || Share(locks, t, y) ==> t == x || t == y
  }

  lemma PairFounder(s: Tables, o: Order, x: Thread, y: Thread, t: Thread) returns (i: nat)
    requires OrderOf(o, s) && Pair(s.threadLocks, x, y) && t in {x, y}
    ensures i < |Founders(s.threadLocks, o.holders)| && Founders(s.threadLocks, o.holders)[i] in {x, y}
    ensures InGroup(GroupThreads(s, o), i, t)
  {
    i := HolderGrouped(s, o, t);
    HolderGroup(s, o, i, t);
    GroupShape(s, o);
  }

  /** Whatever the order, such a pair is in one group. */
  lemma PairTogether(s: Tables, o: Order, x: Thread, y: Thread) returns (i: nat)
    requires OrderOf(o, s) && Pair(s.threadLocks, x, y)
    ensures i < |Founders(s.threadLocks, o.holders)| && Founders(s.threadLocks, o.holders)[i] in {x, y}
    ensures InGroup(GroupThreads(s, o), i, x) && InGroup(GroupThreads(s, o), i, y)
  {
    i := PairFounder(s, o, x, y, x);
    var j := PairFounder(s, o, x, y, y);
    FoundersIndependent(s.threadLocks, o.holders);
  }

  /** Two pairs that wait for each other crosswise make the group graph cyclic in every order. */
  lemma PairsFoolGroups(s: Tables, o: Order, x: Thread, y: Thread, z: Thread, w: Thread)
    requires OrderOf(o, s) && Pair(s.threadLocks, x, y) && Pair(s.threadLocks, z, w) && {x, y} !! {z, w}
    requires z in Succ(s.waitsFor, x) && y in Succ(s.waitsFor, w)
    ensures Cyclic(GroupGraph(s, o))
  {
    var ts, g, q := GroupThreads(s, o), s.waitsFor, GroupGraph(s, o);
    QuotientIs(ts, g);
    var i := PairTogether(s, o, x, y);
    var j := PairTogether(s, o, z, w);
    assert i != j;
    hide Founders, Pair, OrderOf, GroupThreads, Cyclic;
    EdgeDescends(ts, g, x, z, i, j);
    EdgeDescends(ts, g, w, y, j, i);
    BackAndForth(q, i, j);
  }

  ghost predicate Crosswise(g: WaitGraph, x: Thread, y: Thread, z: Thread, w: Thread) {
    g == map[x := {z}, w := {y}]
  }

  lemma CrosswiseIsAcyclic(g: WaitGraph, x: Thread, y: Thread, z: Thread, w: Thread)
    requires Four(x, y, z, w) && Crosswise(g, x, y, z, w)
    ensures !Cyclic(g)
  {
    var order := [z, y, x, w];
    assert order[..1] == [z] && order[..2] == [z, y] && order[..3] == [z, y, x];
    assert Succ(g, z) == {} && Succ(g, y) == {} && Succ(g, x) == {z} && Succ(g, w) == {y};
    assert Topological(g, order);
    CertificateDecides(g, {}, order);
  }

  // ---------------------------------------------------------------- the run

  ghost predicate Four(x: Thread, y: Thread, z: Thread, w: Thread) {
    x != y && x != z && x != w && y != z && y != w && z != w
  }

  /** x and y have used c, z and w have used d; x waits for a lock of z, and w for a lock of y. */
  function AlarmScript(x: Thread, y: Thread, z: Thread, w: Thread, c: Addr, d: Addr, e: Addr, f: Addr): seq<Event> {
    [Wake(x, c), Wake(y, c), Wake(z, d), Wake(w, d), Wake(z, e), Wake(y, f), Wait(x, e), Wait(w, f)]
  }

  ghost predicate PlaysAlarm(tr: Trail, x: Thread, y: Thread, z: Thread, w: Thread, c: Addr, d: Addr, e: Addr, f: Addr) {
    Four(x, y, z, w) && FourLocks(c, d, e, f) && Plays(tr, AlarmScript(x, y, z, w, c, d, e, f))
  }

  lemma PairUses(tr: Trail, x: Thread, y: Thread, z: Thread, w: Thread, c: Addr, d: Addr, e: Addr, f: Addr)
    requires PlaysAlarm(tr, x, y, z, w, c, d, e, f)
    ensures |tr.scenes| == 9
    ensures var s := tr.scenes[2].view;
      && Unreported(tr.scenes[2]) && Still(s) && s.threadLocks.Keys == {x, y}
      && LocksOf(s, x) == LocksOf(s, y) == {c} && LocksOf(s, z) == LocksOf(s, w) == {}
  {
    var script := AlarmScript(x, y, z, w, c, d, e, f);
    hide Plays, Still, Owns, LocksOf, Junk, OwnersListed, Unreported;
    BeforeTheFirst(tr, script);
    TakesTurn(tr, script, 0, x, c);
    TakesTurn(tr, script, 1, y, c);
  }

  lemma PairsUse(tr: Trail, x: Thread, y: Thread, z: Thread, w: Thread, c: Addr, d: Addr, e: Addr, f: Addr)
    requires PlaysAlarm(tr, x, y, z, w, c, d, e, f)
    ensures |tr.scenes| == 9
    ensures var s := tr.scenes[4].view;
      && Unreported(tr.scenes[4]) && Still(s) && s.threadLocks.Keys == {x, y, z, w}
      && LocksOf(s, x) == LocksOf(s, y) == {c} && LocksOf(s, z) == LocksOf(s, w) == {d}
  {
    var script := AlarmScript(x, y, z, w, c, d, e, f);
    hide Plays, Still, Owns, LocksOf, Junk, OwnersListed, Unreported;
    PairUses(tr, x, y, z, w, c, d, e, f);
    TakesTurn(tr, script, 2, z, d);
    TakesTurn(tr, script, 3, w, d);
  }

  /** The locks of the four threads. */
  ghost predicate PairLocks(s: Tables, x: Thread, y: Thread, z: Thread, w: Thread, c: Addr, d: Addr, e: Addr, f: Addr) {
    && s.threadLocks.Keys == {x, y, z, w} && Owns(s, z, e) && Owns(s, y, f)
    && LocksOf(s, x) == {c} && LocksOf(s, y) == {c, f} && LocksOf(s, z) == {d, e} && LocksOf(s, w) == {d}
  }

  lemma PairsOwn(tr: Trail, x: Thread, y: Thread, z: Thread, w: Thread, c: Addr, d: Addr, e: Addr, f: Addr)
    requires PlaysAlarm(tr, x, y, z, w, c, d, e, f)
    ensures |tr.scenes| == 9
    ensures Unreported(tr.scenes[6]) && Still(tr.scenes[6].view) && PairLocks(tr.scenes[6].view, x, y, z, w, c, d, e, f)
  {
    var script := AlarmScript(x, y, z, w, c, d, e, f);
    hide Plays, Still, Owns, LocksOf, Junk, OwnersListed, Unreported;
    PairsUse(tr, x, y, z, w, c, d, e, f);
    TakesTurn(tr, script, 4, z, e);
    TakesTurn(tr, script, 5, y, f);
  }

  /** The two waits. */
  lemma PairsWait(s: Tables, x: Thread, y: Thread, z: Thread, w: Thread, c: Addr, d: Addr, e: Addr, f: Addr)
    requires Four(x, y, z, w) && FourLocks(c, d, e, f) && Still(s) && PairLocks(s, x, y, z, w, c, d, e, f)
    ensures Calm(Step(s, Wait(x, e)))
    ensures var s' := Step(Step(s, Wait(x, e)), Wait(w, f));
      PairLocks(s', x, y, z, w, c, d, e, f) && Crosswise(s'.waitsFor, x, y, z, w)
  {
    var s1 := Step(s, Wait(x, e));
    assert s.waitsFor == map[];
    hide Step, Owns, WaitsOn, Waiters, Still, LocksOf, Calm, Junk;
    QueuesUp(s, x, e, z);
    SameLocks(s, s1);
    OneWaiterIsCalm(s1, x);
    QueuesUp(s1, w, f, y);
    SameLocks(s1, Step(s1, Wait(w, f)));
  }

  lemma PairsFormed(s: Tables, x: Thread, y: Thread, z: Thread, w: Thread, c: Addr, d: Addr, e: Addr, f: Addr)
    requires Four(x, y, z, w) && FourLocks(c, d, e, f) && PairLocks(s, x, y, z, w, c, d, e, f)
    ensures Pair(s.threadLocks, x, y) && Pair(s.threadLocks, z, w)
  {
    assert c in s.threadLocks[x] && c in s.threadLocks[y];
    assert d in s.threadLocks[z] && d in s.threadLocks[w];
  }

  /** Every run of these eight stops: what the last one faces has a group cycle in every order and no
      wait cycle. */
  lemma FalseAlarm(tr: Trail, x: Thread, y: Thread, z: Thread, w: Thread, c: Addr, d: Addr, e: Addr, f: Addr)
    requires PlaysAlarm(tr, x, y, z, w, c, d, e, f)
    ensures |tr.scenes| == 9 && |tr.orders| == |tr.worlds| == |tr.stops| == 8 && Unreported(tr.scenes[7])
    ensures !Cyclic(CallAt(tr, 7).before.view.waitsFor)
    ensures forall o :: OrderOf(o, CallAt(tr, 7).before.view) ==> Cyclic(GroupGraph(CallAt(tr, 7).before.view, o))
    ensures Turned(CallAt(tr, 7), tr.scenes[8]) && CallAt(tr, 7).before == tr.scenes[7].(view := CallAt(tr, 7).before.view)
  {
    var script := AlarmScript(x, y, z, w, c, d, e, f);
    PairsOwn(tr, x, y, z, w, c, d, e, f);
    hide Step, Still, PairLocks, Calm, Unreported, OwnersListed, GroupGraph, Cyclic, Pair, Turned, Proper, Crosswise;
    PairsWait(tr.scenes[6].view, x, y, z, w, c, d, e, f);
    CalmTurn(tr, script, 6);
    var s := Step(tr.scenes[7].view, Wait(w, f));
    Played(tr, script, 7);
    CrosswiseIsAcyclic(s.waitsFor, x, y, z, w);
    PairsFormed(s, x, y, z, w, c, d, e, f);
    CrosswiseWaits(s.waitsFor, x, y, z, w);
    forall o | OrderOf(o, s) ensures Cyclic(GroupGraph(s, o)) {
      PairsFoolGroups(s, o, x, y, z, w);
    }
  }

  lemma CrosswiseWaits(g: WaitGraph, x: Thread, y: Thread, z: Thread, w: Thread)
    requires Four(x, y, z, w) && Crosswise(g, x, y, z, w)
    ensures z in Succ(g, x) && y in Succ(g, w)
  {}

  /** The last stop switches monitoring off for good. */
  lemma AlarmIsRaised(tr: Trail, x: Thread, y: Thread, z: Thread, w: Thread, c: Addr, d: Addr, e: Addr, f: Addr)
    requires PlaysAlarm(tr, x, y, z, w, c, d, e, f) && NamesRead(tr)
    ensures |tr.scenes| == 9 && |tr.stops| == 8 && !Cyclic(tr.scenes[8].view.waitsFor)
    ensures tr.scenes[7].active && !tr.scenes[8].active && tr.scenes[8].counter == 1
  {
    FalseAlarm(tr, x, y, z, w, c, d, e, f);
    RunKeepsNames(tr, 7);
    assert tr.scenes[7].active && tr.scenes[7].counter == 0;
    var call, s' := CallAt(tr, 7), tr.scenes[8];
    assert call.before.view == SeenAt(tr, 7);
    hide AllNamed, GroupGraph, Cyclic, ScanResult, QuietOutcome, Seen, Proper;
    var threw, found :| CallResult(call, s', threw, found);
    assert Cyclic(GroupGraph(call.before.view, call.order));
  }
}
