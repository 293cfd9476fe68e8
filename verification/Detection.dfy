/** `detect_and_resolve_deadlocks` and `handle_event`: what one call reports and what it leaves. */
module Detection {
  import opened Graphs
  import opened Identifiers
  import opened State
  import opened Monitoring
  import opened ThreadSearch
  import opened ConflictGroups
  import opened Grouping
  import opened Quotients
  import opened GroupDeadlocks
  import opened Resolution
  import opened Reports
  import opened Scans
  import opened Silence

  // ---------------------------------------------------------------- live threads and readable names

  ghost predicate HasLive(cycle: seq<Thread>, world: World) {
    exists t :: t in cycle && ExtractTid(t).Some? && ExtractTid(t).value in world.alive
  }

  /** The reports recorded from position `n` on each list a live thread. */
  ghost predicate LiveFrom(records: seq<Record>, n: nat, world: World) {
    forall k :: n <= k < |records| ==> HasLive(records[k].cycle, world)
  }

  ghost predicate VerticesNamed(nameOf: Tid -> string, g: WaitGraph) {
    forall t :: t in Vertices(g) ==> Named(nameOf, t)
  }

  ghost predicate ThreadsNamed(nameOf: Tid -> string, r: seq<Thread>) {
    forall t :: t in r ==> Named(nameOf, t)
  }

  lemma NamedNeverThrow(nameOf: Tid -> string, r: seq<Thread>, world: World)
    requires ThreadsNamed(nameOf, r)
    ensures !PickVictim(r, world.alive).Throws?
    ensures HasLive(r, world) ==> PickVictim(r, world.alive).Victim?
  {
    forall t | t in r ensures ExtractTid(t).Some? {
      NamedReadsBack(nameOf, t);
    }
  }

  /** With a live thread and readable names, a fresh report costs one of its threads its entry. */
  lemma HandledErases(nameOf: Tid -> string, s: Scene, r: seq<Thread>, world: World) returns (v: Thread)
    requires Fresh(s, r) && HasLive(r, world) && ThreadsNamed(nameOf, r)
    ensures var s' := Handled(nameOf, s, r, world);
      && v in r && s'.view.waitsFor == s.view.waitsFor - {v}
      && |s'.records| == |s.records| + 1 && s.records <= s'.records && s'.records[|s.records|].cycle == r
      && s'.counter == s.counter + 1
  {
    NamedNeverThrow(nameOf, r, world);
    v := PickVictim(r, world.alive).name;
    NamedReadsBack(nameOf, v);
    hide PickVictim, Fresh, LocksNamed, GetThreadIdentifier, ExtractTid, HasLive, ThreadsNamed, Named;
  }

  lemma DefusedGrows(d: seq<Record>, d': seq<Record>, g: WaitGraph, r: seq<Thread>, v: Thread)
    requires Defused(d, g) && |d'| == |d| + 1 && d <= d' && d'[|d|].cycle == r && v in r
    ensures Defused(d', g - {v})
  {
    forall k | 0 <= k < |d'| ensures exists w :: w in d'[k].cycle && w !in g - {v} {
      if k < |d| {
        assert d'[k] == d[k];
        var w :| w in d[k].cycle && w !in g;
        assert w in d'[k].cycle;
      } else {
        assert v in d'[k].cycle;
      }
    }
  }

  ghost predicate AllThreadsNamed(nameOf: Tid -> string, found: seq<seq<Thread>>) {
    forall k :: 0 <= k < |found| ==> |found[k]| >= 2 && ThreadsNamed(nameOf, found[k])
  }

  lemma HandledErasesListed(nameOf: Tid -> string, s: Scene, r: seq<Thread>, world: World)
    requires ThreadsNamed(nameOf, r)
    ensures forall t :: t in s.view.waitsFor && t !in Handled(nameOf, s, r, world).view.waitsFor ==> t in r
  {
    if Fresh(s, r) {
      match PickVictim(r, world.alive)
      case Victim(name, _) => NamedReadsBack(nameOf, name);
      case _ =>
    }
  }

  /** With readable names, nobody loses its entry who is not listed in a report. */
  lemma {:induction false} ErasedAreListed(nameOf: Tid -> string, s0: Scene, found: seq<seq<Thread>>, world: World, t: Thread) returns (k: nat)
    requires AllThreadsNamed(nameOf, found) && t in s0.view.waitsFor && t !in Replay(nameOf, s0, found, world).view.waitsFor
    ensures k < |found| && t in found[k]
  {
    var n := |found| - 1;
    var m := Replay(nameOf, s0, found[..n], world);
    if t in m.view.waitsFor {
      HandledErasesListed(nameOf, m, found[n], world);
      k := n;
    } else {
      k := ErasedAreListed(nameOf, s0, found[..n], world, t);
    }
  }

  /** So every scan that runs to its end covers all doomed threads, whatever it counted on the way. */
  lemma NamedScanCoversAll(c: Call, s': Scene, found: seq<seq<Thread>>)
    requires ScanResult(c, s', found) && s'.active && VerticesNamed(c.nameOf, c.before.view.waitsFor)
    ensures Covered(found) == Doomed(c.before.view.waitsFor)
  {
    var g := c.before.view.waitsFor;
    FoundNamed(c.nameOf, g, found);
    forall t | t in g && t !in s'.view.waitsFor ensures t in Covered(found) {
      var k := ErasedAreListed(c.nameOf, c.before, found, c.world, t);
      var j := ListedExactlyOnce(g, found, k, t);
    }
  }

  ghost predicate AllListed(found: seq<seq<Thread>>, g: WaitGraph) {
    forall k :: 0 <= k < |found| ==> forall t :: t in found[k] ==> t in g
  }

  /** If each new report lists a live thread, the first of them costs the graph a key, and records that
      are defused stay so. */
  lemma {:induction false} ReplayErases(nameOf: Tid -> string, s0: Scene, found: seq<seq<Thread>>, world: World)
    requires AllThreadsNamed(nameOf, found) && AllListed(found, s0.view.waitsFor)
    requires LiveFrom(Replay(nameOf, s0, found, world).records, |s0.records|, world)
    ensures var s := Replay(nameOf, s0, found, world);
      && s.view.waitsFor.Keys <= s0.view.waitsFor.Keys
      && (s.counter > s0.counter ==> s.view.waitsFor.Keys < s0.view.waitsFor.Keys)
      && (Defused(s0.records, s0.view.waitsFor) ==> Defused(s.records, s.view.waitsFor))
  {
    if found != [] {
      var init, r := found[..|found| - 1], found[|found| - 1];
      var m := Replay(nameOf, s0, init, world);
      var s := Handled(nameOf, m, r, world);
      HandledShrinks(nameOf, m, r, world);
      ReplayShrinks(nameOf, s0, init, world);
      assert forall k :: 0 <= k < |m.records| ==> s.records[k] == m.records[k];
      ReplayErases(nameOf, s0, init, world);
      ReplayGrowsIff(nameOf, s0, init, world);
      if Fresh(m, r) {
        NamedNeverThrow(nameOf, r, world);
        assert HasLive(s.records[|m.records|].cycle, world);
        var v := HandledErases(nameOf, m, r, world);
        if Defused(m.records, m.view.waitsFor) {
          DefusedGrows(m.records, s.records, m.view.waitsFor, r, v);
        }
      }
    }
  }

  /** Every thread that waits reads back to a live tid: checkable before the call. */
  ghost predicate KeysLive(g: WaitGraph, world: World) {
    forall t :: t in g ==> ExtractTid(t).Some? && ExtractTid(t).value in world.alive
  }

  /** Then every report found lists a live thread, and so does every record made. */
  lemma KeysLiveMeansLive(nameOf: Tid -> string, s0: Scene, found: seq<seq<Thread>>, world: World)
    requires KeysLive(s0.view.waitsFor, world) && GoodReports(s0.view.waitsFor, found)
    ensures LiveFrom(Replay(nameOf, s0, found, world).records, |s0.records|, world)
  {
    var s := Replay(nameOf, s0, found, world);
    NewRecordsAreFound(nameOf, s0, found, world);
    forall k | |s0.records| <= k < |s.records| ensures HasLive(s.records[k].cycle, world) {
      var i :| 0 <= i < |found| && found[i] == s.records[k].cycle;
      ListedAreKeys(s0.view.waitsFor, found, i);
      assert found[i][0] in found[i];
    }
  }

  // ---------------------------------------------------------------- the whole call

  /** `resolve_group_deadlock`: of its work on the process only the switch-off of monitoring and the
      return value are visible here. */
  method ResolveGroupDeadlock(gs: GlobalState, info: GroupDeadlockInfo) returns (ok: bool)
    modifies gs`monitoringActive
    ensures ok && !gs.monitoringActive
  {
    gs.monitoringActive := false;
    ok := true;
  }

  /** Nothing is sure to be reported. */
  ghost predicate AtRest(s: Scene) {
    !s.active || CompleteOnRecord(s.records, s.view.waitsFor)
  }

  /** What one call does if each new report lists a live thread: nothing, if nothing is sure to be
      reported; otherwise it switches itself off for good (the group path) or it counts a deadlock and
      takes at least one entry out of the wait graph. */
  ghost predicate CallEffect(s: Scene, s': Scene) {
    || (s' == s && AtRest(s))
    || (s.active && s' == s.(active := false, counter := s.counter + 1))
    || (s.active && s'.active && Cyclic(s.view.waitsFor) && s'.counter > s.counter
        && s'.view.waitsFor.Keys < s.view.waitsFor.Keys)
  }

  /** What a call guarantees when names read back and each report it records lists a live thread: its
      effect is as above, names still read back, and records that were defused still are. */
  ghost predicate QuietOutcome(c: Call, s': Scene) {
    var s := c.before;
    AllNamed(c.nameOf, s.view) && LiveFrom(s'.records, |s.records|, c.world) ==>
      CallEffect(s, s') && AllNamed(c.nameOf, s'.view) &&
      (Defused(s.records, s.view.waitsFor) ==> Defused(s'.records, s'.view.waitsFor))
  }

  lemma FoundNamed(nameOf: Tid -> string, g: WaitGraph, found: seq<seq<Thread>>)
    requires VerticesNamed(nameOf, g) && GoodReports(g, found)
    ensures AllThreadsNamed(nameOf, found)
  {
    forall k | 0 <= k < |found| ensures |found[k]| >= 2 && ThreadsNamed(nameOf, found[k]) {
      ListedAreKeys(g, found, k);
    }
  }

  lemma FoundListed(g: WaitGraph, found: seq<seq<Thread>>)
    requires GoodReports(g, found)
    ensures AllListed(found, g)
  {
    forall k | 0 <= k < |found| ensures forall t :: t in found[k] ==> t in g {
      ListedAreKeys(g, found, k);
    }
  }

  lemma ScanOutcome(c: Call, s': Scene, found: seq<seq<Thread>>)
    requires ScanResult(c, s', found) && c.before.active && s'.active
    ensures QuietOutcome(c, s') && Shrunk(c.before.view, s'.view)
    ensures KeysLive(c.before.view.waitsFor, c.world) ==> LiveFrom(s'.records, |c.before.records|, c.world)
  {
    var s := c.before;
    ReplayShrinks(c.nameOf, s, found, c.world);
    if KeysLive(s.view.waitsFor, c.world) {
      KeysLiveMeansLive(c.nameOf, s, found, c.world);
    }
    if AllNamed(c.nameOf, s.view) && LiveFrom(s'.records, |s.records|, c.world) {
      FoundNamed(c.nameOf, s.view.waitsFor, found);
      FoundListed(s.view.waitsFor, found);
      ReplayErases(c.nameOf, s, found, c.world);
      ReplayGrowsIff(c.nameOf, s, found, c.world);
      ShrunkKeepsNames(c.nameOf, s.view, s'.view);
      if s'.counter == s.counter {
        SilentMeansComplete(c, s', found);
      }
    }
  }

  lemma GroupOutcome(c: Call, s': Scene)
    requires var s := c.before; (s' == s && !s.active) || (s.active && s' == s.(active := false, counter := s.counter + 1))
    ensures QuietOutcome(c, s') && Shrunk(c.before.view, s'.view) && LiveFrom(s'.records, |c.before.records|, c.world)
  {}

  /** The group-level half of a call. */
  method TryGroups(gs: GlobalState, o: Order) returns (threw: bool, handled: bool)
    requires OrderOf(o, gs.View())
    modifies gs`deadlockCounter, gs`monitoringActive
    ensures threw ==> Cyclic(GroupGraph(gs.View(), o)) && !handled && !AllNamed(gs.nameOf, gs.View())
    ensures !threw ==> (handled <==> Cyclic(GroupGraph(gs.View(), o)))
    ensures handled ==> !gs.monitoringActive && gs.deadlockCounter == old(gs.deadlockCounter) + 1
    ensures !handled ==> unchanged(gs)
  {
    var info;
    threw, info := DetectGroupDeadlock(gs, o);
    if threw {
      if AllNamed(gs.nameOf, gs.View()) {
        GroupedReadBack(gs.nameOf, gs.View(), o);
      }
      return true, false;
    }
    handled := false;
    if |info.groupCycle| >= 2 {
      gs.deadlockCounter := gs.deadlockCounter + 1;
      handled := ResolveGroupDeadlock(gs, info);
    }
  }

  /** The contract of one call, with `found` what the thread-level scan found.  Switched off: nothing.
      A group cycle: one count, and monitoring off.  Otherwise: a scan.  Only unreadable names make a
      call throw.  With readable names a scan covers all threads that could reach a cycle, and a call
      that does not throw does right by a quiet system. */
  ghost predicate CallResult(c: Call, s': Scene, threw: bool, found: seq<seq<Thread>>) {
    var s := c.before;
    && (!s.active ==> !threw && s' == s && found == [])
    && (s.active && Cyclic(GroupGraph(s.view, c.order)) ==>
          found == [] && s' == if threw then s else s.(active := false, counter := s.counter + 1))
    && (s.active && !Cyclic(GroupGraph(s.view, c.order)) ==>
          ScanResult(c, s', found) && s'.active == !threw &&
          (AllNamed(c.nameOf, s.view) ==> Covered(found) == Doomed(s.view.waitsFor)))
    && (AllNamed(c.nameOf, s.view) ==> !threw)
    && (!threw ==> QuietOutcome(c, s') && Shrunk(s.view, s'.view))
    && (!threw && KeysLive(s.view.waitsFor, c.world) ==> LiveFrom(s'.records, |s.records|, c.world))
  }

  lemma InactiveCall(c: Call)
    requires !c.before.active
    ensures CallResult(c, c.before, false, [])
  {
    GroupOutcome(c, c.before);
  }

  lemma GroupCall(c: Call, s': Scene, threw: bool)
    requires c.before.active && Cyclic(GroupGraph(c.before.view, c.order)) && (AllNamed(c.nameOf, c.before.view) ==> !threw)
    requires s' == if threw then c.before else c.before.(active := false, counter := c.before.counter + 1)
    ensures CallResult(c, s', threw, [])
  {
    if !threw {
      GroupOutcome(c, s');
    }
  }

  lemma ScanCall(c: Call, s': Scene, threw: bool, found: seq<seq<Thread>>)
    requires c.before.active && !Cyclic(GroupGraph(c.before.view, c.order)) && ScanResult(c, s', found)
    requires threw ==> found != [] && PickVictim(found[|found| - 1], c.world.alive).Throws?
    requires s'.active == !threw
    ensures CallResult(c, s', threw, found)
  {
    if threw {
      ThrownIsUnnamed(c, s', found);
    } else {
      ScanOutcome(c, s', found);
      if AllNamed(c.nameOf, c.before.view) {
        NamedScanCoversAll(c, s', found);
      }
    }
  }

  lemma ThrownIsUnnamed(c: Call, s': Scene, found: seq<seq<Thread>>)
    requires ScanResult(c, s', found)
    requires found != [] && PickVictim(found[|found| - 1], c.world.alive).Throws?
    ensures !AllNamed(c.nameOf, c.before.view)
  {
    if AllNamed(c.nameOf, c.before.view) {
      FoundNamed(c.nameOf, c.before.view.waitsFor, found);
      NamedNeverThrow(c.nameOf, found[|found| - 1], c.world);
    }
  }

  /** With readable names no grouped thread makes the tid reader throw. */
  lemma GroupedReadBack(nameOf: Tid -> string, s: Tables, o: Order)
    requires OrderOf(o, s) && AllNamed(nameOf, s)
    ensures forall t :: Grouped(GroupThreads(s, o), t) ==> ExtractTid(t).Some?
  {
    forall t | Grouped(GroupThreads(s, o), t) ensures ExtractTid(t).Some? {
      GroupsCover(s, o, t);
      NamedReadsBack(nameOf, t);
    }
  }

  /** `detect_and_resolve_deadlocks`. */
  method DetectAndResolveDeadlocks(gs: GlobalState, o: Order, world: World) returns (threw: bool, ghost found: seq<seq<Thread>>)
    requires OrderOf(o, gs.View())
    modifies gs
    ensures CallResult(Call(gs.nameOf, old(SceneOf(gs)), o, world), SceneOf(gs), threw, found)
  {
    ghost var c := Call(gs.nameOf, SceneOf(gs), o, world);
    found := [];
    hide CallResult, GroupGraph, Cyclic, AllNamed, OrderOf;
    if !gs.monitoringActive {
      InactiveCall(c);
      return false, found;
    }
    var handled;
    threw, handled := TryGroups(gs, o);
    if threw || handled {
      GroupCall(c, SceneOf(gs), threw);
      return;
    }
    threw, found := ScanAndResolve(gs, o, world);
    ScanCall(c, SceneOf(gs), threw, found);
  }

  // ---------------------------------------------------------------- when a call can be silent

  /** Whatever the call makes of it, the order leaves everything as it was. */
  ghost predicate CallSilenced(c: Call) {
    forall s', threw, found :: CallResult(c, s', threw, found) ==> s' == c.before
  }

  ghost predicate CallSpeaks(c: Call) {
    forall s', threw, found :: CallResult(c, s', threw, found) ==> s'.counter > c.before.counter
  }

  /** Exactly when a call on the thread path can pass over what it is there to find, told from the state
      before the call: some order of `waits_for` and its sets leaves everything as it was iff a complete
      list of reports is on record; otherwise every order counts a deadlock. */
  lemma SilentCallIff(nameOf: Tid -> string, s: Scene, o: Order, world: World)
    requires s.active && OrderOf(o, s.view) && !Cyclic(GroupGraph(s.view, o))
    ensures CompleteOnRecord(s.records, s.view.waitsFor) ==>
      exists o' :: OrderOf(o', s.view) && o'.holders == o.holders && CallSilenced(Call(nameOf, s, o', world))
    ensures !CompleteOnRecord(s.records, s.view.waitsFor) ==>
      forall o' :: OrderOf(o', s.view) && o'.holders == o.holders ==> CallSpeaks(Call(nameOf, s, o', world))
  {
    SilenceIff(nameOf, s, o.holders, world);
    forall o' | OrderOf(o', s.view) && o'.holders == o.holders
      ensures !Cyclic(GroupGraph(s.view, o'))
      ensures Silences(Call(nameOf, s, o', world)) ==> CallSilenced(Call(nameOf, s, o', world))
      ensures Speaks(Call(nameOf, s, o', world)) ==> CallSpeaks(Call(nameOf, s, o', world))
    {
      if Cyclic(GroupGraph(s.view, o')) {
        GroupVerdictIgnoresWaiters(s.view, o', o);
      }
      hide GroupGraph, Cyclic, ScanResult, QuietOutcome;
    }
  }

  // ---------------------------------------------------------------- one traced event

  /** The tables after one stop of a thread at a system call. */
  function Seen(thread: Thread, v: Tables, call: Syscall): Tables {
    match EventOf(thread, call)
    case None => v
    case Some(e) => Step(v, e)
  }

  function Observed(gs: GlobalState, tid: Tid, call: Syscall): Tables
    reads gs
  {
    Seen(gs.IdentifierOf(tid), gs.View(), call)
  }

  /** The verdict on a scan in plain terms.  One of the reports found is new if no complete list is on
      record, and none is if known reports are laid out for the scan. */
  ghost predicate Verdict(c: Call, s': Scene, found: seq<seq<Thread>>) {
    var s := c.before;
    && GoodReports(s.view.waitsFor, found)
    && (found == [] <==> !Cyclic(s.view.waitsFor))
    && (s'.counter > s.counter <==> !AllKnown(s.records, found))
    && (s'.counter > s.counter ==> |s'.records| > |s.records| && s.records <= s'.records)
    && AddedFrom(s.records, s'.records, found)
    && Covered(found) == Doomed(s.view.waitsFor)
    && (s'.counter <= s.counter ==> s' == s)
    && (!CompleteOnRecord(s.records, s.view.waitsFor) ==> s'.counter > s.counter)
    && (forall rs :: LaidAndKnown(c, rs) ==> s' == s && found == rs)
  }

  lemma ScanVerdict(c: Call, s': Scene, found: seq<seq<Thread>>)
    requires ScanResult(c, s', found) && c.before.active && s'.active && AllNamed(c.nameOf, c.before.view)
    ensures Verdict(c, s', found)
  {
    var s := c.before;
    NamedScanCoversAll(c, s', found);
    ReplayGrowsIff(c.nameOf, s, found, c.world);
    ReplayShrinks(c.nameOf, s, found, c.world);
    NewRecordsAreFound(c.nameOf, s, found, c.world);
    FoundNamed(c.nameOf, s.view.waitsFor, found);
    forall k | 0 <= k < |found| ensures !PickVictim(found[k], c.world.alive).Throws? {
      NamedNeverThrow(c.nameOf, found[k], c.world);
    }
    ReplayRecordsAll(c.nameOf, s, found, c.world);
    if s'.counter == s.counter {
      SilentMeansComplete(c, s', found);
    }
  }

  /** `handle_event` for a live thread: the system call is recorded and detection runs at once, with
      exceptions swallowed.  On the thread path the reports cover exactly the doomed threads; the event
      is counted and recorded iff one of them was not on record before, and otherwise detection leaves
      everything as it was. */
  method HandleEvent(gs: GlobalState, tid: Tid, call: Syscall, o: Order, world: World)
    returns (ghost threw: bool, ghost found: seq<seq<Thread>>)
    requires OrderOf(o, Observed(gs, tid, call))
    modifies gs
    ensures var c := Call(gs.nameOf, old(SceneOf(gs)).(view := old(Observed(gs, tid, call))), o, world);
      && CallResult(c, SceneOf(gs), threw, found)
      && (c.before.active && AllNamed(gs.nameOf, c.before.view) ==>
            if Cyclic(GroupGraph(c.before.view, o)) then SceneOf(gs) == c.before.(active := false, counter := c.before.counter + 1)
            else gs.monitoringActive && Verdict(c, SceneOf(gs), found))
  {
    HandleSyscall(gs, tid, call);
    ghost var c := Call(gs.nameOf, SceneOf(gs), o, world);
    assert c.before == old(SceneOf(gs)).(view := old(Observed(gs, tid, call)));
    threw, found := DetectAndResolveDeadlocks(gs, o, world);
    if c.before.active && AllNamed(gs.nameOf, c.before.view) && !Cyclic(GroupGraph(c.before.view, o)) {
      ScanVerdict(c, SceneOf(gs), found);
    }
  }
}
