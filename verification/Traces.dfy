/** The tracer's runs: stop after stop through `handle_event`, from the first state on. */
module Traces {
  import opened Graphs
  import opened Identifiers
  import opened State
  import opened Monitoring
  import opened ConflictGroups
  import opened Quotients
  import opened Resolution
  import opened Latency
  import opened Scenarios
  import opened Reports
  import opened Silence
  import opened Detection

  // ---------------------------------------------------------------- tables that a run explains

  /** The events among the actions. */
  ghost function EventsIn(acts: seq<Action>): seq<Event> {
    if acts == [] then []
    else
      var last := acts[|acts| - 1];
      EventsIn(acts[..|acts| - 1]) + if last.Observe? then [last.event] else []
  }

  /** The tables are those after a run of these events with clean-ups and breaks in between. */
  ghost predicate Traced(events: seq<Event>, t: Tables) {
    exists acts :: Explains(acts, events, t)
  }

  ghost predicate Explains(acts: seq<Action>, events: seq<Event>, t: Tables) {
    After(acts, |acts|) == t && EventsIn(acts) == events
  }

  lemma {:induction false} AfterPrefix(acts: seq<Action>, act: Action, n: nat)
    requires n <= |acts|
    ensures After(acts + [act], n) == After(acts, n)
  {
    if n > 0 {
      AfterPrefix(acts, act, n - 1);
    }
  }

  lemma ActTraced(events: seq<Event>, t: Tables, act: Action)
    requires Traced(events, t)
    ensures Traced(events + if act.Observe? then [act.event] else [], Act(t, act))
  {
    var acts :| Explains(acts, events, t);
    AfterPrefix(acts, act, |acts|);
    assert (acts + [act])[..|acts|] == acts;
    assert Explains(acts + [act], events + if act.Observe? then [act.event] else [], Act(t, act));
  }

  /** Handling a report is a clean-up, a break or nothing to the tables. */
  lemma HandledTraced(nameOf: Tid -> string, events: seq<Event>, s: Scene, r: seq<Thread>, world: World)
    requires Traced(events, s.view)
    ensures Traced(events, Handled(nameOf, s, r, world).view)
  {
    if Fresh(s, r) {
      match PickVictim(r, world.alive)
      case Victim(name, tid) =>
        ActTraced(events, s.view, CleanUp(name, LocksNamed(s.view, r)));
        ActTraced(events, s.view, Break(GetThreadIdentifier(nameOf(tid), tid)));
        assert events + [] == events;
      case _ =>
    }
  }

  lemma {:induction false} ReplayTraced(nameOf: Tid -> string, events: seq<Event>, s: Scene, reports: seq<seq<Thread>>, world: World)
    requires Traced(events, s.view)
    ensures Traced(events, Replay(nameOf, s, reports, world).view)
  {
    if reports != [] {
      var init := reports[..|reports| - 1];
      ReplayTraced(nameOf, events, s, init, world);
      HandledTraced(nameOf, events, Replay(nameOf, s, init, world), reports[|reports| - 1], world);
    }
  }

  // ---------------------------------------------------------------- runs of the tracer

  /** One stop of a live thread at a system call; a call that completes stops twice. */
  datatype Stop = Stop(tid: Tid, call: Syscall)

  /** A run: its stops, the iteration orders and the outside world at each of them, and the states
      before the first, between them and after the last. */
  datatype Trail = Trail(nameOf: Tid -> string, stops: seq<Stop>, orders: seq<Order>, worlds: seq<World>, scenes: seq<Scene>)

  const START := Scene(EMPTY_TABLES, true, [], 0)

  ghost function NameAt(tr: Trail, i: nat): Thread
    requires i < |tr.stops|
  {
    GetThreadIdentifier(tr.nameOf(tr.stops[i].tid), tr.stops[i].tid)
  }

  /** The tables that detection faces at the i-th stop. */
  ghost function SeenAt(tr: Trail, i: nat): Tables
    requires i < |tr.stops| && i < |tr.scenes|
  {
    Seen(NameAt(tr, i), tr.scenes[i].view, tr.stops[i].call)
  }

  ghost function CallAt(tr: Trail, i: nat): Call
    requires i < |tr.stops| && i < |tr.scenes| && i < |tr.orders| && i < |tr.worlds|
  {
    Call(tr.nameOf, tr.scenes[i].(view := SeenAt(tr, i)), tr.orders[i], tr.worlds[i])
  }

  ghost predicate Turned(c: Call, s': Scene) {
    OrderOf(c.order, c.before.view) && exists threw, found :: CallResult(c, s', threw, found)
  }

  ghost predicate Fits(tr: Trail) {
    |tr.orders| == |tr.worlds| == |tr.stops| && |tr.scenes| == |tr.stops| + 1
  }

  /** Every stop is handled from the state the one before it left. */
  ghost predicate Proper(tr: Trail) {
    Fits(tr) && tr.scenes[0] == START && forall i :: 0 <= i < |tr.stops| ==> Turned(CallAt(tr, i), tr.scenes[i + 1])
  }

  /** The futex events among the first stops. */
  ghost function EventsOf(tr: Trail, n: nat): seq<Event>
    requires n <= |tr.stops|
  {
    if n == 0 then []
    else EventsOf(tr, n - 1) + ShownBy(NameAt(tr, n - 1), tr.stops[n - 1].call)
  }

  /** The event that a call of the thread is, if any. */
  ghost function ShownBy(thread: Thread, call: Syscall): seq<Event> {
    if exists e :: Shows(thread, call, e) then
      var e :| Shows(thread, call, e);
      [e]
    else []
  }

  lemma SeenTraced(events: seq<Event>, t: Tables, thread: Thread, call: Syscall)
    requires Traced(events, t)
    ensures Traced(events + ShownBy(thread, call), Seen(thread, t, call))
  {
    ShownIs(thread, call);
    match EventOf(thread, call)
    case None => assert events + [] == events;
    case Some(e) => ActTraced(events, t, Observe(e));
  }

  lemma ShownIs(thread: Thread, call: Syscall)
    ensures ShownBy(thread, call) == match EventOf(thread, call) case None => [] case Some(e) => [e]
  {
    forall e ensures Shows(thread, call, e) <==> EventOf(thread, call) == Some(e) {
      EventOfIff(thread, call, e);
    }
    match EventOf(thread, call)
    case None =>
    case Some(e) => assert Shows(thread, call, e);
  }

  lemma TurnTraced(c: Call, s': Scene, events: seq<Event>)
    requires Turned(c, s') && Traced(events, c.before.view)
    ensures Traced(events, s'.view)
  {
    var threw, found :| CallResult(c, s', threw, found);
    ReplayTraced(c.nameOf, events, c.before, found, c.world);
  }

  lemma StartIsTraced()
    ensures Traced([], START.view)
  {
    assert Explains([], [], EMPTY_TABLES);
  }

  /** Whatever the handler leaves is the outcome of the events so far, with clean-ups in between; so is
      what detection faces in between. */
  lemma {:induction false} RunsAreTraced(tr: Trail, n: nat)
    requires Proper(tr) && n <= |tr.stops|
    ensures Traced(EventsOf(tr, n), tr.scenes[n].view)
    ensures n < |tr.stops| ==> Traced(EventsOf(tr, n + 1), SeenAt(tr, n))
  {
    hide Traced, Seen, Turned;
    if n == 0 {
      StartIsTraced();
    } else {
      RunsAreTraced(tr, n - 1);
      assert Turned(CallAt(tr, n - 1), tr.scenes[n - 1 + 1]);
      TurnTraced(CallAt(tr, n - 1), tr.scenes[n - 1 + 1], EventsOf(tr, n));
    }
    if n < |tr.stops| {
      SeenTraced(EventsOf(tr, n), tr.scenes[n].view, NameAt(tr, n), tr.stops[n].call);
    }
  }

  // ---------------------------------------------------------------- what holds in every such state

  ghost predicate ShortCyclesListed(g: WaitGraph) {
    forall sc :: Listed(g, sc) <==> 2 <= |sc| <= 3 && SimpleCycle(g, sc)
  }

  ghost predicate VerdictsAgree(s: Tables) {
    NothingShared(s.threadLocks) ==> forall o :: OrderOf(o, s) ==> (Cyclic(GroupGraph(s, o)) <==> Cyclic(s.waitsFor))
  }

  /** A cyclic state can be explained by a run in which one wait made it cyclic. */
  ghost predicate AroseInOneWait(events: seq<Event>, s: Tables) {
    Cyclic(s.waitsFor) ==> exists acts, k, t, u :: Explains(acts, events, s) && ArisesAt(acts, |acts|, k, t, u)
  }

  lemma TracedStates(events: seq<Event>, s: Tables)
    requires Traced(events, s)
    ensures NoSelfEdges(s.waitsFor) && ShortCyclesListed(s.waitsFor) && VerdictsAgree(s) && AroseInOneWait(events, s)
  {
    var acts :| Explains(acts, events, s);
    NeverSelfEdge(acts, |acts|);
    forall sc ensures Listed(s.waitsFor, sc) <==> 2 <= |sc| <= 3 && SimpleCycle(s.waitsFor, sc) {
      ListedAreShortCycles(acts, |acts|, sc);
    }
    if NothingShared(s.threadLocks) {
      forall o | OrderOf(o, s) ensures Cyclic(GroupGraph(s, o)) <==> Cyclic(s.waitsFor) {
        GroupVerdictIsThreadVerdict(acts, |acts|, o);
      }
    }
    if Cyclic(s.waitsFor) {
      var k, t, u := ZeroLatency(acts, |acts|);
    }
  }

  // ---------------------------------------------------------------- every deadlock is answered

  ghost predicate NamesRead(tr: Trail) {
    forall i :: 0 <= i < |tr.stops| ==> Named(tr.nameOf, NameAt(tr, i))
  }

  lemma {:induction false} RunKeepsNames(tr: Trail, n: nat)
    requires Proper(tr) && NamesRead(tr) && n <= |tr.stops|
    ensures AllNamed(tr.nameOf, tr.scenes[n].view)
    ensures n < |tr.stops| ==> AllNamed(tr.nameOf, SeenAt(tr, n))
  {
    hide AllNamed, Named, Seen, Turned;
    if n > 0 {
      RunKeepsNames(tr, n - 1);
      assert Turned(CallAt(tr, n - 1), tr.scenes[n - 1 + 1]);
      CallKeepsReadable(CallAt(tr, n - 1), tr.scenes[n - 1 + 1]);
    }
    if n == 0 {
      StartIsNamed(tr.nameOf);
    }
    if n < |tr.stops| {
      SeenKeepsNames(tr.nameOf, tr.scenes[n].view, NameAt(tr, n), tr.stops[n].call);
    }
  }

  lemma StartIsNamed(nameOf: Tid -> string)
    ensures AllNamed(nameOf, START.view)
  {}

  lemma SeenKeepsNames(nameOf: Tid -> string, v: Tables, thread: Thread, call: Syscall)
    requires AllNamed(nameOf, v) && Named(nameOf, thread)
    ensures AllNamed(nameOf, Seen(thread, v, call))
  {
    hide AllNamed, Named, Step;
    match EventOf(thread, call)
    case None =>
    case Some(e) => StepKeepsNames(nameOf, v, e);
  }

  lemma CallKeepsReadable(c: Call, s': Scene)
    requires Turned(c, s') && AllNamed(c.nameOf, c.before.view)
    ensures AllNamed(c.nameOf, s'.view)
  {
    ShrunkKeepsNames(c.nameOf, c.before.view, s'.view);
  }

  /** Over every run with monitoring on: a stop that leaves a group cycle switches it off; otherwise the
      stop's scan finds reports whose heads are exactly the threads that can reach a cycle, and handles
      every one of them. */
  lemma EveryStopCoversAll(tr: Trail, i: nat) returns (found: seq<seq<Thread>>)
    requires Proper(tr) && NamesRead(tr) && i < |tr.stops| && tr.scenes[i].active
    ensures var c, s' := CallAt(tr, i), tr.scenes[i + 1];
      if Cyclic(GroupGraph(c.before.view, c.order)) then s' == c.before.(active := false, counter := c.before.counter + 1)
      else s'.active && Verdict(c, s', found) && s' == Replay(c.nameOf, c.before, found, c.world)
  {
    RunKeepsNames(tr, i);
    var c, s' := CallAt(tr, i), tr.scenes[i + 1];
    assert Turned(c, s');
    hide AllNamed, Verdict, QuietOutcome, Cyclic, GroupGraph;
    var threw;
    threw, found :| CallResult(c, s', threw, found);
    if !Cyclic(GroupGraph(c.before.view, c.order)) {
      ScanVerdict(c, s', found);
    }
  }

  /** In particular, if a stop leaves a wait cycle while monitoring is on, then a deadlock is counted in
      that stop, unless a complete list of reports of this very graph is on record. */
  lemma EveryDeadlockIsAnswered(tr: Trail, i: nat)
    requires Proper(tr) && NamesRead(tr) && i < |tr.stops|
    requires tr.scenes[i].active && Cyclic(SeenAt(tr, i).waitsFor)
    ensures tr.scenes[i + 1].counter > tr.scenes[i].counter
         || (tr.scenes[i + 1] == CallAt(tr, i).before && CompleteOnRecord(tr.scenes[i].records, SeenAt(tr, i).waitsFor))
  {
    var found := EveryStopCoversAll(tr, i);
  }

  // ---------------------------------------------------------------- ownership

  /** No shadow process can be forked, so that every resolution is an emergency break. */
  ghost predicate NoShadow(world: World) {
    forall d :: !world.shadowRuns(d)
  }

  lemma BreakingKeepsOwners(nameOf: Tid -> string, s: Scene, r: seq<Thread>, world: World)
    requires OwnersListed(s.view) && NoShadow(world)
    ensures OwnersListed(Handled(nameOf, s, r, world).view)
  {
    hide OwnersListed, LocksNamed, PickVictim, GetThreadIdentifier, ExtractTid, Broken;
    match PickVictim(r, world.alive)
    case Victim(name, tid) => BreakKeepsOwners(s.view, GetThreadIdentifier(nameOf(tid), tid));
    case _ =>
  }

  lemma {:induction false} BreaksKeepOwners(nameOf: Tid -> string, s: Scene, reports: seq<seq<Thread>>, world: World)
    requires OwnersListed(s.view) && NoShadow(world)
    ensures OwnersListed(Replay(nameOf, s, reports, world).view)
  {
    if reports != [] {
      var init := reports[..|reports| - 1];
      BreaksKeepOwners(nameOf, s, init, world);
      BreakingKeepsOwners(nameOf, Replay(nameOf, s, init, world), reports[|reports| - 1], world);
    }
  }

  lemma TurnKeepsOwners(c: Call, s': Scene)
    requires Turned(c, s') && OwnersListed(c.before.view) && NoShadow(c.world)
    ensures OwnersListed(s'.view)
  {
    var threw, found :| CallResult(c, s', threw, found);
    BreaksKeepOwners(c.nameOf, c.before, found, c.world);
  }

  lemma SeenKeepsOwners(v: Tables, thread: Thread, call: Syscall)
    requires OwnersListed(v)
    ensures OwnersListed(Seen(thread, v, call))
  {
    hide OwnersListed, Step;
    match EventOf(thread, call)
    case None =>
    case Some(e) => EventKeepsOwners(v, e);
  }

  lemma NobodyOwns()
    ensures OwnersListed(START.view)
  {}

  /** Over every run in which all resolutions are emergency breaks, whoever owns a lock has it listed. */
  lemma {:induction false} RunKeepsOwners(tr: Trail, n: nat)
    requires Proper(tr) && n <= |tr.stops|
    requires forall i :: 0 <= i < n ==> NoShadow(tr.worlds[i])
    ensures OwnersListed(tr.scenes[n].view)
  {
    hide OwnersListed, Turned, Seen, NoShadow;
    if n == 0 {
      NobodyOwns();
    } else {
      RunKeepsOwners(tr, n - 1);
      assert Turned(CallAt(tr, n - 1), tr.scenes[n - 1 + 1]);
      SeenKeepsOwners(tr.scenes[n - 1].view, NameAt(tr, n - 1), tr.stops[n - 1].call);
      TurnKeepsOwners(CallAt(tr, n - 1), tr.scenes[n]);
    }
  }

  // ---------------------------------------------------------------- the tracer's main loop

  /** A prefix of the stops, handled. */
  ghost predicate HandledSo(tr: Trail, nameOf: Tid -> string, stops: seq<Stop>, worlds: seq<World>, k: nat, s: Scene)
    requires k <= |stops| && k <= |worlds|
  {
    tr.nameOf == nameOf && tr.stops == stops[..k] && tr.worlds == worlds[..k] && Proper(tr) && tr.scenes[k] == s
  }

  ghost function Longer(tr: Trail, stop: Stop, o: Order, world: World, s: Scene): Trail {
    Trail(tr.nameOf, tr.stops + [stop], tr.orders + [o], tr.worlds + [world], tr.scenes + [s])
  }

  lemma LongerCalls(tr: Trail, stop: Stop, o: Order, world: World, s: Scene, i: nat)
    requires Fits(tr) && i < |tr.stops|
    ensures var tr' := Longer(tr, stop, o, world, s); Fits(tr') && CallAt(tr', i) == CallAt(tr, i) && tr'.scenes[i + 1] == tr.scenes[i + 1]
  {
    hide Seen;
  }

  lemma LastCall(tr: Trail, stop: Stop, o: Order, world: World, s: Scene)
    requires Fits(tr)
    ensures var tr', n, t := Longer(tr, stop, o, world, s), |tr.stops|, GetThreadIdentifier(tr.nameOf(stop.tid), stop.tid);
      && Fits(tr') && tr'.scenes[n + 1] == s
      && CallAt(tr', n) == Call(tr.nameOf, tr.scenes[n].(view := Seen(t, tr.scenes[n].view, stop.call)), o, world)
  {
    hide Seen, GetThreadIdentifier;
  }

  /** One more stop, handled. */
  lemma LongerIsProper(tr: Trail, stop: Stop, o: Order, world: World, s: Scene)
    requires Proper(tr)
    requires var n, t := |tr.stops|, GetThreadIdentifier(tr.nameOf(stop.tid), stop.tid);
      Turned(Call(tr.nameOf, tr.scenes[n].(view := Seen(t, tr.scenes[n].view, stop.call)), o, world), s)
    ensures Proper(Longer(tr, stop, o, world, s))
  {
    var tr', n := Longer(tr, stop, o, world, s), |tr.stops|;
    LastCall(tr, stop, o, world, s);
    assert tr'.scenes[0] == START && |tr'.stops| == n + 1;
    hide Turned, Seen, CallAt, GetThreadIdentifier, Longer;
    forall i | 0 <= i < |tr'.stops| ensures Turned(CallAt(tr', i), tr'.scenes[i + 1]) {
      if i < n {
        LongerCalls(tr, stop, o, world, s, i);
        assert Turned(CallAt(tr, i), tr.scenes[i + 1]);
      }
    }
  }

  lemma HandledMore(tr: Trail, nameOf: Tid -> string, stops: seq<Stop>, worlds: seq<World>, k: nat, s: Scene, o: Order, s': Scene)
    requires k < |stops| && k < |worlds| && HandledSo(tr, nameOf, stops, worlds, k, s)
    requires var t := GetThreadIdentifier(nameOf(stops[k].tid), stops[k].tid);
      Turned(Call(nameOf, s.(view := Seen(t, s.view, stops[k].call)), o, worlds[k]), s')
    ensures HandledSo(Longer(tr, stops[k], o, worlds[k], s'), nameOf, stops, worlds, k + 1, s')
  {
    assert Fits(tr);
    hide Turned, Seen, Proper, GetThreadIdentifier;
    LongerIsProper(tr, stops[k], o, worlds[k], s');
    assert stops[..k + 1] == stops[..k] + [stops[k]] && worlds[..k + 1] == worlds[..k] + [worlds[k]];
  }

  /** All stops in turn through `handle_event`, from the constructor on, whatever orders the containers
      are iterated in.  The final tables are those after a run of the events with clean-ups, and what
      holds after every such run holds of them. */
  method Trace(nameOf: Tid -> string, stops: seq<Stop>, worlds: seq<World>) returns (gs: GlobalState, ghost tr: Trail)
    requires |worlds| == |stops|
    ensures fresh(gs) && gs.nameOf == nameOf && HandledSo(tr, nameOf, stops, worlds, |stops|, SceneOf(gs))
    ensures Traced(EventsOf(tr, |stops|), gs.View())
    ensures NoSelfEdges(gs.waitsFor) && ShortCyclesListed(gs.waitsFor) && VerdictsAgree(gs.View())
    ensures AroseInOneWait(EventsOf(tr, |stops|), gs.View())
  {
    gs := new GlobalState(nameOf);
    tr := Trail(nameOf, [], [], [], [SceneOf(gs)]);
    for k := 0 to |stops|
      invariant fresh(gs) && gs.nameOf == nameOf && HandledSo(tr, nameOf, stops, worlds, k, SceneOf(gs))
    {
      var stop := stops[k];
      ghost var s := SceneOf(gs);
      var o := IterationOrder(Observed(gs, stop.tid, stop.call));
      ghost var threw, found := HandleEvent(gs, stop.tid, stop.call, o, worlds[k]);
      HandledMore(tr, nameOf, stops, worlds, k, s, o, SceneOf(gs));
      tr := Longer(tr, stop, o, worlds[k], SceneOf(gs));
    }
    RunsAreTraced(tr, |stops|);
    TracedStates(EventsOf(tr, |stops|), gs.View());
  }
}
