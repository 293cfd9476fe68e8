/** What one report does: the `is_new` test, the record, the resolution, and the same for all the
    reports of a scan. */
module Reports {
  import opened Graphs
  import opened Identifiers
  import opened State
  import opened Monitoring
  import opened ConflictGroups
  import opened History
  import opened Resolution

  // ---------------------------------------------------------------- names that read back

  /** `t` is the identifier of some tid and reads back as that tid. */
  ghost predicate Named(nameOf: Tid -> string, t: Thread) {
    exists tid: Tid :: t == GetThreadIdentifier(nameOf(tid), tid) && ExtractTid(t) == Some(tid)
  }

  lemma NamedReadsBack(nameOf: Tid -> string, t: Thread)
    requires Named(nameOf, t)
    ensures ExtractTid(t).Some?
    ensures GetThreadIdentifier(nameOf(ExtractTid(t).value), ExtractTid(t).value) == t
  {}

  /** Which identifiers these are: the name has no '[', or what follows its first '[' reads as the tid. */
  lemma NamedIff(nameOf: Tid -> string, tid: Tid)
    requires Storable(nameOf(tid))
    ensures Named(nameOf, GetThreadIdentifier(nameOf(tid), tid)) <==>
      '[' !in nameOf(tid) || Stoi(nameOf(tid)[Find(nameOf(tid), '[').value + 1..]) == Some(tid)
  {
    var id := GetThreadIdentifier(nameOf(tid), tid);
    RoundTripExactly(nameOf(tid), tid);
    if Named(nameOf, id) {
      var other: Tid :| id == GetThreadIdentifier(nameOf(other), other) && ExtractTid(id) == Some(other);
      IdentifierInjective(nameOf(tid), tid, nameOf(other), other);
    }
  }

  ghost predicate AllNamed(nameOf: Tid -> string, s: Tables) {
    && (forall a :: a in s.lockOwners ==> Named(nameOf, s.lockOwners[a]))
    && (forall t :: t in s.threadLocks ==> Named(nameOf, t))
    && (forall t :: t in Vertices(s.waitsFor) ==> Named(nameOf, t))
  }

  lemma StepVertices(s: Tables, e: Event, t: Thread)
    requires t in Vertices(Step(s, e).waitsFor)
    ensures t in Vertices(s.waitsFor) || t == e.thread || exists a :: a in s.lockOwners && s.lockOwners[a] == t
  {
    var g, g' := s.waitsFor, Step(s, e).waitsFor;
    if t in g' {
      assert t in g || t == e.thread;
    } else {
      var x :| x in g' && t in g'[x];
      assert t in Succ(g', x);
      EdgeStep(s, e, x, t);
      assert t in Succ(g, x) ==> t in Vertices(g);
    }
  }

  lemma StepHolders(s: Tables, e: Event)
    ensures var s' := Step(s, e);
      && s'.threadLocks.Keys <= s.threadLocks.Keys + {e.thread}
      && forall a :: a in s'.lockOwners ==> s'.lockOwners[a] == e.thread || (a in s.lockOwners && s'.lockOwners[a] == s.lockOwners[a])
  {}

  /** Every event keeps the tables free of other names. */
  lemma StepKeepsNames(nameOf: Tid -> string, s: Tables, e: Event)
    requires AllNamed(nameOf, s) && Named(nameOf, e.thread)
    ensures AllNamed(nameOf, Step(s, e))
  {
    hide Step, Named;
    StepHolders(s, e);
    forall t | t in Vertices(Step(s, e).waitsFor) ensures Named(nameOf, t) {
      StepVertices(s, e, t);
    }
  }

  /** Owners and lock holders are only ever taken out. */
  ghost predicate Shrunk(s: Tables, s': Tables) {
    && (forall a :: a in s'.lockOwners ==> a in s.lockOwners && s'.lockOwners[a] == s.lockOwners[a])
    && s'.threadLocks.Keys <= s.threadLocks.Keys
    && EdgesKept(s'.waitsFor, s.waitsFor)
  }

  ghost predicate EdgesKept(g: WaitGraph, g0: WaitGraph) {
    forall x :: x in g ==> x in g0 && g[x] == g0[x]
  }

  lemma ShrunkKeepsNames(nameOf: Tid -> string, s: Tables, s': Tables)
    requires AllNamed(nameOf, s) && Shrunk(s, s')
    ensures AllNamed(nameOf, s')
  {
    forall t | t in Vertices(s'.waitsFor) ensures Named(nameOf, t) {
      assert t in Vertices(s.waitsFor);
    }
  }

  // ---------------------------------------------------------------- the state of detection

  /** A recorded deadlock; the order of its locks carries no meaning. */
  datatype Record = Record(cycle: seq<Thread>, locks: set<Addr>, deadlockId: nat, resolved: bool)

  /** Everything a detection call reads and writes. */
  datatype Scene = Scene(view: Tables, active: bool, records: seq<Record>, counter: nat)

  /** The circumstances of one detection call. */
  datatype Call = Call(nameOf: Tid -> string, before: Scene, order: Order, world: World)

  ghost function RecordOf(d: DeadlockInfo): Record {
    Record(d.cycle, LockSet(d.involvedLocks), d.deadlockId, d.resolved)
  }

  ghost function RecordsOf(ds: seq<DeadlockInfo>): seq<Record> {
    seq(|ds|, i requires 0 <= i < |ds| => RecordOf(ds[i]))
  }

  ghost function SceneOf(gs: GlobalState): Scene
    reads gs
  {
    Scene(gs.View(), gs.monitoringActive, RecordsOf(gs.detectedDeadlocks), gs.deadlockCounter)
  }

  /** The report is on record. */
  ghost predicate Known(records: seq<Record>, r: seq<Thread>) {
    exists k :: 0 <= k < |records| && records[k].cycle == r
  }

  // ---------------------------------------------------------------- one report

  /** The tables after a new report is resolved: the shadow clean-up, the emergency break or nothing. */
  ghost function AfterPick(nameOf: Tid -> string, v: Tables, r: seq<Thread>, pick: Pick, shadowRuns: bool): Tables {
    match pick
    case Victim(name, tid) =>
      if tid != 0 && shadowRuns then CleanedUp(v, name, LocksNamed(v, r))
      else Broken(v, GetThreadIdentifier(nameOf(tid), tid))
    case _ => v
  }

  ghost predicate Fresh(s: Scene, r: seq<Thread>) {
    |r| >= 2 && !Known(s.records, r)
  }

  /** The whole effect of one report: a known one is ignored, a new one is counted, resolved and
      recorded, and an exception leaves monitoring off. */
  ghost function Handled(nameOf: Tid -> string, s: Scene, r: seq<Thread>, world: World): Scene {
    if !Fresh(s, r) then s
    else
      var n := s.counter + 1;
      var pick := PickVictim(r, world.alive);
      if pick.Throws? then s.(active := false, counter := n)
      else Scene(AfterPick(nameOf, s.view, r, pick, world.shadowRuns(n)), true,
                 s.records + [Record(r, LocksNamed(s.view, r), n, pick.Victim?)], n)
  }

  /** A new report in plain terms: it is counted once and recorded with its number; the record names the
      locks owned by an entry and awaited by the next, and says resolved exactly if somebody listed is
      alive, whichever resolver was used. */
  lemma NewRecordIs(nameOf: Tid -> string, s: Scene, r: seq<Thread>, world: World)
    requires Fresh(s, r) && forall t :: t in r ==> ExtractTid(t).Some?
    ensures var s' := Handled(nameOf, s, r, world);
      && s'.active && s'.counter == s.counter + 1 && |s'.records| == |s.records| + 1 && s.records <= s'.records
      && s'.records[|s.records|].cycle == r && s'.records[|s.records|].deadlockId == s.counter + 1
      && (forall l :: l in s'.records[|s.records|].locks <==> LockBetweenSome(s.view, r, l))
      && (s'.records[|s.records|].resolved <==> exists t :: t in r && ExtractTid(t).value in world.alive)
      && ((forall t :: t in r ==> ExtractTid(t).value !in world.alive) ==> s'.view == s.view)
  {
    hide AfterPick;
    assert forall t :: t in r ==> ExtractTid(t) != None;
    var pick := PickVictim(r, world.alive);
    if pick.Victim? {
      assert pick.name in r;
    }
    NobodyPicked(nameOf, s.view, r, pick, world.shadowRuns(s.counter + 1));
  }

  lemma NobodyPicked(nameOf: Tid -> string, v: Tables, r: seq<Thread>, pick: Pick, shadowRuns: bool)
    ensures !pick.Victim? ==> AfterPick(nameOf, v, r, pick, shadowRuns) == v
  {}

  /** With a live victim, exactly these owners are forgotten: with a shadow process those of named locks
      among the victim's, with an emergency break all of the victim's. */
  lemma NewReportTakesOnly(nameOf: Tid -> string, s: Scene, r: seq<Thread>, world: World, name: Thread, tid: Tid)
    requires Fresh(s, r) && PickVictim(r, world.alive) == Victim(name, tid) && GetThreadIdentifier(nameOf(tid), tid) == name
    ensures var v := Handled(nameOf, s, r, world).view;
      && (forall l :: l in v.lockOwners <==>
            l in s.view.lockOwners
            && (s.view.lockOwners[l] != name || (tid != 0 && world.shadowRuns(s.counter + 1) && !LockBetweenSome(s.view, r, l))))
      && (forall l :: l in v.lockOwners ==> v.lockOwners[l] == s.view.lockOwners[l])
      && v.threadLocks == s.view.threadLocks - {name} && v.waitsFor == s.view.waitsFor - {name} && v.lockStats == s.view.lockStats
  {
    hide PickVictim, Fresh, GetThreadIdentifier, ExtractTid;
  }

  lemma KnownCycle(detected: seq<DeadlockInfo>, cycle: seq<Thread>)
    ensures Known(RecordsOf(detected), cycle) <==> exists k :: 0 <= k < |detected| && detected[k].cycle == cycle
  {
    if k :| 0 <= k < |detected| && detected[k].cycle == cycle {
      assert RecordsOf(detected)[k].cycle == cycle;
    }
  }

  method IsNew(detected: seq<DeadlockInfo>, cycle: seq<Thread>) returns (isNew: bool)
    ensures isNew <==> !Known(RecordsOf(detected), cycle)
  {
    isNew := true;
    for k := 0 to |detected|
      invariant isNew <==> forall j :: 0 <= j < k ==> detected[j].cycle != cycle
    {
      if detected[k].cycle == cycle {
        isNew := false;
      }
    }
    KnownCycle(detected, cycle);
  }

  /** The part of the root loop that deals with one reversed report. */
  method HandleReport(gs: GlobalState, cycle: seq<Thread>, world: World) returns (threw: bool)
    modifies gs
    ensures SceneOf(gs) == Handled(gs.nameOf, old(SceneOf(gs)), cycle, world)
    ensures threw <==> Fresh(old(SceneOf(gs)), cycle) && PickVictim(cycle, world.alive).Throws?
  {
    hide CleanedUp, Broken, PickVictim, LocksNamed, GetThreadIdentifier, ExtractTid, Known;
    threw := false;
    if |cycle| < 2 { return; }
    var isNew := IsNew(gs.detectedDeadlocks, cycle);
    if !isNew { return; }
    gs.deadlockCounter := gs.deadlockCounter + 1;
    var locks := FindLocksInDeadlock(gs.View(), cycle);
    var deadlock := DeadlockInfo(cycle, locks, gs.deadlockCounter, false);
    var outcome := ResolveDeadlockStrategy1(gs, deadlock, world);
    if outcome == Failed {
      outcome := EmergencyDeadlockBreak(gs, deadlock, world);
    }
    if outcome == Threw { return true; }
    if outcome == Resolved {
      deadlock := deadlock.(resolved := true);
    }
    ghost var ds := gs.detectedDeadlocks;
    gs.detectedDeadlocks := gs.detectedDeadlocks + [deadlock];
    assert RecordsOf(ds + [deadlock]) == RecordsOf(ds) + [RecordOf(deadlock)];
  }

  // ---------------------------------------------------------------- all reports of a scan

  ghost function Replay(nameOf: Tid -> string, s: Scene, reports: seq<seq<Thread>>, world: World): Scene {
    if reports == [] then s
    else Handled(nameOf, Replay(nameOf, s, reports[..|reports| - 1], world), reports[|reports| - 1], world)
  }

  lemma ReplayStep(nameOf: Tid -> string, s: Scene, reports: seq<seq<Thread>>, r: seq<Thread>, world: World)
    ensures Replay(nameOf, s, reports + [r], world) == Handled(nameOf, Replay(nameOf, s, reports, world), r, world)
  {
    assert (reports + [r])[..|reports|] == reports;
  }

  lemma HandledShrinks(nameOf: Tid -> string, s: Scene, r: seq<Thread>, world: World)
    ensures var s' := Handled(nameOf, s, r, world); Shrunk(s.view, s'.view) && s.records <= s'.records
  {}

  lemma {:induction false} ReplayShrinks(nameOf: Tid -> string, s: Scene, reports: seq<seq<Thread>>, world: World)
    ensures var s' := Replay(nameOf, s, reports, world); Shrunk(s.view, s'.view) && s.records <= s'.records
  {
    if reports != [] {
      var init := reports[..|reports| - 1];
      ReplayShrinks(nameOf, s, init, world);
      HandledShrinks(nameOf, Replay(nameOf, s, init, world), reports[|reports| - 1], world);
    }
  }

  ghost predicate AllKnown(records: seq<Record>, reports: seq<seq<Thread>>) {
    forall k :: 0 <= k < |reports| ==> Known(records, reports[k])
  }

  lemma KnownPrefix(d: seq<Record>, d': seq<Record>, r: seq<Thread>)
    requires d <= d' && Known(d, r)
    ensures Known(d', r)
  {
    var k :| 0 <= k < |d| && d[k].cycle == r;
    assert d'[k] == d[k];
  }

  /** The exact condition for a report: the counter grows iff some found report was not on record
      before, and otherwise nothing at all changes. */
  lemma {:induction false} ReplayGrowsIff(nameOf: Tid -> string, s: Scene, reports: seq<seq<Thread>>, world: World)
    requires forall k :: 0 <= k < |reports| ==> |reports[k]| >= 2
    ensures var s' := Replay(nameOf, s, reports, world);
      && s'.counter >= s.counter
      && (s'.counter == s.counter <==> AllKnown(s.records, reports))
      && (s'.counter == s.counter ==> s' == s)
  {
    if reports != [] {
      var init, r := reports[..|reports| - 1], reports[|reports| - 1];
      ReplayGrowsIff(nameOf, s, init, world);
      ReplayShrinks(nameOf, s, init, world);
      var m := Replay(nameOf, s, init, world);
      if Known(s.records, r) {
        KnownPrefix(s.records, m.records, r);
      }
      assert AllKnown(s.records, reports) <==> AllKnown(s.records, init) && Known(s.records, r);
    }
  }

  /** The records added since are of the given reports. */
  ghost predicate AddedFrom(d0: seq<Record>, d: seq<Record>, reports: seq<seq<Thread>>) {
    forall k :: |d0| <= k < |d| ==> d[k].cycle in reports
  }

  lemma AddedStep(nameOf: Tid -> string, d0: seq<Record>, s: Scene, r: seq<Thread>, world: World, init: seq<seq<Thread>>)
    requires AddedFrom(d0, s.records, init)
    ensures AddedFrom(d0, Handled(nameOf, s, r, world).records, init + [r])
  {
    var d' := Handled(nameOf, s, r, world).records;
    forall k | |d0| <= k < |d'| ensures d'[k].cycle in init + [r] {
      if k < |s.records| {
        assert d'[k] == s.records[k];
      } else {
        assert d'[k].cycle == r;
      }
    }
  }

  /** Every new record is one of the found reports. */
  lemma {:induction false} NewRecordsAreFound(nameOf: Tid -> string, s: Scene, reports: seq<seq<Thread>>, world: World)
    ensures AddedFrom(s.records, Replay(nameOf, s, reports, world).records, reports)
  {
    if reports != [] {
      var init, r := reports[..|reports| - 1], reports[|reports| - 1];
      NewRecordsAreFound(nameOf, s, init, world);
      AddedStep(nameOf, s.records, Replay(nameOf, s, init, world), r, world, init);
      assert reports == init + [r];
    }
  }

  ghost predicate NoneThrows(reports: seq<seq<Thread>>, world: World) {
    forall k :: 0 <= k < |reports| ==> !PickVictim(reports[k], world.alive).Throws?
  }

  lemma {:induction false} ReplayRecordsAll(nameOf: Tid -> string, s: Scene, reports: seq<seq<Thread>>, world: World)
    requires NoneThrows(reports, world) && s.active
    ensures var s' := Replay(nameOf, s, reports, world);
      s'.active && |s'.records| - |s.records| == s'.counter - s.counter
  {
    if reports != [] {
      ReplayRecordsAll(nameOf, s, reports[..|reports| - 1], world);
    }
  }

  // ---------------------------------------------------------------- ownership after a real report

  /** A new report with a live victim keeps ownership consistent exactly when every lock the victim
      owns is named for it, or the emergency break is taken. */
  lemma ReportKeepsOwnersIff(nameOf: Tid -> string, s: Scene, r: seq<Thread>, world: World, name: Thread, tid: Tid)
    requires OwnersListed(s.view) && Fresh(s, r) && PickVictim(r, world.alive) == Victim(name, tid)
    ensures OwnersListed(Handled(nameOf, s, r, world).view) <==>
      (tid == 0 || !world.shadowRuns(s.counter + 1) || OwnedAreNamed(s.view, r, name))
  {
    hide *;
    HandledView(nameOf, s, r, world, Victim(name, tid));
    PickKeepsOwnersIff(nameOf, s.view, r, name, tid, world.shadowRuns(s.counter + 1));
  }

  lemma HandledView(nameOf: Tid -> string, s: Scene, r: seq<Thread>, world: World, pick: Pick)
    requires Fresh(s, r) && PickVictim(r, world.alive) == pick && pick.Victim?
    ensures Handled(nameOf, s, r, world).view == AfterPick(nameOf, s.view, r, pick, world.shadowRuns(s.counter + 1))
  {
    hide PickVictim, Fresh, AfterPick, LocksNamed, GetThreadIdentifier, ExtractTid;
  }

  lemma PickKeepsOwnersIff(nameOf: Tid -> string, v: Tables, r: seq<Thread>, name: Thread, tid: Tid, shadowRuns: bool)
    requires OwnersListed(v)
    ensures OwnersListed(AfterPick(nameOf, v, r, Victim(name, tid), shadowRuns)) <==>
      tid == 0 || !shadowRuns || OwnedAreNamed(v, r, name)
  {
    if tid != 0 && shadowRuns {
      assert AfterPick(nameOf, v, r, Victim(name, tid), shadowRuns) == CleanedUp(v, name, LocksNamed(v, r));
      CleanUpKeepsOwnersIff(v, name, LocksNamed(v, r));
      OwnedAreNamedIff(v, r, name);
    } else {
      BreakKeepsOwners(v, GetThreadIdentifier(nameOf(tid), tid));
    }
  }

  lemma OwnedAreNamedIff(v: Tables, r: seq<Thread>, t: Thread)
    ensures OwnedAreNamed(v, r, t) <==> forall a :: a in v.lockOwners && v.lockOwners[a] == t ==> a in LocksNamed(v, r)
  {}

  /** Each lock the thread owns is owned by an entry of the report and awaited by the next entry. */
  ghost predicate OwnedAreNamed(v: Tables, r: seq<Thread>, t: Thread) {
    forall a :: a in v.lockOwners && v.lockOwners[a] == t ==> LockBetweenSome(v, r, a)
  }
}
