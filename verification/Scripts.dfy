/** Given runs of events, stop by stop. */
module Scripts {
  import opened Graphs
  import opened Identifiers
  import opened State
  import opened Monitoring
  import opened ThreadSearch
  import opened ConflictGroups
  import opened Quotients
  import opened Verdicts
  import opened Resolution
  import opened Reports
  import opened Scans
  import opened Detection
  import opened Traces

  // ---------------------------------------------------------------- single events

  function LocksOf(s: Tables, t: Thread): set<Addr> {
    if t in s.threadLocks then s.threadLocks[t] else {}
  }

  /** The lock has been acquired, last by `t`. */
  ghost predicate Owns(s: Tables, t: Thread, l: Addr) {
    l in s.lockOwners && s.lockOwners[l] == t && l in s.futexWaiters
  }

  /** `t` owns `l` and has the lock `k` in its set. */
  ghost predicate Owning(s: Tables, t: Thread, k: Addr, l: Addr) {
    k in LocksOf(s, t) && Owns(s, t, l)
  }

  /** `t` waits for `u` alone and is alone in the queue of `l`. */
  ghost predicate WaitsOn(s: Tables, t: Thread, u: Thread, l: Addr) {
    t in s.waitsFor && s.waitsFor[t] == {u} && Waiters(s, l) == [t]
  }

  lemma AcquireStep(s: Tables, t: Thread, l: Addr)
    requires !Junk(l) && forall q :: q in s.futexWaiters && q != l ==> t !in s.futexWaiters[q]
    ensures var s' := Step(s, Wake(t, l));
      && s'.lockOwners == s.lockOwners[l := t]
      && s'.threadLocks == s.threadLocks[t := LocksOf(s, t) + {l}]
      && s'.waitsFor == WithoutTarget(s.waitsFor, t)
      && s'.futexWaiters == s.futexWaiters[l := []]
  {
    WithoutNobody(s.futexWaiters - {l}, t);
    var m := AfterWake(s, l);
    assert m.futexWaiters == s.futexWaiters - {l};
    assert AfterLock(m, t, l).futexWaiters == (s.futexWaiters - {l})[l := []];
  }

  lemma WithoutNobody(q: map<Addr, seq<Thread>>, t: Thread)
    requires forall a :: a in q ==> t !in q[a]
    ensures WithoutWaiter(q, t) == q
  {
    forall a | a in q ensures Without(q[a], t) == q[a] {
      WithoutAbsent(q[a], t);
    }
  }

  /** Nobody waits and nobody queues. */
  ghost predicate Still(s: Tables) {
    s.waitsFor == map[] && forall q :: q in s.futexWaiters ==> s.futexWaiters[q] == []
  }

  /** An acquisition changes one owner and one lock set. */
  ghost predicate Taken(s: Tables, s': Tables, t: Thread, l: Addr) {
    && s'.lockOwners.Keys == s.lockOwners.Keys + {l} && s'.threadLocks.Keys == s.threadLocks.Keys + {t}
    && Owns(s', t, l) && (forall u, m :: m != l && Owns(s, u, m) ==> Owns(s', u, m))
    && LocksOf(s', t) == LocksOf(s, t) + {l} && (forall u :: u != t ==> LocksOf(s', u) == LocksOf(s, u))
  }

  lemma Takes(s: Tables, t: Thread, l: Addr)
    requires Still(s) && !Junk(l)
    ensures Still(Step(s, Wake(t, l))) && Taken(s, Step(s, Wake(t, l)), t, l)
  {
    hide Step, Junk;
    assert WithoutTarget(map[], t) == map[];
    AcquireStep(s, t, l);
  }

  /** A wait adds one edge and one queue entry and leaves the rest. */
  lemma QueuesUp(s: Tables, t: Thread, l: Addr, u: Thread)
    requires !Junk(l) && Owns(s, u, l) && u != t && Succ(s.waitsFor, t) == {}
    ensures var s' := Step(s, Wait(t, l));
      && s'.lockOwners == s.lockOwners && s'.threadLocks == s.threadLocks && s'.waitsFor == s.waitsFor[t := {u}]
      && (Waiters(s, l) == [] ==> WaitsOn(s', t, u, l))
      && (forall m :: m != l ==> Waiters(s', m) == Waiters(s, m))
      && (forall v, m :: Owns(s, v, m) ==> Owns(s', v, m))
      && (forall v, w, m :: m != l && v != t && WaitsOn(s, v, w, m) ==> WaitsOn(s', v, w, m))
  {
    assert Succ(s.waitsFor, t) + {u} == {u};
    assert [] + [t] == [t];
  }

  // ---------------------------------------------------------------- stops

  /** The stops of the run are these events. */
  ghost predicate Plays(tr: Trail, script: seq<Event>) {
    && Proper(tr) && Fits(tr) && |tr.stops| == |script|
    && forall i :: 0 <= i < |script| ==> Shows(NameAt(tr, i), tr.stops[i].call, script[i])
  }

  /** Nothing has been reported so far. */
  ghost predicate Unreported(s: Scene) {
    s.active && s.records == [] && s.counter == 0
  }

  lemma BeforeTheFirst(tr: Trail, script: seq<Event>)
    requires Plays(tr, script)
    ensures |tr.scenes| == |script| + 1 && |tr.worlds| == |tr.orders| == |script|
    ensures var v := tr.scenes[0].view;
      Unreported(tr.scenes[0]) && Still(v) && OwnersListed(v) && v.lockOwners.Keys == {} && v.threadLocks.Keys == {}
      && forall t :: LocksOf(v, t) == {}
  {}

  /** What detection faces at the i-th stop, and that it goes on from there. */
  lemma Played(tr: Trail, script: seq<Event>, i: nat)
    requires Plays(tr, script) && i < |script|
    ensures CallAt(tr, i).before == tr.scenes[i].(view := Step(tr.scenes[i].view, script[i]))
    ensures Turned(CallAt(tr, i), tr.scenes[i + 1])
  {
    EventOfIff(NameAt(tr, i), tr.stops[i].call, script[i]);
  }

  lemma CalmCall(c: Call, s': Scene)
    requires Turned(c, s') && Calm(c.before.view)
    ensures s' == c.before
  {
    var threw, found :| CallResult(c, s', threw, found);
    assert !Cyclic(GroupGraph(c.before.view, c.order));
  }

  /** Where there is nothing to find, a stop only adds its event to the tables. */
  lemma CalmTurn(tr: Trail, script: seq<Event>, i: nat)
    requires Plays(tr, script) && i < |script| && Calm(Step(tr.scenes[i].view, script[i]))
    ensures tr.scenes[i + 1] == tr.scenes[i].(view := Step(tr.scenes[i].view, script[i]))
    ensures Unreported(tr.scenes[i]) ==> Unreported(tr.scenes[i + 1])
    ensures OwnersListed(tr.scenes[i].view) ==> OwnersListed(tr.scenes[i + 1].view)
  {
    hide Calm, Turned, Proper, Step, OwnersListed;
    Played(tr, script, i);
    CalmCall(CallAt(tr, i), tr.scenes[i + 1]);
    if OwnersListed(tr.scenes[i].view) {
      EventKeepsOwners(tr.scenes[i].view, script[i]);
    }
  }

  lemma StillIsCalm(s: Tables, t: Thread)
    requires Still(s)
    ensures Calm(s)
  {
    OneWaiterIsCalm(s, t);
  }

  lemma SharersAreOneGroup(s: Tables, k: Addr)
    requires (forall t :: t in s.threadLocks ==> k in LocksOf(s, t)) && TargetsListed(s)
    ensures OneGroup(s)
  {
    forall t, u | t in s.threadLocks && u in s.threadLocks ensures SharesLock(s.threadLocks[t], s.threadLocks[u]) {
      assert k in LocksOf(s, t) && k in LocksOf(s, u);
    }
  }

  lemma SameLocks(s: Tables, s': Tables)
    requires s'.threadLocks == s.threadLocks
    ensures forall t :: LocksOf(s', t) == LocksOf(s, t)
  {}

  ghost predicate Three(x: Thread, y: Thread, z: Thread) {
    x != y && y != z && x != z
  }

  /** Two of three waits make no cycle yet. */
  lemma TwoWaitsAreCalm(s: Tables, x: Thread, y: Thread, z: Thread, k: Addr)
    requires Three(x, y, z) && s.threadLocks.Keys == {x, y, z} && s.waitsFor == map[x := {y}, y := {z}]
    requires k in LocksOf(s, x) && k in LocksOf(s, y) && k in LocksOf(s, z)
    ensures Calm(s)
  {
    SharersAreOneGroup(s, k);
    ChainIsAcyclic(x, y, z);
    OneGroupIsCalm(s);
  }

  lemma TakesTurn(tr: Trail, script: seq<Event>, i: nat, t: Thread, l: Addr)
    requires Plays(tr, script) && i < |script| && script[i] == Wake(t, l) && Still(tr.scenes[i].view) && !Junk(l)
    ensures var v, v' := tr.scenes[i].view, tr.scenes[i + 1].view;
      && Still(v') && Taken(v, v', t, l) && (Unreported(tr.scenes[i]) ==> Unreported(tr.scenes[i + 1]))
      && (OwnersListed(v) ==> OwnersListed(v'))
  {
    hide Calm, Proper, Step, OwnersListed, Unreported, Taken, Still;
    Takes(tr.scenes[i].view, t, l);
    StillIsCalm(Step(tr.scenes[i].view, Wake(t, l)), t);
    CalmTurn(tr, script, i);
  }

  // ---------------------------------------------------------------- reports

  ghost predicate LiveThread(t: Thread, world: World) {
    ExtractTid(t).Some? && ExtractTid(t).value != 0 && ExtractTid(t).value in world.alive
  }

  /** The i-th stop meets a scan that starts at the live thread `x`, and a shadow process that runs. */
  ghost predicate FoundFrom(tr: Trail, i: nat, x: Thread) {
    && i < |tr.worlds| && i < |tr.orders|
    && LiveThread(x, tr.worlds[i]) && tr.worlds[i].shadowRuns(1) && tr.orders[i].waiters != [] && tr.orders[i].waiters[0] == x
  }

  lemma LaterReportElsewhere(g: WaitGraph, found: seq<seq<Thread>>, k: nat)
    requires GoodReports(g, found) && 1 <= k < |found|
    ensures found[k][0] in g && found[k][0] !in Elems(Head(found[0]))
  {
    assert GoodReport(g, found, k);
    ListedAreKeys(g, found, k);
    assert found[k][0] in found[k];
    InElems(Head(found[0]), found[k][0]);
    var x := Head(found[k])[0];
    assert x in Head(found[k]);
  }

  lemma OneReportOnly(g: WaitGraph, found: seq<seq<Thread>>)
    requires GoodReports(g, found) && found != [] && g.Keys <= Elems(Head(found[0]))
    ensures |found| == 1
  {
    if |found| > 1 {
      LaterReportElsewhere(g, found, 1);
    }
  }

  lemma ReplayOne(nameOf: Tid -> string, s: Scene, r: seq<Thread>, world: World)
    ensures Replay(nameOf, s, [r], world) == Handled(nameOf, s, r, world)
  {
    ReplayStep(nameOf, s, [], r, world);
    assert [] + [r] == [r];
  }

  lemma FirstIsVictim(r: seq<Thread>, world: World)
    requires r != [] && LiveThread(r[0], world)
    ensures PickVictim(r, world.alive) == Victim(r[0], ExtractTid(r[0]).value) && ExtractTid(r[0]).value != 0
  {}

  lemma HandledByShadow(nameOf: Tid -> string, s: Scene, r: seq<Thread>, world: World, name: Thread, tid: Tid)
    requires Fresh(s, r) && PickVictim(r, world.alive) == Victim(name, tid) && tid != 0 && world.shadowRuns(s.counter + 1)
    ensures Handled(nameOf, s, r, world) ==
      Scene(CleanedUp(s.view, name, LocksNamed(s.view, r)), true,
            s.records + [Record(r, LocksNamed(s.view, r), s.counter + 1, true)], s.counter + 1)
  {
    hide PickVictim, Fresh, LocksNamed, CleanedUp, Broken, GetThreadIdentifier, ExtractTid;
    var pick := Victim(name, tid);
    assert Handled(nameOf, s, r, world) == Scene(AfterPick(nameOf, s.view, r, pick, true), true,
      s.records + [Record(r, LocksNamed(s.view, r), s.counter + 1, pick.Victim?)], s.counter + 1);
  }

  /** The one call of a stop in one group, with nothing reported before: the scan runs. */
  lemma ScanTurn(tr: Trail, script: seq<Event>, i: nat) returns (found: seq<seq<Thread>>)
    requires Plays(tr, script) && i < |script| && tr.scenes[i].active && OneGroup(Step(tr.scenes[i].view, script[i]))
    ensures CallAt(tr, i).before == tr.scenes[i].(view := Step(tr.scenes[i].view, script[i]))
    ensures OrderOf(tr.orders[i], Step(tr.scenes[i].view, script[i]))
    ensures ScanResult(CallAt(tr, i), tr.scenes[i + 1], found)
  {
    hide OneGroup, ScanResult, Step;
    Played(tr, script, i);
    var threw;
    threw, found :| CallResult(CallAt(tr, i), tr.scenes[i + 1], threw, found);
    OneGroupIsAcyclic(CallAt(tr, i).before.view, tr.orders[i]);
  }

  // ---------------------------------------------------------------- locks

  ghost predicate FourLocks(k: Addr, a: Addr, b: Addr, c: Addr) {
    !Junk(k) && !Junk(a) && !Junk(b) && !Junk(c) && k != a && k != b && k != c && a != b && b != c && a != c
  }
}
