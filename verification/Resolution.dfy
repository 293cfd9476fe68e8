/** Breaking a reported deadlock: the table clean-up of `resolve_deadlock_strategy1` and
    `emergency_deadlock_break`. */
module Resolution {
  import opened Graphs
  import opened Identifiers
  import opened State
  import opened Monitoring

  /** What the outside world answers during one detection call: which threads exist, and for each
      deadlock by its number whether its shadow process can be forked and waited for. */
  datatype World = World(alive: set<int>, shadowRuns: nat -> bool)

  // ---------------------------------------------------------------- victims

  datatype Pick = Throws | NoneAlive | Victim(name: Thread, tid: Tid)

  /** The first listed thread that exists.  Reading a tid can throw on the way. */
  function PickVictim(cycle: seq<Thread>, alive: set<int>): (p: Pick)
    ensures p.Victim? ==> p.name in cycle && ExtractTid(p.name) == Some(p.tid) && p.tid in alive
    ensures p.NoneAlive? <==> forall t :: t in cycle ==> ExtractTid(t).Some? && ExtractTid(t).value !in alive
    ensures p.Throws? ==> exists t :: t in cycle && ExtractTid(t) == None
  {
    if cycle == [] then NoneAlive
    else
      match ExtractTid(cycle[0])
      case None => Throws
      case Some(tid) => if tid in alive then Victim(cycle[0], tid) else PickVictim(cycle[1..], alive)
  }

  method FindVictim(cycle: seq<Thread>, world: World) returns (threw: bool, victimTid: Tid, victimName: Thread)
    ensures threw <==> PickVictim(cycle, world.alive).Throws?
    ensures !threw ==> match PickVictim(cycle, world.alive)
      case Victim(name, tid) => victimName == name && victimTid == tid
      case _ => victimTid == 0
  {
    threw, victimTid, victimName := false, 0, "";
    var i := 0;
    while i < |cycle|
      invariant 0 <= i <= |cycle|
      invariant PickVictim(cycle, world.alive) == PickVictim(cycle[i..], world.alive)
    {
      match ExtractTid(cycle[i])
      case None => return true, 0, "";
      case Some(tid) =>
        if tid in world.alive {
          return false, tid, cycle[i];
        }
      i := i + 1;
    }
  }

  // ---------------------------------------------------------------- clean-up as table updates

  function Released(owners: map<Addr, Thread>, victim: Thread, locks: set<Addr>): map<Addr, Thread> {
    map a | a in owners && !(a in locks && owners[a] == victim) :: owners[a]
  }

  function CleanedUp(s: Tables, victim: Thread, involved: set<Addr>): Tables {
    s.(waitsFor := s.waitsFor - {victim},
       threadLocks := s.threadLocks - {victim},
       lockOwners := Released(s.lockOwners, victim, involved),
       futexWaiters := WithoutWaiter(s.futexWaiters, victim))
  }

  function Broken(s: Tables, victim: Thread): Tables {
    s.(waitsFor := s.waitsFor - {victim},
       threadLocks := s.threadLocks - {victim},
       lockOwners := Released(s.lockOwners, victim, s.lockOwners.Keys))
  }

  ghost function LockSet(locks: seq<Addr>): set<Addr> {
    set a | a in locks
  }

  // ---------------------------------------------------------------- the resolvers as coded

  method ReleaseInvolved(gs: GlobalState, victim: Thread, locks: seq<Addr>)
    modifies gs`lockOwners
    ensures gs.lockOwners == Released(old(gs.lockOwners), victim, LockSet(locks))
  {
    for i := 0 to |locks|
      invariant gs.lockOwners == Released(old(gs.lockOwners), victim, LockSet(locks[..i]))
    {
      var lock := locks[i];
      assert LockSet(locks[..i + 1]) == LockSet(locks[..i]) + {lock};
      if lock in gs.lockOwners && gs.lockOwners[lock] == victim {
        gs.lockOwners := gs.lockOwners - {lock};
      }
    }
    assert locks[..|locks|] == locks;
  }

  method ReleaseOwned(gs: GlobalState, victim: Thread)
    modifies gs`lockOwners
    ensures gs.lockOwners == Released(old(gs.lockOwners), victim, old(gs.lockOwners).Keys)
  {
    var todo := gs.lockOwners.Keys;
    while todo != {}
      invariant todo <= old(gs.lockOwners).Keys
      invariant gs.lockOwners == Released(old(gs.lockOwners), victim, old(gs.lockOwners).Keys - todo)
      decreases todo
    {
      var lock :| lock in todo;
      if gs.lockOwners[lock] == victim {
        gs.lockOwners := gs.lockOwners - {lock};
      }
      todo := todo - {lock};
    }
  }

  /** The "clean data structures" part of `resolve_deadlock_strategy1`. */
  method CleanTables(gs: GlobalState, victim: Thread, locks: seq<Addr>)
    modifies gs`waitsFor, gs`threadLocks, gs`lockOwners, gs`futexWaiters
    ensures gs.View() == CleanedUp(old(gs.View()), victim, LockSet(locks))
    ensures forall l :: l in gs.lockOwners <==> l in old(gs.lockOwners) && (old(gs.lockOwners)[l] != victim || l !in locks)
    ensures forall l :: l in gs.lockOwners ==> gs.lockOwners[l] == old(gs.lockOwners)[l]
    ensures gs.threadLocks == old(gs.threadLocks) - {victim} && gs.waitsFor == old(gs.waitsFor) - {victim}
    ensures gs.futexWaiters.Keys == old(gs.futexWaiters).Keys
    ensures forall a :: a in gs.futexWaiters ==> multiset(gs.futexWaiters[a]) == multiset(old(gs.futexWaiters)[a])[victim := 0]
  {
    CleanUpTakesOnly(gs.View(), victim, LockSet(locks));
    gs.waitsFor := gs.waitsFor - {victim};
    gs.threadLocks := gs.threadLocks - {victim};
    ReleaseInvolved(gs, victim, locks);
    EraseFromQueues(gs, victim);
  }

  datatype Outcome = Resolved | Failed | Threw

  /** `resolve_deadlock_strategy1`.  An exception leaves monitoring switched off. */
  method ResolveDeadlockStrategy1(gs: GlobalState, deadlock: DeadlockInfo, world: World) returns (outcome: Outcome)
    modifies gs
    ensures unchanged(gs`detectedDeadlocks, gs`deadlockCounter)
    ensures match PickVictim(deadlock.cycle, world.alive)
      case Throws => outcome == Threw && !gs.monitoringActive && gs.View() == old(gs.View())
      case NoneAlive => outcome == Failed && gs.monitoringActive && gs.View() == old(gs.View())
      case Victim(name, tid) =>
        gs.monitoringActive &&
        (if tid != 0 && world.shadowRuns(deadlock.deadlockId)
         then outcome == Resolved && gs.View() == CleanedUp(old(gs.View()), name, LockSet(deadlock.involvedLocks))
         else outcome == Failed && gs.View() == old(gs.View()))
    ensures outcome == Resolved ==> exists v ::
      && v in deadlock.cycle && ExtractTid(v).Some? && ExtractTid(v).value in world.alive
      && (forall l :: l in gs.lockOwners <==> l in old(gs.lockOwners) && (old(gs.lockOwners)[l] != v || l !in deadlock.involvedLocks))
      && (forall l :: l in gs.lockOwners ==> gs.lockOwners[l] == old(gs.lockOwners)[l])
      && gs.threadLocks == old(gs.threadLocks) - {v} && gs.waitsFor == old(gs.waitsFor) - {v}
  {
    hide PickVictim, CleanedUp, ExtractTid, LockSet;
    gs.monitoringActive := false;
    var threw, victimTid, victimName := FindVictim(deadlock.cycle, world);
    if threw { return Threw; }
    if victimTid == 0 {
      gs.monitoringActive := true;
      return Failed;
    }
    if !world.shadowRuns(deadlock.deadlockId) {
      gs.monitoringActive := true;
      return Failed;
    }
    CleanTables(gs, victimName, deadlock.involvedLocks);
    gs.monitoringActive := true;
    return Resolved;
  }

  /** What the emergency break erases: the victim's entries and every lock it owns. */
  method BreakVictim(gs: GlobalState, v: Thread)
    modifies gs`waitsFor, gs`threadLocks, gs`lockOwners
    ensures gs.View() == Broken(old(gs.View()), v)
    ensures forall l :: l in gs.lockOwners <==> l in old(gs.lockOwners) && old(gs.lockOwners)[l] != v
    ensures forall l :: l in gs.lockOwners ==> gs.lockOwners[l] == old(gs.lockOwners)[l]
    ensures gs.threadLocks == old(gs.threadLocks) - {v} && gs.waitsFor == old(gs.waitsFor) - {v}
  {
    gs.waitsFor := gs.waitsFor - {v};
    gs.threadLocks := gs.threadLocks - {v};
    ReleaseOwned(gs, v);
  }

  /** `emergency_deadlock_break`.  The victim's entries are found under the identifier printed anew
      from its tid. */
  method EmergencyDeadlockBreak(gs: GlobalState, deadlock: DeadlockInfo, world: World) returns (outcome: Outcome)
    modifies gs
    ensures unchanged(gs`detectedDeadlocks, gs`deadlockCounter, gs`monitoringActive)
    ensures match PickVictim(deadlock.cycle, world.alive)
      case Throws => outcome == Threw && gs.View() == old(gs.View())
      case NoneAlive => outcome == Failed && gs.View() == old(gs.View())
      case Victim(_, tid) =>
        outcome == Resolved && gs.View() == Broken(old(gs.View()), gs.IdentifierOf(tid))
    ensures outcome == Resolved ==> exists t, v: Thread ::
      && t in deadlock.cycle && ExtractTid(t).Some? && ExtractTid(t).value in world.alive && v == gs.IdentifierOf(ExtractTid(t).value)
      && (forall l :: l in gs.lockOwners <==> l in old(gs.lockOwners) && old(gs.lockOwners)[l] != v)
      && (forall l :: l in gs.lockOwners ==> gs.lockOwners[l] == old(gs.lockOwners)[l])
      && gs.threadLocks == old(gs.threadLocks) - {v} && gs.waitsFor == old(gs.waitsFor) - {v}
      && gs.futexWaiters == old(gs.futexWaiters) && gs.lockStats == old(gs.lockStats)
  {
    var i := 0;
    while i < |deadlock.cycle|
      invariant 0 <= i <= |deadlock.cycle|
      invariant PickVictim(deadlock.cycle, world.alive) == PickVictim(deadlock.cycle[i..], world.alive)
      invariant gs.View() == old(gs.View())
      invariant unchanged(gs`detectedDeadlocks, gs`deadlockCounter, gs`monitoringActive)
    {
      match ExtractTid(deadlock.cycle[i])
      case None => return Threw;
      case Some(tid) =>
        if tid in world.alive {
          var victimName := gs.IdentifierOf(tid);
          BreakVictim(gs, victimName);
          return Resolved;
        }
      i := i + 1;
    }
    return Failed;
  }

  // ---------------------------------------------------------------- what a resolver leaves alone

  /** An emergency break of `v` takes from `v` all its owned locks, its lock set and its wait set, and
      nothing from anybody else. */
  lemma BreakTakesOnly(s: Tables, v: Thread)
    ensures var s' := Broken(s, v);
      && (forall l :: l in s'.lockOwners <==> l in s.lockOwners && s.lockOwners[l] != v)
      && (forall l :: l in s'.lockOwners ==> s'.lockOwners[l] == s.lockOwners[l])
      && (forall t :: t in s'.threadLocks <==> t in s.threadLocks && t != v)
      && (forall t :: t in s'.threadLocks ==> s'.threadLocks[t] == s.threadLocks[t])
      && (forall t :: t in s'.waitsFor <==> t in s.waitsFor && t != v)
      && (forall t :: t in s'.waitsFor ==> s'.waitsFor[t] == s.waitsFor[t])
      && s'.futexWaiters == s.futexWaiters && s'.lockStats == s.lockStats
  {}

  /** The clean-up with the given locks takes from `v` those of them it owns, its lock set, its wait set
      and its places in all queues, and nothing from anybody else. */
  lemma CleanUpTakesOnly(s: Tables, v: Thread, involved: set<Addr>)
    ensures var s' := CleanedUp(s, v, involved);
      && (forall l :: l in s'.lockOwners <==> l in s.lockOwners && (s.lockOwners[l] != v || l !in involved))
      && (forall l :: l in s'.lockOwners ==> s'.lockOwners[l] == s.lockOwners[l])
      && (forall t :: t in s'.threadLocks <==> t in s.threadLocks && t != v)
      && (forall t :: t in s'.threadLocks ==> s'.threadLocks[t] == s.threadLocks[t])
      && (forall t :: t in s'.waitsFor <==> t in s.waitsFor && t != v)
      && (forall t :: t in s'.waitsFor ==> s'.waitsFor[t] == s.waitsFor[t])
      && s'.futexWaiters.Keys == s.futexWaiters.Keys && s'.lockStats == s.lockStats
      && (forall a :: a in s.futexWaiters ==>
            v !in s'.futexWaiters[a] && multiset(s'.futexWaiters[a]) == multiset(s.futexWaiters[a])[v := 0]
            && (v !in s.futexWaiters[a] ==> s'.futexWaiters[a] == s.futexWaiters[a]))
  {
    forall a | a in s.futexWaiters
      ensures multiset(Without(s.futexWaiters[a], v)) == multiset(s.futexWaiters[a])[v := 0]
      ensures v !in s.futexWaiters[a] ==> Without(s.futexWaiters[a], v) == s.futexWaiters[a]
      ensures v !in Without(s.futexWaiters[a], v)
    {
      WithoutCounts(s.futexWaiters[a], v);
      WithoutGone(s.futexWaiters[a], v);
      if v !in s.futexWaiters[a] {
        WithoutAbsent(s.futexWaiters[a], v);
      }
    }
  }

  // ---------------------------------------------------------------- ownership

  /** Whoever is recorded as owner has the lock among its own. */
  ghost predicate OwnersListed(s: Tables) {
    forall a :: a in s.lockOwners ==> s.lockOwners[a] in s.threadLocks && a in s.threadLocks[s.lockOwners[a]]
  }

  lemma EventKeepsOwners(s: Tables, e: Event)
    requires OwnersListed(s)
    ensures OwnersListed(Step(s, e))
  {}

  lemma BreakKeepsOwners(s: Tables, victim: Thread)
    requires OwnersListed(s)
    ensures OwnersListed(Broken(s, victim))
  {}

  /** The shadow clean-up keeps ownership consistent exactly when the locks it was given cover
      everything the victim owns. */
  lemma CleanUpKeepsOwnersIff(s: Tables, victim: Thread, involved: set<Addr>)
    requires OwnersListed(s)
    ensures OwnersListed(CleanedUp(s, victim, involved)) <==>
      forall a :: a in s.lockOwners && s.lockOwners[a] == victim ==> a in involved
  {
    var s' := CleanedUp(s, victim, involved);
    if a :| a in s.lockOwners && s.lockOwners[a] == victim && a !in involved {
      assert a in s'.lockOwners && s'.lockOwners[a] == victim;
      assert victim !in s'.threadLocks;
    }
  }

  // ---------------------------------------------------------------- the locks a report names

  /** `find_locks_in_deadlock` looks for a lock owned by an entry and awaited by the next entry. */
  predicate LockBetween(s: Tables, cycle: seq<Thread>, i: nat, a: Addr)
    requires i < |cycle|
  {
    a in s.lockOwners && s.lockOwners[a] == cycle[i] && cycle[(i + 1) % |cycle|] in Waiters(s, a)
  }

  predicate LockBetweenSome(s: Tables, cycle: seq<Thread>, a: Addr) {
    exists i: nat :: i < |cycle| && LockBetween(s, cycle, i, a)
  }

  /** All locks that are named for a report. */
  function LocksNamed(s: Tables, cycle: seq<Thread>): set<Addr> {
    set a | a in s.lockOwners && LockBetweenSome(s, cycle, a)
  }

  method FindLocksInDeadlock(s: Tables, cycle: seq<Thread>) returns (locks: seq<Addr>)
    ensures Distinct(locks) && LockSet(locks) == LocksNamed(s, cycle)
    ensures forall a :: a in locks <==> LockBetweenSome(s, cycle, a)
  {
    locks := [];
    for i := 0 to |cycle|
      invariant Distinct(locks)
      invariant forall a :: a in locks <==> exists j: nat :: j < i && LockBetween(s, cycle, j, a)
    {
      var before := locks;
      var todo := s.lockOwners.Keys;
      while todo != {}
        invariant todo <= s.lockOwners.Keys && Distinct(locks)
        invariant forall a :: a in locks <==> a in before || (a !in todo && LockBetween(s, cycle, i, a))
        decreases todo
      {
        var lock :| lock in todo;
        if s.lockOwners[lock] == cycle[i] && lock in s.futexWaiters {
          if cycle[(i + 1) % |cycle|] in s.futexWaiters[lock] && lock !in locks {
            locks := locks + [lock];
          }
        }
        todo := todo - {lock};
      }
      forall a ensures a in locks <==> exists j: nat :: j < i + 1 && LockBetween(s, cycle, j, a) {
        if LockBetween(s, cycle, i, a) {
          assert i < i + 1;
        }
      }
    }
  }
}
