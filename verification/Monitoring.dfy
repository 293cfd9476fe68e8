/** The futex event handlers. */
module Monitoring {
  import opened Graphs
  import opened Identifiers
  import opened State

  predicate Junk(addr: Addr) {
    addr == 0 || addr < 0x10000 || addr > 0x7fff_ffff_ffff
  }

  function Waiters(s: Tables, addr: Addr): seq<Thread> {
    if addr in s.futexWaiters then s.futexWaiters[addr] else []
  }

  /** The erase-remove idiom on a vector. */
  function Without(s: seq<Thread>, thread: Thread): seq<Thread> {
    if s == [] then []
    else
      var rest := Without(s[..|s| - 1], thread);
      if s[|s| - 1] == thread then rest else rest + [s[|s| - 1]]
  }

  // ---------------------------------------------------------------- the handlers as table updates

  function Refreshed(s: Tables, addr: Addr): map<Addr, LockStats> {
    if addr in s.lockStats
    then s.lockStats[addr := s.lockStats[addr].(
      waitersCount := |Waiters(s, addr)|, waitingThreads := Waiters(s, addr))]
    else s.lockStats
  }

  function AfterWait(s: Tables, t: Thread, addr: Addr): Tables {
    if Junk(addr) then s
    else
      var queued := s.(futexWaiters := s.futexWaiters[addr := Waiters(s, addr) + [t]]);
      var waits := if addr in s.lockOwners && s.lockOwners[addr] != t
                   then s.waitsFor[t := Succ(s.waitsFor, t) + {s.lockOwners[addr]}]
                   else s.waitsFor;
      queued.(waitsFor := waits, lockStats := Refreshed(queued, addr))
  }

  function AfterWake(s: Tables, addr: Addr): Tables {
    if addr !in s.futexWaiters then s
    else
      var emptied := s.(futexWaiters := s.futexWaiters - {addr});
      emptied.(lockStats := Refreshed(emptied, addr))
  }

  function WithoutTarget(g: WaitGraph, t: Thread): WaitGraph {
    map x | x in g :: g[x] - {t}
  }

  function WithoutWaiter(q: map<Addr, seq<Thread>>, t: Thread): map<Addr, seq<Thread>> {
    map a | a in q :: Without(q[a], t)
  }

  function StatsAfterAcquire(s: Tables, addr: Addr, t: Thread): LockStats {
    var count := if addr in s.lockStats then s.lockStats[addr].totalAcquisitions else 0;
    LockStats(if addr in s.lockStats then s.lockStats[addr].lockAddress else addr,
              t, count + 1, |Waiters(s, addr)|, Waiters(s, addr))
  }

  function AfterLock(s: Tables, t: Thread, addr: Addr): Tables {
    if Junk(addr) then s
    else
      var held := if t in s.threadLocks then s.threadLocks[t] else {};
      var owned := s.(lockOwners := s.lockOwners[addr := t],
                      threadLocks := s.threadLocks[t := held + {addr}],
                      waitsFor := WithoutTarget(s.waitsFor, t),
                      futexWaiters := WithoutWaiter(s.futexWaiters, t));
      owned.(lockStats := owned.lockStats[addr := StatsAfterAcquire(owned, addr, t)],
             futexWaiters := owned.futexWaiters[addr := Waiters(owned, addr)])
  }

  datatype Event = Wait(thread: Thread, addr: Addr) | Wake(thread: Thread, addr: Addr)

  function Step(s: Tables, e: Event): Tables {
    match e
    case Wait(t, a) => AfterWait(s, t, a)
    case Wake(t, a) => AfterLock(AfterWake(s, a), t, a)
  }

  /** The tables after a history of events, from the empty tables on. */
  function Run(h: seq<Event>): Tables {
    if h == [] then EMPTY_TABLES else Step(Run(h[..|h| - 1]), h[|h| - 1])
  }

  // ---------------------------------------------------------------- the handlers as coded

  method UpdateLockStats(gs: GlobalState, addr: Addr, newOwner: Thread)
    modifies gs`lockStats, gs`futexWaiters
    ensures gs.lockStats == old(gs.lockStats)[addr := StatsAfterAcquire(old(gs.View()), addr, newOwner)]
    ensures gs.futexWaiters == old(gs.futexWaiters)[addr := Waiters(old(gs.View()), addr)]
    ensures addr in gs.lockStats && gs.lockStats[addr].currentOwner == newOwner
    ensures gs.lockStats[addr].totalAcquisitions == 1 + if addr in old(gs.lockStats) then old(gs.lockStats)[addr].totalAcquisitions else 0
    ensures addr in gs.futexWaiters && gs.lockStats[addr].waitingThreads == gs.futexWaiters[addr]
    ensures gs.lockStats[addr].waitersCount == |gs.futexWaiters[addr]|
  {
    if addr !in gs.futexWaiters {
      gs.futexWaiters := gs.futexWaiters[addr := []];
    }
    var waiting := gs.futexWaiters[addr];
    if addr !in gs.lockStats {
      gs.lockStats := gs.lockStats[addr := LockStats(addr, newOwner, 1, |waiting|, waiting)];
    } else {
      var stats := gs.lockStats[addr];
      stats := stats.(currentOwner := newOwner);
      stats := stats.(totalAcquisitions := stats.totalAcquisitions + 1);
      stats := stats.(waitersCount := |waiting|, waitingThreads := waiting);
      gs.lockStats := gs.lockStats[addr := stats];
    }
  }

  method EraseFromWaitSets(gs: GlobalState, thread: Thread)
    modifies gs`waitsFor
    ensures gs.waitsFor == WithoutTarget(old(gs.waitsFor), thread)
  {
    var todo := gs.waitsFor.Keys;
    while todo != {}
      invariant gs.waitsFor.Keys == old(gs.waitsFor).Keys && todo <= gs.waitsFor.Keys
      invariant forall x :: x in gs.waitsFor ==>
        gs.waitsFor[x] == if x in todo then old(gs.waitsFor)[x] else old(gs.waitsFor)[x] - {thread}
      decreases todo
    {
      var x :| x in todo;
      gs.waitsFor := gs.waitsFor[x := gs.waitsFor[x] - {thread}];
      todo := todo - {x};
    }
  }

  method EraseFromQueues(gs: GlobalState, thread: Thread)
    modifies gs`futexWaiters
    ensures gs.futexWaiters == WithoutWaiter(old(gs.futexWaiters), thread)
  {
    var todo := gs.futexWaiters.Keys;
    while todo != {}
      invariant gs.futexWaiters.Keys == old(gs.futexWaiters).Keys && todo <= gs.futexWaiters.Keys
      invariant forall a :: a in gs.futexWaiters ==>
        gs.futexWaiters[a] == if a in todo then old(gs.futexWaiters)[a] else Without(old(gs.futexWaiters)[a], thread)
      decreases todo
    {
      var a :| a in todo;
      gs.futexWaiters := gs.futexWaiters[a := Without(gs.futexWaiters[a], thread)];
      todo := todo - {a};
    }
  }

  method OnLock(gs: GlobalState, tid: Tid, addr: Addr)
    modifies gs
    ensures gs.View() == AfterLock(old(gs.View()), gs.IdentifierOf(tid), addr)
    ensures addr < 0x10000 || addr > 0x7fff_ffff_ffff ==> gs.View() == old(gs.View())
    ensures 0x10000 <= addr <= 0x7fff_ffff_ffff ==> addr in gs.lockOwners && gs.lockOwners[addr] == gs.IdentifierOf(tid)
    ensures unchanged(gs`monitoringActive, gs`detectedDeadlocks, gs`deadlockCounter)
  {
    hide WithoutTarget, WithoutWaiter, GetThreadIdentifier;
    if Junk(addr) { return; }
    var thread := gs.IdentifierOf(tid);
    gs.lockOwners := gs.lockOwners[addr := thread];
    var held := if thread in gs.threadLocks then gs.threadLocks[thread] else {};
    gs.threadLocks := gs.threadLocks[thread := held + {addr}];
    EraseFromWaitSets(gs, thread);
    EraseFromQueues(gs, thread);
    UpdateLockStats(gs, addr, thread);
  }

  method OnWait(gs: GlobalState, tid: Tid, addr: Addr)
    modifies gs
    ensures gs.View() == AfterWait(old(gs.View()), gs.IdentifierOf(tid), addr)
    ensures addr < 0x10000 || addr > 0x7fff_ffff_ffff ==> gs.View() == old(gs.View())
    ensures 0x10000 <= addr <= 0x7fff_ffff_ffff ==> addr in gs.futexWaiters && gs.IdentifierOf(tid) in gs.futexWaiters[addr]
    ensures 0x10000 <= addr <= 0x7fff_ffff_ffff && addr in gs.lockStats ==>
      gs.lockStats[addr].waitingThreads == gs.futexWaiters[addr] && gs.lockStats[addr].waitersCount == |gs.futexWaiters[addr]|
    ensures unchanged(gs`monitoringActive, gs`detectedDeadlocks, gs`deadlockCounter)
  {
    if Junk(addr) { return; }
    var thread := gs.IdentifierOf(tid);
    var queue := if addr in gs.futexWaiters then gs.futexWaiters[addr] else [];
    gs.futexWaiters := gs.futexWaiters[addr := queue + [thread]];
    if addr in gs.lockOwners {
      var owner := gs.lockOwners[addr];
      if owner != thread {
        var waits := if thread in gs.waitsFor then gs.waitsFor[thread] else {};
        gs.waitsFor := gs.waitsFor[thread := waits + {owner}];
      }
    }
    if addr in gs.lockStats {
      var queued := gs.futexWaiters[addr];
      gs.lockStats := gs.lockStats[addr := gs.lockStats[addr].(waitersCount := |queued|, waitingThreads := queued)];
    }
  }

  method OnWake(gs: GlobalState, tid: Tid, addr: Addr)
    modifies gs
    ensures gs.View() == AfterWake(old(gs.View()), addr)
    ensures gs.futexWaiters == old(gs.futexWaiters) - {addr}
    ensures addr in old(gs.futexWaiters) && addr in gs.lockStats ==>
      gs.lockStats[addr].waitersCount == 0 && gs.lockStats[addr].waitingThreads == []
    ensures gs.lockOwners == old(gs.lockOwners) && gs.threadLocks == old(gs.threadLocks) && gs.waitsFor == old(gs.waitsFor)
    ensures unchanged(gs`monitoringActive, gs`detectedDeadlocks, gs`deadlockCounter)
  {
    if addr !in gs.futexWaiters { return; }
    gs.futexWaiters := gs.futexWaiters - {addr};
    if addr in gs.lockStats {
      gs.lockStats := gs.lockStats[addr := gs.lockStats[addr].(waitersCount := 0, waitingThreads := [])];
    }
  }

  // ---------------------------------------------------------------- dispatch

  datatype FutexOp = FutexWait | FutexWake | FutexWaitBitset | FutexWakeBitset | OtherOp

  /** The stopped system call: a futex call with its masked command and address, or another one. */
  datatype Syscall = Futex(op: FutexOp, uaddr: Addr) | OtherCall

  /** The event a system call is taken for.  A FUTEX_WAKE_BITSET is handled as a wait. */
  function EventOf(thread: Thread, call: Syscall): Option<Event> {
    match call
    case OtherCall => None
    case Futex(op, addr) =>
      match op
      case FutexWake => Some(Wake(thread, addr))
      case OtherOp => None
      case _ => Some(Wait(thread, addr))
  }

  /** The call is this event of the thread: a wake acquires, the three other commands wait. */
  ghost predicate Shows(thread: Thread, call: Syscall, e: Event) {
    && call.Futex? && e.thread == thread && e.addr == call.uaddr
    && (call.op == FutexWake <==> e.Wake?) && call.op != OtherOp
  }

  /** What a system call is taken for, told from its command. */
  lemma EventOfIff(thread: Thread, call: Syscall, e: Event)
    ensures EventOf(thread, call) == Some(e) <==> Shows(thread, call, e)
    ensures call == Futex(FutexWake, e.addr) ==> EventOf(thread, call) == Some(Wake(thread, e.addr))
    ensures call == Futex(FutexWait, e.addr) || call == Futex(FutexWaitBitset, e.addr) || call == Futex(FutexWakeBitset, e.addr) ==>
      EventOf(thread, call) == Some(Wait(thread, e.addr))
    ensures EventOf(thread, call) == None <==> call.OtherCall? || call.op == OtherOp
  {}

  /** A wait in plain terms. */
  lemma WaitEffect(s: Tables, t: Thread, a: Addr)
    requires 0x10000 <= a <= 0x7fff_ffff_ffff
    ensures var s' := Step(s, Wait(t, a));
      && s'.futexWaiters == s.futexWaiters[a := (if a in s.futexWaiters then s.futexWaiters[a] else []) + [t]]
      && s'.lockOwners == s.lockOwners && s'.threadLocks == s.threadLocks && s'.lockStats - {a} == s.lockStats - {a}
      && (forall x, y :: y in Succ(s'.waitsFor, x) <==>
            y in Succ(s.waitsFor, x) || (x == t && a in s.lockOwners && y == s.lockOwners[a] && y != t))
  {}

  /** An acquisition in plain terms. */
  lemma WakeEffect(s: Tables, t: Thread, a: Addr)
    requires 0x10000 <= a <= 0x7fff_ffff_ffff
    ensures var s' := Step(s, Wake(t, a));
      && s'.lockOwners == s.lockOwners[a := t]
      && s'.threadLocks == s.threadLocks[t := (if t in s.threadLocks then s.threadLocks[t] else {}) + {a}]
      && s'.futexWaiters == WithoutWaiter(s.futexWaiters - {a}, t)[a := []]
      && (forall x, y :: y in Succ(s'.waitsFor, x) <==> y in Succ(s.waitsFor, x) && y != t)
      && a in s'.lockStats && s'.lockStats[a].currentOwner == t && s'.lockStats[a].waitersCount == 0
      && s'.lockStats[a].waitingThreads == [] && s'.lockStats - {a} == s.lockStats - {a}
  {
    var m := AfterWake(s, a);
    assert m.futexWaiters == s.futexWaiters - {a};
    assert AfterLock(m, t, a).futexWaiters == WithoutWaiter(s.futexWaiters - {a}, t)[a := []];
  }

  /** Taking a thread out of queues: only its own places go. */
  lemma WithoutWaiterIs(q: map<Addr, seq<Thread>>, t: Thread)
    ensures WithoutWaiter(q, t).Keys == q.Keys
    ensures forall b :: b in q ==>
      multiset(WithoutWaiter(q, t)[b]) == multiset(q[b])[t := 0] && (t !in q[b] ==> WithoutWaiter(q, t)[b] == q[b])
  {
    forall b | b in q
      ensures multiset(Without(q[b], t)) == multiset(q[b])[t := 0] && (t !in q[b] ==> Without(q[b], t) == q[b])
    {
      WithoutCounts(q[b], t);
      if t !in q[b] {
        WithoutAbsent(q[b], t);
      }
    }
  }

  lemma JunkEffect(s: Tables, t: Thread, a: Addr)
    requires a < 0x10000 || a > 0x7fff_ffff_ffff
    ensures Step(s, Wait(t, a)) == s
    ensures var s' := Step(s, Wake(t, a));
      && s'.lockOwners == s.lockOwners && s'.threadLocks == s.threadLocks && s'.waitsFor == s.waitsFor
      && s'.futexWaiters == s.futexWaiters - {a}
  {}

  /** `handle_syscall`.  The first clause ties it to the table updates; the others say directly what
      each command does to the queue, the owner, the lock sets and the wait edges. */
  method HandleSyscall(gs: GlobalState, tid: Tid, call: Syscall)
    modifies gs
    ensures gs.View() == match EventOf(gs.IdentifierOf(tid), call)
                         case None => old(gs.View())
                         case Some(e) => Step(old(gs.View()), e)
    ensures unchanged(gs`monitoringActive, gs`detectedDeadlocks, gs`deadlockCounter)
    ensures call.OtherCall? || call.op == OtherOp ==> gs.View() == old(gs.View())
    ensures call.Futex? && (call.op == FutexWait || call.op == FutexWaitBitset || call.op == FutexWakeBitset) ==>
      var t, a := gs.IdentifierOf(tid), call.uaddr;
      if 0x10000 <= a <= 0x7fff_ffff_ffff then
        && a in gs.futexWaiters
        && gs.futexWaiters[a] == (if a in old(gs.futexWaiters) then old(gs.futexWaiters)[a] else []) + [t]
        && (forall b :: b != a ==> (b in gs.futexWaiters <==> b in old(gs.futexWaiters)))
        && (forall b :: b != a && b in gs.futexWaiters ==> gs.futexWaiters[b] == old(gs.futexWaiters)[b])
        && gs.lockOwners == old(gs.lockOwners) && gs.threadLocks == old(gs.threadLocks)
        && (forall x, y :: y in Succ(gs.waitsFor, x) <==>
              y in Succ(old(gs.waitsFor), x) || (x == t && a in gs.lockOwners && y == gs.lockOwners[a] && y != t))
        && gs.lockStats - {a} == old(gs.lockStats) - {a}
      else gs.View() == old(gs.View())
    ensures call.Futex? && call.op == FutexWake ==>
      var t, a := gs.IdentifierOf(tid), call.uaddr;
      if 0x10000 <= a <= 0x7fff_ffff_ffff then
        && gs.lockOwners == old(gs.lockOwners)[a := t]
        && (forall u, b :: u in gs.threadLocks && b in gs.threadLocks[u] <==>
              (u in old(gs.threadLocks) && b in old(gs.threadLocks)[u]) || (u == t && b == a))
        && a in gs.futexWaiters && gs.futexWaiters[a] == []
        && (forall b :: b != a ==> (b in gs.futexWaiters <==> b in old(gs.futexWaiters)))
        && (forall b :: b != a && b in gs.futexWaiters ==> multiset(gs.futexWaiters[b]) == multiset(old(gs.futexWaiters)[b])[t := 0])
        && (forall b :: b != a && b in gs.futexWaiters && t !in old(gs.futexWaiters)[b] ==> gs.futexWaiters[b] == old(gs.futexWaiters)[b])
        && a in gs.lockStats && gs.lockStats[a].currentOwner == t && gs.lockStats[a].waitersCount == 0 && gs.lockStats[a].waitingThreads == []
        && gs.lockStats - {a} == old(gs.lockStats) - {a}
        && (forall x, y :: y in Succ(gs.waitsFor, x) <==> y in Succ(old(gs.waitsFor), x) && y != t)
      else
        gs.lockOwners == old(gs.lockOwners) && gs.threadLocks == old(gs.threadLocks) && gs.waitsFor == old(gs.waitsFor)
        && a !in gs.futexWaiters && gs.futexWaiters == old(gs.futexWaiters) - {a}
  {
    ghost var s, t := gs.View(), gs.IdentifierOf(tid);
    match call
    case OtherCall =>
    case Futex(op, uaddr) =>
      if 0x10000 <= uaddr <= 0x7fff_ffff_ffff {
        WaitEffect(s, t, uaddr);
        WakeEffect(s, t, uaddr);
        WithoutWaiterIs(s.futexWaiters - {uaddr}, t);
      } else {
        JunkEffect(s, t, uaddr);
      }
      hide AfterWait, AfterLock, AfterWake, WithoutWaiter, Junk;
      if op == FutexWait {
        OnWait(gs, tid, uaddr);
      } else if op == FutexWake {
        OnWake(gs, tid, uaddr);
        OnLock(gs, tid, uaddr);
      } else if op == FutexWaitBitset || op == FutexWakeBitset {
        OnWait(gs, tid, uaddr);
      }
  }

  lemma {:induction false} WithoutGone(q: seq<Thread>, t: Thread)
    ensures t !in Without(q, t)
  {
    if q != [] {
      WithoutGone(q[..|q| - 1], t);
    }
  }

  lemma {:induction false} WithoutAbsent(q: seq<Thread>, t: Thread)
    requires t !in q
    ensures Without(q, t) == q
  {
    if q != [] {
      WithoutAbsent(q[..|q| - 1], t);
    }
  }

  lemma {:induction false} WithoutCounts(q: seq<Thread>, t: Thread)
    ensures multiset(Without(q, t)) == multiset(q)[t := 0]
  {
    if q != [] {
      WithoutCounts(q[..|q| - 1], t);
      assert q == q[..|q| - 1] + [q[|q| - 1]];
    }
  }
}
