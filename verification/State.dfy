/** The global tables of the detector and the records kept in them. */
module State {
  import opened Graphs
  import opened Identifiers

  /** Threads are known by their printed identifier. */
  type Thread = string

  /** A 64-bit futex address; the tables never do arithmetic on it. */
  type Addr = nat

  type WaitGraph = Graph<Thread>

  datatype LockStats = LockStats(
    lockAddress: Addr,
    currentOwner: Thread,
    totalAcquisitions: nat,
    waitersCount: nat,
    waitingThreads: seq<Thread>)

  datatype DeadlockInfo = DeadlockInfo(
    cycle: seq<Thread>,
    involvedLocks: seq<Addr>,
    deadlockId: nat,
    resolved: bool)

  /** A snapshot of the five event tables. */
  datatype Tables = Tables(
    lockOwners: map<Addr, Thread>,
    threadLocks: map<Thread, set<Addr>>,
    waitsFor: WaitGraph,
    futexWaiters: map<Addr, seq<Thread>>,
    lockStats: map<Addr, LockStats>)

  const EMPTY_TABLES := Tables(map[], map[], map[], map[], map[])

  class GlobalState {
    /** `thread_info_cache` never changes the name it holds for a tid, so over the life of the
        tracer names are a fixed function of the tid. */
    const nameOf: Tid -> string

    var lockOwners: map<Addr, Thread>
    var threadLocks: map<Thread, set<Addr>>
    var waitsFor: WaitGraph
    var futexWaiters: map<Addr, seq<Thread>>
    var lockStats: map<Addr, LockStats>

    var monitoringActive: bool
    var detectedDeadlocks: seq<DeadlockInfo>
    var deadlockCounter: nat

    constructor (nameOf: Tid -> string)
      ensures this.nameOf == nameOf
      ensures View() == EMPTY_TABLES
      ensures monitoringActive && detectedDeadlocks == [] && deadlockCounter == 0
    {
      this.nameOf := nameOf;
      lockOwners, threadLocks, waitsFor, futexWaiters, lockStats := map[], map[], map[], map[], map[];
      monitoringActive, detectedDeadlocks, deadlockCounter := true, [], 0;
    }

    function View(): Tables
      reads this
    {
      Tables(lockOwners, threadLocks, waitsFor, futexWaiters, lockStats)
    }

    function IdentifierOf(tid: Tid): Thread {
      GetThreadIdentifier(nameOf(tid), tid)
    }
  }
}
