/** Which locks `find_locks_in_deadlock` names. */
module NamedLocks {
  import opened Graphs
  import opened State
  import opened Monitoring
  import opened History
  import opened Resolution

  /** Exactly which locks a report names: those owned by an entry and awaited by the next one, or owned by
      the last entry and awaited by the first. */
  lemma NamedIffAdjacent(s: Tables, cycle: seq<Thread>, a: Addr)
    ensures a in LocksNamed(s, cycle) <==>
      a in s.lockOwners && a in s.futexWaiters &&
      ((exists i, j :: 0 <= i && j == i + 1 && j < |cycle| && s.lockOwners[a] == cycle[i] && cycle[j] in s.futexWaiters[a]) ||
       (cycle != [] && s.lockOwners[a] == cycle[|cycle| - 1] && cycle[0] in s.futexWaiters[a]))
  {
    if a in LocksNamed(s, cycle) {
      var i: nat :| i < |cycle| && LockBetween(s, cycle, i, a);
      if i < |cycle| - 1 {
        Wraps(i, |cycle|);
        var j := i + 1;
        assert s.lockOwners[a] == cycle[i] && cycle[j] in s.futexWaiters[a];
      } else {
        Wraps(i, |cycle|);
      }
    }
    if a in s.lockOwners && a in s.futexWaiters {
      if i, j :| 0 <= i && j == i + 1 && j < |cycle| && s.lockOwners[a] == cycle[i] && cycle[j] in s.futexWaiters[a] {
        Wraps(i, |cycle|);
        assert LockBetween(s, cycle, i, a);
      }
      if cycle != [] && s.lockOwners[a] == cycle[|cycle| - 1] && cycle[0] in s.futexWaiters[a] {
        Wraps(|cycle| - 1, |cycle|);
        assert LockBetween(s, cycle, |cycle| - 1, a);
      }
    }
  }

  lemma Wraps(i: nat, n: nat)
    requires i < n
    ensures (i + 1) % n == if i == n - 1 then 0 else i + 1
  {}

  /** The last-to-first pair counts: it alone names a lock of the report [w, y, z, y] if y owns what w
      queues for. */
  lemma OnlyTheWrapNames(s: Tables, w: Thread, y: Thread, z: Thread, a: Addr)
    requires w != y && y != z && w != z && s.lockOwners == map[a := y] && s.futexWaiters == map[a := [w]]
    ensures LocksNamed(s, [w, y, z, y]) == {a}
    ensures forall i, j :: 0 <= i && j == i + 1 && j < 4 ==> !(s.lockOwners[a] == [w, y, z, y][i] && [w, y, z, y][j] in s.futexWaiters[a])
  {
    NamedIffAdjacent(s, [w, y, z, y], a);
    forall b | b in LocksNamed(s, [w, y, z, y]) ensures b == a {
      NamedIffAdjacent(s, [w, y, z, y], b);
    }
  }

  /** Whoever queues on an address waits for its owner, unless the owner itself is queueing or has
      acquired something after the wait began. */
  lemma QueuedWaitsForOwner(h: seq<Event>, n: nat, a: Addr, t: Thread, u: Thread, i: nat)
    requires i < n <= |h| && LiveWait(h, n, i, a) && h[i].thread == t && u != t
    requires a in StateAt(h, n).lockOwners && StateAt(h, n).lockOwners[a] == u
    requires forall j :: i < j < n ==> !AcquireBy(h[j], u)
    ensures u in Succ(StateAt(h, n).waitsFor, t)
  {
    OwnerHistory(h, n, a, u);
    var k :| 0 <= k < n && h[k] == Wake(u, a) && forall m :: k < m < n ==> !WakeOn(h[m], a);
    assert k < i by {
      assert WakeOn(h[k], a);
    }
    assert LastWakeBy(h, i, a, u);
    assert EdgeCause(h, n, i, t, u);
    EdgeHistory(h, n, t, u);
  }

  lemma {:induction false} QueuedHasLiveWait(h: seq<Event>, n: nat, a: Addr, m: nat, t: Thread) returns (i: nat)
    requires m <= n <= |h| && t in LiveThreads(h, n, a, m)
    ensures i < m && LiveWait(h, n, i, a) && h[i].thread == t
  {
    if t in LiveThreads(h, n, a, m - 1) {
      i := QueuedHasLiveWait(h, n, a, m - 1, t);
    } else {
      i := m - 1;
    }
  }

  /** A lock is named for the entries x, y of a report only if y waits for x as well, that is,
      against the direction of the report, or x has acquired something since y queued up. */
  lemma NamedLockMeansWaitBack(h: seq<Event>, cycle: seq<Thread>, p: nat, a: Addr) returns (i: nat)
    requires p < |cycle| && LockBetween(Run(h), cycle, p, a)
    ensures var x, y := cycle[p], cycle[(p + 1) % |cycle|];
      x == y || x in Succ(Run(h).waitsFor, y) ||
      (i < |h| && LiveWait(h, |h|, i, a) && h[i].thread == y && exists j :: i < j < |h| && AcquireBy(h[j], x))
  {
    var n := |h|;
    var x, y := cycle[p], cycle[(p + 1) % |cycle|];
    assert h[..n] == h;
    QueueHistory(h, n, a);
    i := QueuedHasLiveWait(h, n, a, n, y);
    if x != y && forall j :: i < j < n ==> !AcquireBy(h[j], x) {
      QueuedWaitsForOwner(h, n, a, y, x, i);
    }
  }
}
