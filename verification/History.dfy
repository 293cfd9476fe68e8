/** What the tables say about the past: each table as a function of the event history, over every
    run without a resolution. */
module History {
  import opened Graphs
  import opened State
  import opened Monitoring

  function StateAt(h: seq<Event>, n: nat): Tables
    requires n <= |h|
  {
    Run(h[..n])
  }

  lemma Unroll(h: seq<Event>, n: nat)
    requires n < |h|
    ensures StateAt(h, n + 1) == Step(StateAt(h, n), h[n])
  {
    assert h[..n + 1][..n] == h[..n];
  }

  predicate WakeOn(e: Event, a: Addr) {
    e.Wake? && e.addr == a
  }

  /** A wake by `u` that counts as an acquisition. */
  predicate AcquireBy(e: Event, u: Thread) {
    e.Wake? && e.thread == u && !Junk(e.addr)
  }

  ghost predicate LastWakeBy(h: seq<Event>, n: nat, a: Addr, u: Thread)
    requires n <= |h|
  {
    exists k :: 0 <= k < n && h[k] == Wake(u, a) && forall m :: k < m < n ==> !WakeOn(h[m], a)
  }

  // ---------------------------------------------------------------- owners and locks

  lemma LastWakeStep(h: seq<Event>, n: nat, a: Addr, u: Thread)
    requires n < |h|
    ensures LastWakeBy(h, n + 1, a, u) <==>
      if WakeOn(h[n], a) then h[n].thread == u else LastWakeBy(h, n, a, u)
  {
    if WakeOn(h[n], a) {
      if h[n].thread == u {
        assert h[n] == Wake(u, a);
      }
    } else if LastWakeBy(h, n, a, u) {
      var k :| 0 <= k < n && h[k] == Wake(u, a) && forall m :: k < m < n ==> !WakeOn(h[m], a);
      assert forall m :: k < m < n + 1 ==> !WakeOn(h[m], a);
    }
  }

  /** The recorded owner of an address is the thread of the last wake on it. */
  lemma {:induction false} OwnerHistory(h: seq<Event>, n: nat, a: Addr, u: Thread)
    requires n <= |h|
    ensures a in StateAt(h, n).lockOwners && StateAt(h, n).lockOwners[a] == u <==>
      !Junk(a) && LastWakeBy(h, n, a, u)
  {
    if n > 0 {
      OwnerHistory(h, n - 1, a, u);
      Unroll(h, n - 1);
      LastWakeStep(h, n - 1, a, u);
    }
  }

  ghost predicate EverWoke(h: seq<Event>, n: nat, t: Thread, a: Addr)
    requires n <= |h|
  {
    exists k :: 0 <= k < n && h[k] == Wake(t, a)
  }

  lemma LocksStep(s: Tables, e: Event, t: Thread, a: Addr)
    ensures t in Step(s, e).threadLocks && a in Step(s, e).threadLocks[t] <==>
      (t in s.threadLocks && a in s.threadLocks[t]) || (e == Wake(t, a) && !Junk(a))
  {}

  /** `thread_locks` records every lock a thread ever acquired: nothing is taken out again. */
  lemma {:induction false} LocksHistory(h: seq<Event>, n: nat, t: Thread, a: Addr)
    requires n <= |h|
    ensures t in StateAt(h, n).threadLocks && a in StateAt(h, n).threadLocks[t] <==>
      !Junk(a) && EverWoke(h, n, t, a)
  {
    if n > 0 {
      LocksHistory(h, n - 1, t, a);
      Unroll(h, n - 1);
      LocksStep(StateAt(h, n - 1), h[n - 1], t, a);
      hide Step, Run;
      assert EverWoke(h, n, t, a) <==> EverWoke(h, n - 1, t, a) || h[n - 1] == Wake(t, a);
    }
  }

  // ---------------------------------------------------------------- wait edges

  /** Event `i` is a wait of `t` on an address last woken by `u`, and `u` has acquired nothing since. */
  ghost predicate EdgeCause(h: seq<Event>, n: nat, i: int, t: Thread, u: Thread)
    requires n <= |h|
  {
    && 0 <= i < n
    && h[i].Wait? && h[i].thread == t && !Junk(h[i].addr)
    && u != t && LastWakeBy(h, i, h[i].addr, u)
    && forall j :: i < j < n ==> !AcquireBy(h[j], u)
  }

  ghost predicate HasCause(h: seq<Event>, n: nat, t: Thread, u: Thread)
    requires n <= |h|
  {
    exists i :: EdgeCause(h, n, i, t, u)
  }

  lemma CauseStep(h: seq<Event>, n: nat, t: Thread, u: Thread)
    requires n < |h|
    ensures HasCause(h, n + 1, t, u) <==>
      (HasCause(h, n, t, u) && !AcquireBy(h[n], u)) || EdgeCause(h, n + 1, n, t, u)
  {
    if HasCause(h, n + 1, t, u) {
      var i :| EdgeCause(h, n + 1, i, t, u);
      if i < n {
        assert EdgeCause(h, n, i, t, u);
      }
    }
    if HasCause(h, n, t, u) && !AcquireBy(h[n], u) {
      var i :| EdgeCause(h, n, i, t, u);
      assert EdgeCause(h, n + 1, i, t, u);
    }
  }

  /** One event's effect on one edge. */
  lemma EdgeStep(s: Tables, e: Event, t: Thread, u: Thread)
    ensures u in Succ(Step(s, e).waitsFor, t) <==>
      || (u in Succ(s.waitsFor, t) && !AcquireBy(e, u))
      || (e.Wait? && e.thread == t && !Junk(e.addr) && u != t
          && e.addr in s.lockOwners && s.lockOwners[e.addr] == u)
  {}

  /** The wait graph, exactly: an edge is there iff some earlier wait put it there and its target
      has acquired nothing since. */
  lemma {:induction false} EdgeHistory(h: seq<Event>, n: nat, t: Thread, u: Thread)
    requires n <= |h|
    ensures u in Succ(StateAt(h, n).waitsFor, t) <==> HasCause(h, n, t, u)
  {
    if n > 0 {
      EdgeHistory(h, n - 1, t, u);
      Unroll(h, n - 1);
      CauseStep(h, n - 1, t, u);
      EdgeStep(StateAt(h, n - 1), h[n - 1], t, u);
      if h[n - 1].Wait? {
        OwnerHistory(h, n - 1, h[n - 1].addr, u);
      }
    }
  }

  /** Whoever is waited for, or owns a lock, has an entry in `thread_locks` that lists the lock. */
  lemma HoldersAreListed(h: seq<Event>)
    ensures forall a :: a in Run(h).lockOwners ==>
      Run(h).lockOwners[a] in Run(h).threadLocks && a in Run(h).threadLocks[Run(h).lockOwners[a]]
    ensures forall t, u :: u in Succ(Run(h).waitsFor, t) ==> u in Run(h).threadLocks
  {
    var n := |h|;
    assert h[..n] == h;
    forall a | a in Run(h).lockOwners
      ensures Run(h).lockOwners[a] in Run(h).threadLocks && a in Run(h).threadLocks[Run(h).lockOwners[a]]
    {
      OwnerHistory(h, n, a, Run(h).lockOwners[a]);
      LocksHistory(h, n, Run(h).lockOwners[a], a);
    }
    forall t, u | u in Succ(Run(h).waitsFor, t) ensures u in Run(h).threadLocks {
      EdgeHistory(h, n, t, u);
      var i :| EdgeCause(h, n, i, t, u);
      LocksHistory(h, n, u, h[i].addr);
    }
  }

  // ---------------------------------------------------------------- waiting queues

  /** Event `i` is a wait on `a` that no later wake on `a`, and no later acquisition by the waiting
      thread, has cancelled. */
  ghost predicate LiveWait(h: seq<Event>, n: nat, i: nat, a: Addr)
    requires i < n <= |h|
  {
    && h[i].Wait? && h[i].addr == a && !Junk(a)
    && forall j :: i < j < n ==> !WakeOn(h[j], a) && !AcquireBy(h[j], h[i].thread)
  }

  /** The threads of the live waits among the first `m` events, oldest first. */
  ghost function LiveThreads(h: seq<Event>, n: nat, a: Addr, m: nat): seq<Thread>
    requires m <= n <= |h|
  {
    if m == 0 then []
    else LiveThreads(h, n, a, m - 1) + if LiveWait(h, n, m - 1, a) then [h[m - 1].thread] else []
  }

  lemma LiveWaitStep(h: seq<Event>, n: nat, i: nat, a: Addr)
    requires i < n < |h|
    ensures LiveWait(h, n + 1, i, a) <==>
      LiveWait(h, n, i, a) && !WakeOn(h[n], a) && !AcquireBy(h[n], h[i].thread)
  {}

  lemma {:induction false} LiveThreadsWait(h: seq<Event>, n: nat, a: Addr, m: nat)
    requires m <= n < |h| && h[n].Wait?
    ensures LiveThreads(h, n + 1, a, m) == LiveThreads(h, n, a, m)
  {
    if m > 0 {
      LiveThreadsWait(h, n, a, m - 1);
      LiveWaitStep(h, n, m - 1, a);
    }
  }

  lemma {:induction false} LiveThreadsWoken(h: seq<Event>, n: nat, a: Addr, m: nat)
    requires m <= n < |h| && WakeOn(h[n], a)
    ensures LiveThreads(h, n + 1, a, m) == []
  {
    if m > 0 {
      LiveThreadsWoken(h, n, a, m - 1);
      LiveWaitStep(h, n, m - 1, a);
    }
  }

  lemma WithoutAppend(s: seq<Thread>, x: Thread, t: Thread)
    ensures Without(s + [x], t) == Without(s, t) + if x == t then [] else [x]
  {
    assert (s + [x])[..|s|] == s;
  }

  lemma {:induction false} LiveThreadsElsewhere(h: seq<Event>, n: nat, a: Addr, m: nat)
    requires m <= n < |h| && h[n].Wake? && h[n].addr != a
    ensures LiveThreads(h, n + 1, a, m) ==
      if Junk(h[n].addr) then LiveThreads(h, n, a, m) else Without(LiveThreads(h, n, a, m), h[n].thread)
  {
    if m > 0 {
      LiveThreadsElsewhere(h, n, a, m - 1);
      LiveWaitStep(h, n, m - 1, a);
      var before, x, t := LiveThreads(h, n, a, m - 1), h[m - 1].thread, h[n].thread;
      if LiveWait(h, n, m - 1, a) {
        assert LiveThreads(h, n, a, m) == before + [x];
        WithoutAppend(before, x, t);
        assert LiveWait(h, n + 1, m - 1, a) <==> Junk(h[n].addr) || x != t;
      } else {
        assert LiveThreads(h, n, a, m) == before;
      }
    }
  }

  /** One event's effect on one queue. */
  lemma WaitersStep(s: Tables, e: Event, a: Addr)
    ensures Waiters(Step(s, e), a) ==
      if e.Wait? then (if e.addr == a && !Junk(a) then Waiters(s, a) + [e.thread] else Waiters(s, a))
      else if e.addr == a then []
      else if Junk(e.addr) then Waiters(s, a)
      else Without(Waiters(s, a), e.thread)
  {}

  /** The waiting queues, exactly: `futex_waiters[a]` lists the live waits on `a` in order. */
  lemma {:induction false} QueueHistory(h: seq<Event>, n: nat, a: Addr)
    requires n <= |h|
    ensures Waiters(StateAt(h, n), a) == LiveThreads(h, n, a, n)
  {
    if n > 0 {
      var k := n - 1;
      QueueHistory(h, k, a);
      Unroll(h, k);
      WaitersStep(StateAt(h, k), h[k], a);
      if h[k].Wait? {
        LiveThreadsWait(h, k, a, k);
      } else if h[k].addr == a {
        LiveThreadsWoken(h, k, a, k);
      } else {
        LiveThreadsElsewhere(h, k, a, k);
      }
    }
  }

  // ---------------------------------------------------------------- lock statistics

  function Wakes(h: seq<Event>, n: nat, a: Addr): nat
    requires n <= |h|
  {
    if n == 0 then 0 else Wakes(h, n - 1, a) + if WakeOn(h[n - 1], a) then 1 else 0
  }

  ghost predicate Subsequence(x: seq<Thread>, y: seq<Thread>)
    decreases |y|
  {
    || x == []
    || (y != [] && x[|x| - 1] == y[|y| - 1] && Subsequence(x[..|x| - 1], y[..|y| - 1]))
    || (y != [] && Subsequence(x, y[..|y| - 1]))
  }

  lemma {:induction false} SubsequenceSelf(x: seq<Thread>)
    ensures Subsequence(x, x)
  {
    if x != [] { SubsequenceSelf(x[..|x| - 1]); }
  }

  lemma {:induction false} SubsequenceWithout(x: seq<Thread>, y: seq<Thread>, t: Thread)
    requires Subsequence(x, y)
    ensures Subsequence(Without(x, t), y)
    decreases |y|
  {
    if x != [] {
      var x0, y0 := x[..|x| - 1], y[..|y| - 1];
      if x[|x| - 1] == y[|y| - 1] && Subsequence(x0, y0) {
        SubsequenceWithout(x0, y0, t);
        if x[|x| - 1] != t {
          assert Without(x, t)[..|Without(x, t)| - 1] == Without(x0, t);
        }
      } else {
        SubsequenceWithout(x, y0, t);
      }
    }
  }

  lemma {:induction false} SubsequenceLength(x: seq<Thread>, y: seq<Thread>)
    requires Subsequence(x, y)
    ensures |x| <= |y|
    decreases |y|
  {
    if x != [] {
      if x[|x| - 1] == y[|y| - 1] && Subsequence(x[..|x| - 1], y[..|y| - 1]) {
        SubsequenceLength(x[..|x| - 1], y[..|y| - 1]);
      } else {
        SubsequenceLength(x, y[..|y| - 1]);
      }
    }
  }

  ghost predicate StatsAgree(s: Tables, a: Addr, wakes: nat)
    requires a in s.lockStats
  {
    var st := s.lockStats[a];
    && st.lockAddress == a && a in s.lockOwners && st.currentOwner == s.lockOwners[a]
    && st.totalAcquisitions == wakes
    && st.waitersCount == |st.waitingThreads|
    && Subsequence(Waiters(s, a), st.waitingThreads)
  }

  lemma StatsWait(s: Tables, t: Thread, b: Addr, a: Addr, wakes: nat)
    requires a in s.lockStats ==> StatsAgree(s, a, wakes)
    ensures a in AfterWait(s, t, b).lockStats <==> a in s.lockStats
    ensures a in s.lockStats ==> StatsAgree(AfterWait(s, t, b), a, wakes)
  {
    WaitersStep(s, Wait(t, b), a);
    SubsequenceSelf(Waiters(AfterWait(s, t, b), a));
  }

  lemma StatsWakeElsewhere(s: Tables, t: Thread, b: Addr, a: Addr, wakes: nat)
    requires b != a && (a in s.lockStats ==> StatsAgree(s, a, wakes))
    ensures a in Step(s, Wake(t, b)).lockStats <==> a in s.lockStats
    ensures a in s.lockStats ==> StatsAgree(Step(s, Wake(t, b)), a, wakes)
  {
    WaitersStep(s, Wake(t, b), a);
    if a in s.lockStats {
      SubsequenceWithout(Waiters(s, a), s.lockStats[a].waitingThreads, t);
    }
  }

  lemma StatsWakeHere(s: Tables, t: Thread, a: Addr, wakes: nat)
    requires !Junk(a) && (if a in s.lockStats then StatsAgree(s, a, wakes) else wakes == 0)
    ensures a in Step(s, Wake(t, a)).lockStats && StatsAgree(Step(s, Wake(t, a)), a, wakes + 1)
  {
    WaitersStep(s, Wake(t, a), a);
  }

  /** The statistics in every run: a lock is tracked from its first wake on, acquisitions are its
      wakes, and the recorded waiters are the real ones plus possibly some that have since left, so
      `waiters_count` is never too small. */
  lemma {:induction false} StatsHistory(h: seq<Event>, n: nat, a: Addr)
    requires n <= |h|
    ensures a in StateAt(h, n).lockStats <==> !Junk(a) && Wakes(h, n, a) > 0
    ensures a in StateAt(h, n).lockStats ==> StatsAgree(StateAt(h, n), a, Wakes(h, n, a))
    ensures a in StateAt(h, n).lockStats ==>
      |Waiters(StateAt(h, n), a)| <= StateAt(h, n).lockStats[a].waitersCount
  {
    if n > 0 {
      var s, e := StateAt(h, n - 1), h[n - 1];
      StatsHistory(h, n - 1, a);
      Unroll(h, n - 1);
      if e.Wait? {
        StatsWait(s, e.thread, e.addr, a, Wakes(h, n - 1, a));
      } else if e.addr != a {
        StatsWakeElsewhere(s, e.thread, e.addr, a, Wakes(h, n - 1, a));
      } else if !Junk(a) {
        StatsWakeHere(s, e.thread, a, Wakes(h, n - 1, a));
      }
    }
    if a in StateAt(h, n).lockStats {
      SubsequenceLength(Waiters(StateAt(h, n), a), StateAt(h, n).lockStats[a].waitingThreads);
    }
  }

  /** An event on the lock records its queue, others leave the record's waiters alone. */
  lemma RecordedStep(s: Tables, e: Event, a: Addr)
    requires !Junk(a) && a in Step(s, e).lockStats
    ensures var st, s' := Step(s, e).lockStats[a], Step(s, e);
      if e.addr == a then st.waitingThreads == Waiters(s', a) && st.waitersCount == |st.waitingThreads|
      else a in s.lockStats && st.waitingThreads == s.lockStats[a].waitingThreads && st.waitersCount == s.lockStats[a].waitersCount
  {}

  /** The recorded waiters in every run: exactly the live waits just after the last event on the lock,
      oldest first, and `waiters_count` is their number. */
  lemma {:induction false} RecordedWaiters(h: seq<Event>, n: nat, a: Addr) returns (k: nat)
    requires n <= |h| && a in StateAt(h, n).lockStats
    ensures k < n && h[k].addr == a && forall j :: k < j < n ==> h[j].addr != a
    ensures var st := StateAt(h, n).lockStats[a];
      st.waitingThreads == LiveThreads(h, k + 1, a, k + 1) && st.waitersCount == |LiveThreads(h, k + 1, a, k + 1)|
  {
    StatsHistory(h, n, a);
    if n > 0 {
      var s, e := StateAt(h, n - 1), h[n - 1];
      Unroll(h, n - 1);
      RecordedStep(s, e, a);
      hide Step, Run, LiveThreads, LiveWait, StatsAgree, Wakes;
      if e.addr == a {
        k := n - 1;
        QueueHistory(h, n, a);
      } else {
        k := RecordedWaiters(h, n - 1, a);
      }
    }
  }
}
