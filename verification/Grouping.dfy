/** What the conflict groups mean. */
module Grouping {
  import opened Graphs
  import opened State
  import opened Monitoring
  import opened History
  import opened ConflictGroups

  /** No thread is in two groups. */
  ghost predicate Partitioned(ts: seq<set<Thread>>) {
    forall i, j, x :: 0 <= i < j < |ts| && x in ts[i] ==> x !in ts[j]
  }

  ghost predicate InGroup(ts: seq<set<Thread>>, i: nat, x: Thread) {
    i < |ts| && x in ts[i]
  }

  ghost predicate Grouped(ts: seq<set<Thread>>, x: Thread) {
    exists i: nat :: InGroup(ts, i, x)
  }

  // ---------------------------------------------------------------- founders

  ghost predicate Independent(locks: LockSets, fs: seq<Thread>) {
    forall i, j :: 0 <= i < j < |fs| ==> !Joins(locks, fs[i], fs[j])
  }

  /** The founders are lock holders of which no two share a lock ... */
  lemma {:induction false} FoundersIndependent(locks: LockSets, order: seq<Thread>)
    ensures Independent(locks, Founders(locks, order))
    ensures forall f :: f in Founders(locks, order) ==> f in order
  {
    if order != [] {
      var n := |order| - 1;
      FoundersIndependent(locks, order[..n]);
      var fs0, fs := Founders(locks, order[..n]), Founders(locks, order);
      if exists i :: 0 <= i < |fs0| && Joins(locks, fs0[i], order[n]) {
        assert fs == fs0;
      } else {
        assert fs == fs0 + [order[n]];
      }
    }
  }

  /** ... and no lock holder could be added: each shares a lock with a founder or is one. */
  lemma {:induction false} FoundersMaximal(locks: LockSets, order: seq<Thread>, x: Thread) returns (i: nat)
    requires x in order
    ensures i < |Founders(locks, order)| && Joins(locks, Founders(locks, order)[i], x)
  {
    var n := |order| - 1;
    var fs := Founders(locks, order[..n]);
    if x in order[..n] {
      i := FoundersMaximal(locks, order[..n], x);
    } else if k: nat :| k < |fs| && Joins(locks, fs[k], x) {
      i := k;
    } else {
      i := |fs|;
    }
  }

  lemma {:induction false} WaitingOnlyList(locks: LockSets, order: seq<Thread>)
    requires Distinct(order)
    ensures forall x :: x in WaitingOnly(locks, order) <==> x in order && x !in locks
    ensures Distinct(WaitingOnly(locks, order))
  {
    if order != [] {
      var n := |order| - 1;
      assert order == order[..n] + [order[n]];
      WaitingOnlyList(locks, order[..n]);
    }
  }

  // ---------------------------------------------------------------- the partition

  lemma OrdersList(s: Tables, o: Order)
    requires OrderOf(o, s)
    ensures Distinct(o.holders) && forall x :: x in o.holders <==> x in s.threadLocks
    ensures Distinct(o.waiters) && forall x :: x in o.waiters <==> x in s.waitsFor
  {
    assert forall x :: x in o.holders <==> x in Elems(o.holders);
    assert forall x :: x in o.waiters <==> x in Elems(o.waiters);
  }

  lemma FounderLeads(locks: LockSets, order: seq<Thread>, i: nat)
    requires Distinct(order) && forall x :: x in order ==> x in locks
    requires i < |Founders(locks, order)|
    ensures Founders(locks, order)[i] in Members(locks, Founders(locks, order), i)
  {
    FoundersIndependent(locks, order);
    var fs := Founders(locks, order);
    assert fs[i] in fs;
    assert forall j :: 0 <= j < i ==> !Joins(locks, fs[j], fs[i]);
  }

  /** One thread that waits and holds nothing. */
  ghost predicate SingleWaiter(s: Tables, x: set<Thread>) {
    exists w :: x == {w} && w in s.waitsFor && w !in s.threadLocks
  }

  /** The shape of every grouping: the founders' groups come first and are led by threads that
      pairwise share no lock, the rest are single waiting threads. */
  lemma GroupShape(s: Tables, o: Order)
    requires OrderOf(o, s)
    ensures var fs, ts := Founders(s.threadLocks, o.holders), GroupThreads(s, o);
      && |fs| <= |ts|
      && Independent(s.threadLocks, fs)
      && (forall i :: 0 <= i < |fs| ==> fs[i] in ts[i] && forall x :: x in ts[i] && x != fs[i] ==> Share(s.threadLocks, fs[i], x))
      && (forall i :: |fs| <= i < |ts| ==> SingleWaiter(s, ts[i]))
  {
    var locks := s.threadLocks;
    var fs, ws := Founders(locks, o.holders), WaitingOnly(locks, o.waiters);
    OrdersList(s, o);
    FoundersIndependent(locks, o.holders);
    var ts := GroupThreads(s, o);
    forall i | 0 <= i < |fs|
      ensures fs[i] in ts[i] && forall x :: x in ts[i] && x != fs[i] ==> Share(locks, fs[i], x)
    {
      FounderLeads(locks, o.holders, i);
      assert ts[i] == Members(locks, fs, i);
    }
    WaitingOnlyList(locks, o.waiters);
    forall i | |fs| <= i < |ts| ensures SingleWaiter(s, ts[i]) {
      var w := ws[i - |fs|];
      assert w in ws && ts[i] == {w};
    }
  }

  lemma GroupsDisjoint(s: Tables, o: Order)
    requires OrderOf(o, s)
    ensures Partitioned(GroupThreads(s, o))
  {
    var locks := s.threadLocks;
    var fs, ws := Founders(locks, o.holders), WaitingOnly(locks, o.waiters);
    WaitingOnlyList(locks, o.waiters);
    var ts := GroupThreads(s, o);
    forall i, j, x | 0 <= i < j < |ts| && x in ts[i] ensures x !in ts[j] {
      if j < |fs| {
        assert ts[i] == Members(locks, fs, i) && ts[j] == Members(locks, fs, j);
      } else {
        assert ts[j] == {ws[j - |fs|]} && ws[j - |fs|] in ws;
        if i < |fs| {
          assert ts[i] == Members(locks, fs, i);
        } else {
          assert ts[i] == {ws[i - |fs|]};
        }
      }
    }
  }

  lemma {:induction false} LeastJoin(locks: LockSets, fs: seq<Thread>, x: Thread, n: nat) returns (i: nat)
    requires n < |fs| && Joins(locks, fs[n], x)
    ensures i <= n && Joins(locks, fs[i], x) && forall j :: 0 <= j < i ==> !Joins(locks, fs[j], x)
  {
    if m :| 0 <= m < n && Joins(locks, fs[m], x) {
      i := LeastJoin(locks, fs, x, m);
    } else {
      i := n;
    }
  }

  lemma HolderGrouped(s: Tables, o: Order, x: Thread) returns (i: nat)
    requires OrderOf(o, s) && x in s.threadLocks
    ensures InGroup(GroupThreads(s, o), i, x)
  {
    OrdersList(s, o);
    var fs := Founders(s.threadLocks, o.holders);
    var n := FoundersMaximal(s.threadLocks, o.holders, x);
    i := LeastJoin(s.threadLocks, fs, x, n);
    assert GroupThreads(s, o)[i] == Members(s.threadLocks, fs, i);
  }

  lemma WaiterGrouped(s: Tables, o: Order, x: Thread) returns (i: nat)
    requires OrderOf(o, s) && x in s.waitsFor && x !in s.threadLocks
    ensures InGroup(GroupThreads(s, o), i, x)
  {
    OrdersList(s, o);
    WaitingOnlyList(s.threadLocks, o.waiters);
    var fs, ws := Founders(s.threadLocks, o.holders), WaitingOnly(s.threadLocks, o.waiters);
    var k: nat :| k < |ws| && ws[k] == x;
    i := |fs| + k;
  }

  lemma GroupedIsKey(s: Tables, o: Order, i: nat, x: Thread)
    requires OrderOf(o, s) && InGroup(GroupThreads(s, o), i, x)
    ensures x in s.threadLocks || x in s.waitsFor
  {
    OrdersList(s, o);
    WaitingOnlyList(s.threadLocks, o.waiters);
    var fs, ws := Founders(s.threadLocks, o.holders), WaitingOnly(s.threadLocks, o.waiters);
    if i < |fs| {
      assert GroupThreads(s, o)[i] == Members(s.threadLocks, fs, i);
    } else {
      assert x == ws[i - |fs|];
      assert x in ws;
    }
  }

  /** Exactly the threads with an entry in `thread_locks` or `waits_for` are grouped. */
  lemma GroupsCover(s: Tables, o: Order, x: Thread)
    requires OrderOf(o, s)
    ensures Grouped(GroupThreads(s, o), x) <==> x in s.threadLocks || x in s.waitsFor
  {
    if x in s.threadLocks {
      var i := HolderGrouped(s, o, x);
    } else if x in s.waitsFor {
      var i := WaiterGrouped(s, o, x);
    } else if i: nat :| InGroup(GroupThreads(s, o), i, x) {
      GroupedIsKey(s, o, i, x);
    }
  }

  // ---------------------------------------------------------------- conflicts

  /** `conflicting_groups` is symmetric and irreflexive, and holds exactly the other groups of which
      one side holds a lock the other wants. */
  lemma ConflictsAreMutual(s: Tables, o: Order, i: nat, j: nat)
    requires i < |GroupThreads(s, o)| && j < |GroupThreads(s, o)|
    ensures var gs := GroupsOf(s, o);
      && gs[i].groupId == i
      && (j in gs[i].conflictingGroups <==> i != j && (gs[i].ConflictsWith(gs[j]) || gs[j].ConflictsWith(gs[i])))
      && (j in gs[i].conflictingGroups <==> i in gs[j].conflictingGroups)
  {
    var gs, ts := GroupsOf(s, o), GroupThreads(s, o);
    assert gs[i].ConflictsWith(gs[j]) <==> InConflict(s, ts[i], ts[j]);
    assert gs[j].ConflictsWith(gs[i]) <==> InConflict(s, ts[j], ts[i]);
  }

  lemma WantsHeldIff(s: Tables, x: set<Thread>, y: set<Thread>)
    ensures SharesLock(Wanted(s, x), Held(s, y)) <==>
      exists t, u, a :: t in x && u in y && u in s.threadLocks && a in s.threadLocks[u] && a in s.lockOwners && s.lockOwners[a] in Succ(s.waitsFor, t)
    ensures SharesLock(Held(s, y), Wanted(s, x)) <==> SharesLock(Wanted(s, x), Held(s, y))
  {
    if SharesLock(Wanted(s, x), Held(s, y)) {
      var a :| a in Wanted(s, x) && a in Held(s, y);
      var t :| t in x && s.lockOwners[a] in Succ(s.waitsFor, t);
      var u :| u in y && u in s.threadLocks && a in s.threadLocks[u];
    }
    if t, u, a :| t in x && u in y && u in s.threadLocks && a in s.threadLocks[u] && a in s.lockOwners && s.lockOwners[a] in Succ(s.waitsFor, t) {
      assert a in Wanted(s, x) && a in Held(s, y);
    }
  }

  /** What it means on the tables: two groups are in conflict exactly if a thread of one waits for the
      current owner of an address that is in the lock set of a thread of the other. */
  lemma ConflictsExplained(s: Tables, o: Order, i: nat, j: nat)
    requires i < |GroupThreads(s, o)| && j < |GroupThreads(s, o)|
    ensures var gs := GroupsOf(s, o);
      j in gs[i].conflictingGroups <==>
        && i != j
        && ((exists t, u, a :: t in gs[i].threads && u in gs[j].threads && u in s.threadLocks && a in s.threadLocks[u]
                            && a in s.lockOwners && s.lockOwners[a] in Succ(s.waitsFor, t)) ||
            (exists t, u, a :: t in gs[j].threads && u in gs[i].threads && u in s.threadLocks && a in s.threadLocks[u]
                            && a in s.lockOwners && s.lockOwners[a] in Succ(s.waitsFor, t)))
  {
    var ts := GroupThreads(s, o);
    WantsHeldIff(s, ts[i], ts[j]);
    WantsHeldIff(s, ts[j], ts[i]);
    assert j in Conflicts(s, ts, i) <==> i != j && InConflict(s, ts[i], ts[j]);
  }

  /** The locks a group holds are those in the sets of its threads, and it wants the locks owned by whom
      its threads wait for. */
  lemma GroupLocksAre(s: Tables, o: Order, i: nat, a: Addr)
    requires i < |GroupThreads(s, o)|
    ensures var g := GroupsOf(s, o)[i];
      && (a in g.locksHeld <==> exists t :: t in g.threads && t in s.threadLocks && a in s.threadLocks[t])
      && (a in g.locksWanted <==> a in s.lockOwners && exists t :: t in g.threads && t in s.waitsFor && s.lockOwners[a] in s.waitsFor[t])
  {
    var g := GroupsOf(s, o)[i];
    if a in g.locksWanted {
      var t :| t in g.threads && s.lockOwners[a] in Succ(s.waitsFor, t);
      assert t in s.waitsFor;
    }
  }

  /** The lock holders in their order: each founds a group exactly if it shares no lock with a founder
      before it, and joins the group of the first founder it shares one with otherwise. */
  lemma {:induction false} FoundersGreedy(locks: LockSets, order: seq<Thread>, n: nat)
    requires n < |order| && Distinct(order) && forall x :: x in order ==> x in locks
    ensures order[n] in Founders(locks, order) <==>
      forall f :: f in Founders(locks, order) && f in order[..n] ==> !exists a :: a in locks[f] && a in locks[order[n]]
  {
    var m := |order| - 1;
    var fs0, fs := Founders(locks, order[..m]), Founders(locks, order);
    FoundersIndependent(locks, order[..m]);
    if n < m {
      assert order[..m][..n] == order[..n] && order[..m][n] == order[n];
      FoundersGreedy(locks, order[..m], n);
      assert order[m] !in order[..n];
      assert forall f :: f in fs && f in order[..n] ==> f in fs0;
      assert forall f :: f in fs0 ==> f in fs;
    } else {
      assert order[m] !in order[..m];
      FirstJoinIff(locks, fs0, order[m]);
    }
  }

  /** Groups are numbered in the order of their founders. */
  lemma {:induction false} FoundersInOrder(locks: LockSets, order: seq<Thread>, i: nat, j: nat) returns (p: nat, q: nat)
    requires i < j < |Founders(locks, order)|
    ensures p < q < |order| && order[p] == Founders(locks, order)[i] && order[q] == Founders(locks, order)[j]
  {
    var n := |order| - 1;
    var fs0 := Founders(locks, order[..n]);
    if j < |fs0| {
      p, q := FoundersInOrder(locks, order[..n], i, j);
    } else {
      FoundersIndependent(locks, order[..n]);
      assert fs0[i] in fs0;
      p :| 0 <= p < n && order[..n][p] == fs0[i];
      q := n;
    }
  }

  lemma FirstJoinIff(locks: LockSets, fs: seq<Thread>, t: Thread)
    requires t in locks && t !in fs && forall f :: f in fs ==> f in locks
    ensures (exists i :: 0 <= i < |fs| && Joins(locks, fs[i], t)) <==> exists f :: f in fs && exists a :: a in locks[f] && a in locks[t]
  {
    if i :| 0 <= i < |fs| && Joins(locks, fs[i], t) {
      assert fs[i] in fs;
    }
    if f :| f in fs && exists a :: a in locks[f] && a in locks[t] {
      var i :| 0 <= i < |fs| && fs[i] == f;
      assert Joins(locks, fs[i], t);
    }
  }

  /** A lock holder is in the group of the first founder that is it or shares a lock with it. */
  lemma MembersJoinFirst(s: Tables, o: Order, i: nat, x: Thread)
    requires OrderOf(o, s) && i < |Founders(s.threadLocks, o.holders)|
    ensures var fs, locks := Founders(s.threadLocks, o.holders), s.threadLocks;
      x in GroupThreads(s, o)[i] <==>
        && x in locks && (x == fs[i] || (fs[i] in locks && exists a :: a in locks[fs[i]] && a in locks[x]))
        && forall j :: 0 <= j < i ==> x != fs[j] && (fs[j] in locks ==> !exists a :: a in locks[fs[j]] && a in locks[x])
  {
    assert GroupThreads(s, o)[i] == Members(s.threadLocks, Founders(s.threadLocks, o.holders), i);
  }

  /** In every run the target of a wait edge is grouped, and a wait edge between two groups whose
      target owns some lock puts the two groups in conflict. */
  lemma WaitEdgesConflict(h: seq<Event>, o: Order, t: Thread, u: Thread) returns (i: nat, j: nat)
    requires OrderOf(o, Run(h)) && u in Succ(Run(h).waitsFor, t)
    ensures InGroup(GroupThreads(Run(h), o), i, t) && InGroup(GroupThreads(Run(h), o), j, u)
    ensures i != j && (exists a :: a in Run(h).lockOwners && Run(h).lockOwners[a] == u) ==>
      j in GroupsOf(Run(h), o)[i].conflictingGroups && i in GroupsOf(Run(h), o)[j].conflictingGroups
  {
    var s := Run(h);
    var ts := GroupThreads(s, o);
    HoldersAreListed(h);
    GroupsCover(s, o, t);
    GroupsCover(s, o, u);
    i :| InGroup(ts, i, t);
    j :| InGroup(ts, j, u);
    if i != j && exists a :: a in s.lockOwners && s.lockOwners[a] == u {
      var a :| a in s.lockOwners && s.lockOwners[a] == u;
      assert a in Held(s, ts[j]) && a in Wanted(s, ts[i]);
      assert InConflict(s, ts[i], ts[j]) && InConflict(s, ts[j], ts[i]);
    }
  }
}
