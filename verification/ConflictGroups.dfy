/** Grouping of threads by shared locks: `analyze_conflict_groups`. */
module ConflictGroups {
  import opened Graphs
  import opened State

  predicate SharesLock(mine: set<Addr>, theirs: set<Addr>) {
    exists lock :: lock in mine && lock in theirs
  }

  datatype ConflictGroup = ConflictGroup(
    groupId: nat,
    threads: set<Thread>,
    locksHeld: set<Addr>,
    locksWanted: set<Addr>,
    conflictingGroups: set<nat>)
  {
    predicate ConflictsWith(other: ConflictGroup) {
      SharesLock(locksHeld, other.locksWanted) || SharesLock(locksWanted, other.locksHeld)
    }
  }

  /** The order in which iteration goes through `thread_locks`, `waits_for` and each of its sets.  It
      is arbitrary, but stays the same as long as the tables do. */
  datatype Order = Order(holders: seq<Thread>, waiters: seq<Thread>, targets: map<Thread, seq<Thread>>)

  ghost predicate OrderOf(o: Order, s: Tables) {
    && Enumerates(o.holders, s.threadLocks.Keys) && Enumerates(o.waiters, s.waitsFor.Keys)
    && ListsTargets(o.targets, s.waitsFor)
  }

  /** Any order the maps and sets may be iterated in. */
  method IterationOrder(s: Tables) returns (o: Order)
    ensures OrderOf(o, s)
  {
    var holders := Enumerate(s.threadLocks.Keys);
    var waiters := Enumerate(s.waitsFor.Keys);
    var targets := map[];
    var todo := s.waitsFor.Keys;
    while todo != {}
      invariant todo <= s.waitsFor.Keys
      invariant forall x :: x in s.waitsFor && x !in todo ==> x in targets && Enumerates(targets[x], s.waitsFor[x])
      decreases todo
    {
      var x :| x in todo;
      var order := Enumerate(s.waitsFor[x]);
      targets := targets[x := order];
      todo := todo - {x};
    }
    o := Order(holders, waiters, targets);
  }

  method Enumerate(keys: set<Thread>) returns (order: seq<Thread>)
    ensures Enumerates(order, keys)
  {
    order := [];
    var todo := keys;
    while todo != {}
      invariant todo <= keys && Enumerates(order, keys - todo)
      decreases todo
    {
      var x :| x in todo;
      InElems(order, x);
      assert Elems(order + [x]) == Elems(order) + {x};
      order := order + [x];
      todo := todo - {x};
    }
  }

  type LockSets = map<Thread, set<Addr>>

  // ---------------------------------------------------------------- specification

  predicate Share(locks: LockSets, x: Thread, y: Thread) {
    x in locks && y in locks && SharesLock(locks[x], locks[y])
  }

  predicate Joins(locks: LockSets, founder: Thread, x: Thread) {
    x == founder || Share(locks, founder, x)
  }

  /** A thread founds a group iff it joins no earlier founder. */
  function Founders(locks: LockSets, order: seq<Thread>): seq<Thread> {
    if order == [] then []
    else
      var fs := Founders(locks, order[..|order| - 1]);
      var t := order[|order| - 1];
      if exists i :: 0 <= i < |fs| && Joins(locks, fs[i], t) then fs else fs + [t]
  }

  /** The lock holders whose first matching founder is the i-th. */
  function Members(locks: LockSets, fs: seq<Thread>, i: nat): set<Thread>
    requires i < |fs|
  {
    set x | x in locks && Joins(locks, fs[i], x) && forall j :: 0 <= j < i ==> !Joins(locks, fs[j], x)
  }

  function WaitingOnly(locks: LockSets, order: seq<Thread>): seq<Thread> {
    if order == [] then []
    else
      var ws := WaitingOnly(locks, order[..|order| - 1]);
      var t := order[|order| - 1];
      if t in locks then ws else ws + [t]
  }

  function GroupThreads(s: Tables, o: Order): seq<set<Thread>> {
    var fs := Founders(s.threadLocks, o.holders);
    var ws := WaitingOnly(s.threadLocks, o.waiters);
    seq(|fs|, i requires 0 <= i < |fs| => Members(s.threadLocks, fs, i)) +
    seq(|ws|, i requires 0 <= i < |ws| => {ws[i]})
  }

  function Held(s: Tables, threads: set<Thread>): set<Addr> {
    set t, a | t in threads && t in s.threadLocks && a in s.threadLocks[t] :: a
  }

  function Wanted(s: Tables, threads: set<Thread>): set<Addr> {
    set a | a in s.lockOwners && exists t :: t in threads && s.lockOwners[a] in Succ(s.waitsFor, t)
  }

  predicate InConflict(s: Tables, x: set<Thread>, y: set<Thread>) {
    SharesLock(Held(s, x), Wanted(s, y)) || SharesLock(Wanted(s, x), Held(s, y))
  }

  function Conflicts(s: Tables, ts: seq<set<Thread>>, i: nat): set<nat>
    requires i < |ts|
  {
    set j: nat | j < |ts| && j != i && InConflict(s, ts[i], ts[j])
  }

  function GroupsOf(s: Tables, o: Order): seq<ConflictGroup> {
    var ts := GroupThreads(s, o);
    seq(|ts|, i requires 0 <= i < |ts| =>
      ConflictGroup(i, ts[i], Held(s, ts[i]), Wanted(s, ts[i]), Conflicts(s, ts, i)))
  }

  // ---------------------------------------------------------------- phase 1 as coded

  /** The groups so far hold thread sets only. */
  ghost predicate Bare(groups: seq<ConflictGroup>, ts: seq<set<Thread>>) {
    |groups| == |ts| && forall i :: 0 <= i < |ts| ==> groups[i] == ConflictGroup(i, ts[i], {}, {}, {})
  }

  ghost function MemberSets(locks: LockSets, fs: seq<Thread>): seq<set<Thread>> {
    seq(|fs|, i requires 0 <= i < |fs| => Members(locks, fs, i))
  }

  ghost function Joined(locks: LockSets, fs: seq<Thread>): set<Thread> {
    set x | x in locks && exists i :: 0 <= i < |fs| && Joins(locks, fs[i], x)
  }

  /** `get_or_create_group`. */
  method GetOrCreateGroup(groups: seq<ConflictGroup>, threadToGroup: map<Thread, nat>, thread: Thread)
    returns (groups': seq<ConflictGroup>, threadToGroup': map<Thread, nat>, id: nat)
    ensures thread in threadToGroup ==>
      groups' == groups && threadToGroup' == threadToGroup && id == threadToGroup[thread]
    ensures thread !in threadToGroup ==>
      groups' == groups + [ConflictGroup(|groups|, {thread}, {}, {}, {})] &&
      threadToGroup' == threadToGroup[thread := |groups|] && id == |groups|
  {
    if thread in threadToGroup {
      return groups, threadToGroup, threadToGroup[thread];
    }
    id := |groups|;
    groups' := groups + [ConflictGroup(id, {thread}, {}, {}, {})];
    threadToGroup' := threadToGroup[thread := id];
  }

  /** The inner loop: every unvisited thread that shares a lock with `thread` joins its group. */
  method CollectSharers(locks: LockSets, order: seq<Thread>, thread: Thread, group: ConflictGroup,
                        visited: set<Thread>, threadToGroup: map<Thread, nat>)
    returns (group': ConflictGroup, visited': set<Thread>, threadToGroup': map<Thread, nat>)
    requires Enumerates(order, locks.Keys) && thread in locks && thread in visited
    ensures group' == group.(threads := group.threads + set x | x in locks && x !in visited && Share(locks, thread, x))
    ensures visited' == visited + set x | x in locks && x !in visited && Share(locks, thread, x)
    ensures threadToGroup'.Keys == threadToGroup.Keys + (visited' - visited)
  {
    group', visited', threadToGroup' := group, visited, threadToGroup;
    ghost var new': set<Thread> := {};
    for i := 0 to |order|
      invariant new' == set x | x in order[..i] && x !in visited && Share(locks, thread, x)
      invariant group' == group.(threads := group.threads + new') && visited' == visited + new'
      invariant threadToGroup'.Keys == threadToGroup.Keys + new'
    {
      var other := order[i];
      assert other in Elems(order);
      assert order[..i + 1] == order[..i] + [other];
      if other != thread && other !in visited' && SharesLock(locks[thread], locks[other]) {
        group' := group'.(threads := group'.threads + {other});
        threadToGroup' := threadToGroup'[other := group.groupId];
        visited' := visited' + {other};
        new' := new' + {other};
      }
    }
    assert order[..|order|] == order;
    assert new' == set x | x in locks && x !in visited && Share(locks, thread, x) by {
      assert forall x :: x in order <==> x in Elems(order);
    }
  }

  lemma FoundersExtend(locks: LockSets, fs: seq<Thread>, t: Thread)
    requires t in locks
    requires !exists i :: 0 <= i < |fs| && Joins(locks, fs[i], t)
    ensures MemberSets(locks, fs + [t]) == MemberSets(locks, fs) +
      [{t} + set x | x in locks && x !in Joined(locks, fs) + {t} && Share(locks, t, x)]
    ensures Joined(locks, fs + [t]) == Joined(locks, fs) + {t} +
      set x | x in locks && x !in Joined(locks, fs) + {t} && Share(locks, t, x)
  {
    var gs := fs + [t];
    var n := |fs|;
    assert forall i :: 0 <= i < n ==> gs[i] == fs[i];
    forall i | 0 <= i < n ensures Members(locks, gs, i) == Members(locks, fs, i) {}
    var last := {t} + set x | x in locks && x !in Joined(locks, fs) + {t} && Share(locks, t, x);
    assert Members(locks, gs, n) == last;
    assert Joined(locks, gs) == Joined(locks, fs) + last;
  }

  lemma FoundersStep(locks: LockSets, order: seq<Thread>, k: nat)
    requires k < |order| && order[k] in locks
    ensures var fs := Founders(locks, order[..k]);
      Founders(locks, order[..k + 1]) == if order[k] in Joined(locks, fs) then fs else fs + [order[k]]
    ensures forall x :: x in order[..k + 1] <==> x in order[..k] || x == order[k]
  {
    assert order[..k + 1] == order[..k] + [order[k]];
    assert order[..k + 1][..k] == order[..k];
  }

  /** One new group: `thread` founds it and everyone unvisited who shares a lock with it joins. */
  method FoundGroup(locks: LockSets, order: seq<Thread>, thread: Thread, ghost fs: seq<Thread>,
                    groups: seq<ConflictGroup>, visited: set<Thread>, threadToGroup: map<Thread, nat>)
    returns (groups': seq<ConflictGroup>, visited': set<Thread>, threadToGroup': map<Thread, nat>)
    requires Enumerates(order, locks.Keys) && thread in locks && thread !in visited
    requires Bare(groups, MemberSets(locks, fs)) && visited == Joined(locks, fs) == threadToGroup.Keys
    ensures Bare(groups', MemberSets(locks, fs + [thread]))
    ensures visited' == Joined(locks, fs + [thread]) == threadToGroup'.Keys
    ensures visited + {thread} <= visited'
  {
    FoundersExtend(locks, fs, thread);
    var id, group;
    groups', threadToGroup', id := GetOrCreateGroup(groups, threadToGroup, thread);
    visited' := visited + {thread};
    group, visited', threadToGroup' :=
      CollectSharers(locks, order, thread, groups'[id], visited', threadToGroup');
    groups' := groups'[id := group];
  }

  method GroupByLocks(locks: LockSets, order: seq<Thread>)
    returns (groups: seq<ConflictGroup>, visited: set<Thread>, threadToGroup: map<Thread, nat>)
    requires Enumerates(order, locks.Keys)
    ensures Bare(groups, MemberSets(locks, Founders(locks, order)))
    ensures visited == locks.Keys == threadToGroup.Keys
  {
    groups, visited, threadToGroup := [], {}, map[];
    ghost var fs: seq<Thread> := [];
    for k := 0 to |order|
      invariant fs == Founders(locks, order[..k])
      invariant Bare(groups, MemberSets(locks, fs))
      invariant visited == Joined(locks, fs) == threadToGroup.Keys
      invariant forall x :: x in order[..k] ==> x in visited
    {
      var thread := order[k];
      InElems(order, thread);
      FoundersStep(locks, order, k);
      if thread !in visited {
        groups, visited, threadToGroup := FoundGroup(locks, order, thread, fs, groups, visited, threadToGroup);
        fs := fs + [thread];
      }
    }
    assert order[..|order|] == order;
    assert forall x :: x in locks ==> x in Elems(order);
  }

  method AddSingle(groups: seq<ConflictGroup>, threadToGroup: map<Thread, nat>, thread: Thread, ghost ts: seq<set<Thread>>)
    returns (groups': seq<ConflictGroup>, threadToGroup': map<Thread, nat>)
    requires Bare(groups, ts) && thread !in threadToGroup
    ensures Bare(groups', ts + [{thread}]) && threadToGroup'.Keys == threadToGroup.Keys + {thread}
  {
    var id;
    groups', threadToGroup', id := GetOrCreateGroup(groups, threadToGroup, thread);
  }

  /** The threads that wait but hold nothing: one group each. */
  method AddWaitingThreads(locks: LockSets, order: seq<Thread>, groups: seq<ConflictGroup>, ghost ts: seq<set<Thread>>,
                           visited: set<Thread>, threadToGroup: map<Thread, nat>)
    returns (groups': seq<ConflictGroup>)
    requires Distinct(order) && Bare(groups, ts) && visited == locks.Keys == threadToGroup.Keys
    ensures Bare(groups', WithSingles(ts, locks, order))
  {
    groups' := groups;
    var seen, toGroup := visited, threadToGroup;
    ghost var all := ts;
    assert all == WithSingles(ts, locks, order[..0]);
    hide Bare, WithSingles;
    for k := 0 to |order|
      invariant all == WithSingles(ts, locks, order[..k]) && Bare(groups', all)
      invariant seen == toGroup.Keys == locks.Keys + Elems(order[..k])
    {
      var thread := order[k];
      WaitingStep(ts, locks, order, k);
      if thread !in seen {
        groups', toGroup := AddSingle(groups', toGroup, thread, all);
        seen := seen + {thread};
        all := all + [{thread}];
      }
    }
    assert order[..|order|] == order;
  }

  ghost function WithSingles(ts: seq<set<Thread>>, locks: LockSets, order: seq<Thread>): seq<set<Thread>> {
    ts + Singles(WaitingOnly(locks, order))
  }

  lemma WaitingStep(ts: seq<set<Thread>>, locks: LockSets, order: seq<Thread>, k: nat)
    requires k < |order| && Distinct(order)
    ensures order[k] !in Elems(order[..k])
    ensures Elems(order[..k + 1]) == Elems(order[..k]) + {order[k]}
    ensures WithSingles(ts, locks, order[..k + 1]) ==
      WithSingles(ts, locks, order[..k]) + if order[k] in locks then [] else [{order[k]}]
  {
    assert order[..k + 1] == order[..k] + [order[k]];
    assert order[..k + 1][..k] == order[..k];
    SinglesAppend(WaitingOnly(locks, order[..k]), order[k]);
  }

  ghost function Singles(ws: seq<Thread>): seq<set<Thread>> {
    seq(|ws|, i requires 0 <= i < |ws| => {ws[i]})
  }

  lemma SinglesAppend(ws: seq<Thread>, t: Thread)
    ensures Singles(ws + [t]) == Singles(ws) + [{t}]
  {}

  // ---------------------------------------------------------------- phases 2 and 3 as coded

  method PopulateLocks(s: Tables, threads: set<Thread>) returns (held: set<Addr>, wanted: set<Addr>)
    ensures held == Held(s, threads) && wanted == Wanted(s, threads)
  {
    held, wanted := {}, {};
    var todo := threads;
    while todo != {}
      invariant todo <= threads
      invariant held == Held(s, threads - todo) && wanted == Wanted(s, threads - todo)
      decreases todo
    {
      var thread :| thread in todo;
      ghost var done := threads - todo;
      assert threads - (todo - {thread}) == done + {thread};
      HeldWantedAdd(s, done, thread);
      if thread in s.threadLocks {
        held := held + s.threadLocks[thread];
      }
      if thread in s.waitsFor {
        var more := LocksOwnedBy(s, s.waitsFor[thread]);
        wanted := wanted + more;
      }
      todo := todo - {thread};
    }
    assert threads - todo == threads;
  }

  lemma HeldWantedAdd(s: Tables, threads: set<Thread>, t: Thread)
    ensures Held(s, threads + {t}) == Held(s, threads) + if t in s.threadLocks then s.threadLocks[t] else {}
    ensures Wanted(s, threads + {t}) ==
      Wanted(s, threads) + set a | a in s.lockOwners && s.lockOwners[a] in Succ(s.waitsFor, t)
  {}

  method LocksOwnedBy(s: Tables, targets: set<Thread>) returns (locks: set<Addr>)
    ensures locks == set a | a in s.lockOwners && s.lockOwners[a] in targets
  {
    locks := {};
    var todo := targets;
    while todo != {}
      invariant todo <= targets
      invariant locks == set a | a in s.lockOwners && s.lockOwners[a] in targets - todo
      decreases todo
    {
      var target :| target in todo;
      locks := locks + set a | a in s.lockOwners && s.lockOwners[a] == target;
      todo := todo - {target};
    }
  }

  method PopulateGroups(s: Tables, groups: seq<ConflictGroup>, ghost ts: seq<set<Thread>>)
    returns (groups': seq<ConflictGroup>)
    requires Bare(groups, ts)
    ensures |groups'| == |ts|
    ensures forall i :: 0 <= i < |ts| ==>
      groups'[i] == ConflictGroup(i, ts[i], Held(s, ts[i]), Wanted(s, ts[i]), {})
  {
    groups' := groups;
    for i := 0 to |groups|
      invariant |groups'| == |ts|
      invariant forall j :: 0 <= j < i ==>
        groups'[j] == ConflictGroup(j, ts[j], Held(s, ts[j]), Wanted(s, ts[j]), {})
      invariant forall j :: i <= j < |ts| ==> groups'[j] == groups[j]
    {
      var held, wanted := PopulateLocks(s, groups'[i].threads);
      groups' := groups'[i := groups'[i].(locksHeld := held, locksWanted := wanted)];
    }
  }

  /** Whether the pair loop has handled the unordered pair {a, b} before reaching (i, j). */
  predicate PairDone(a: nat, b: nat, i: nat, j: nat) {
    var lo := if a < b then a else b;
    var hi := if a < b then b else a;
    lo < i || (lo == i && hi < j)
  }

  ghost predicate Marked(groups: seq<ConflictGroup>, marked: seq<ConflictGroup>, i: nat, j: nat) {
    && |marked| == |groups|
    && forall a: nat :: a < |groups| ==>
      marked[a] == groups[a].(conflictingGroups :=
        set b: nat | b < |groups| && b != a && PairDone(a, b, i, j) && groups[a].ConflictsWith(groups[b]))
  }

  method MarkConflicts(groups: seq<ConflictGroup>) returns (marked: seq<ConflictGroup>)
    requires forall a :: 0 <= a < |groups| ==> groups[a].conflictingGroups == {}
    ensures Marked(groups, marked, |groups|, 0)
  {
    marked := groups;
    for i := 0 to |groups|
      invariant Marked(groups, marked, i, 0)
    {
      assert Marked(groups, marked, i, i + 1);
      for j := i + 1 to |groups|
        invariant Marked(groups, marked, i, j)
      {
        ghost var before := marked;
        if marked[i].ConflictsWith(marked[j]) {
          marked := marked[i := marked[i].(conflictingGroups := marked[i].conflictingGroups + {j})];
          marked := marked[j := marked[j].(conflictingGroups := marked[j].conflictingGroups + {i})];
        }
        MarkPair(groups, before, marked, i, j);
      }
      assert Marked(groups, marked, i + 1, 0);
    }
  }

  lemma MarkPair(groups: seq<ConflictGroup>, before: seq<ConflictGroup>, after: seq<ConflictGroup>, i: nat, j: nat)
    requires i < j < |groups| && Marked(groups, before, i, j)
    requires after == if groups[i].ConflictsWith(groups[j])
      then before[i := before[i].(conflictingGroups := before[i].conflictingGroups + {j})]
                 [j := before[j].(conflictingGroups := before[j].conflictingGroups + {i})]
      else before
    ensures Marked(groups, after, i, j + 1)
  {
    forall a: nat | a < |groups|
      ensures after[a] == groups[a].(conflictingGroups :=
        set b: nat | b < |groups| && b != a && PairDone(a, b, i, j + 1) && groups[a].ConflictsWith(groups[b]))
    {
      forall b: nat | b != a
        ensures PairDone(a, b, i, j + 1) <==> PairDone(a, b, i, j) || (a == i && b == j) || (a == j && b == i)
      {}
    }
  }

  /** `analyze_conflict_groups`: a deterministic function of the tables and the iteration order, so
      the three functions that call it on one state see the same groups. */
  method AnalyzeConflictGroups(gs: GlobalState, o: Order) returns (groups: seq<ConflictGroup>)
    requires OrderOf(o, gs.View())
    ensures groups == GroupsOf(gs.View(), o)
  {
    var s := gs.View();
    var visited, threadToGroup;
    groups, visited, threadToGroup := GroupByLocks(s.threadLocks, o.holders);
    groups := AddWaitingThreads(s.threadLocks, o.waiters, groups,
                                MemberSets(s.threadLocks, Founders(s.threadLocks, o.holders)), visited, threadToGroup);
    ghost var ts := GroupThreads(s, o);
    groups := PopulateGroups(s, groups, ts);
    ghost var populated := groups;
    groups := MarkConflicts(groups);
    MarkedIsGroupsOf(s, o, populated, groups);
  }

  lemma MarkedIsGroupsOf(s: Tables, o: Order, populated: seq<ConflictGroup>, marked: seq<ConflictGroup>)
    requires var ts := GroupThreads(s, o); |populated| == |ts| && forall i :: 0 <= i < |ts| ==>
      populated[i] == ConflictGroup(i, ts[i], Held(s, ts[i]), Wanted(s, ts[i]), {})
    requires Marked(populated, marked, |populated|, 0)
    ensures marked == GroupsOf(s, o)
  {
    var ts := GroupThreads(s, o);
    forall a: nat | a < |ts| ensures marked[a] == GroupsOf(s, o)[a] {
      forall b: nat | b < |ts| && b != a
        ensures populated[a].ConflictsWith(populated[b]) <==> InConflict(s, ts[a], ts[b])
      {}
      assert marked[a].conflictingGroups == Conflicts(s, ts, a);
    }
  }
}
