/** Group-level detection: `find_group_cycles`, `expand_group_cycle_to_threads` and
    `detect_group_deadlock`. */
module GroupDeadlocks {
  import opened Graphs
  import opened Identifiers
  import opened State
  import opened ConflictGroups
  import opened Grouping
  import opened Quotients
  import opened CycleCollector

  ghost function ThreadSets(groups: seq<ConflictGroup>): seq<set<Thread>> {
    seq(|groups|, i requires 0 <= i < |groups| => groups[i].threads)
  }

  // ---------------------------------------------------------------- the group wait graph

  /** The linear search for a thread's group; `None` is `(size_t)-1`. */
  method FindGroup(groups: seq<ConflictGroup>, thread: Thread) returns (id: Option<nat>)
    requires forall i :: 0 <= i < |groups| ==> groups[i].groupId == i
    ensures id.Some? ==> InGroup(ThreadSets(groups), id.value, thread)
    ensures id.None? ==> !Grouped(ThreadSets(groups), thread)
  {
    for i := 0 to |groups|
      invariant forall j :: 0 <= j < i ==> thread !in groups[j].threads
    {
      if thread in groups[i].threads {
        return Some(groups[i].groupId);
      }
    }
    return None;
  }

  ghost predicate CrossedBy(edges: set<(Thread, Thread)>, ts: seq<set<Thread>>, i: nat, j: nat) {
    i < |ts| && j < |ts| && i != j && exists e :: e in edges && e.0 in ts[i] && e.1 in ts[j]
  }

  /** The group graph after the wait edges in `edges` have been handled. */
  ghost predicate BuiltFrom(q: Graph<nat>, ts: seq<set<Thread>>, edges: set<(Thread, Thread)>) {
    && (forall i: nat :: i in q ==> q[i] != {})
    && (forall i: nat, j: nat :: j in Succ(q, i) <==> CrossedBy(edges, ts, i, j))
  }

  lemma BuildEdge(q: Graph<nat>, ts: seq<set<Thread>>, edges: set<(Thread, Thread)>, i: nat, t: Thread, u: Thread, target: Option<nat>)
    requires BuiltFrom(q, ts, edges) && Partitioned(ts) && InGroup(ts, i, t)
    requires if target.Some? then InGroup(ts, target.value, u) else !Grouped(ts, u)
    ensures BuiltFrom(if target.Some? && target.value != i then q[i := Succ(q, i) + {target.value}] else q,
                      ts, edges + {(t, u)})
  {
    var q' := if target.Some? && target.value != i then q[i := Succ(q, i) + {target.value}] else q;
    var edges' := edges + {(t, u)};
    forall a: nat, b: nat ensures b in Succ(q', a) <==> CrossedBy(edges', ts, a, b) {
      assert b in Succ(q, a) <==> CrossedBy(edges, ts, a, b);
      if a < |ts| && b < |ts| && t in ts[a] && u in ts[b] {
        assert a == i;
        assert InGroup(ts, b, u);
        assert target == Some(b);
        assert (t, u) in edges';
      } else {
        assert CrossedBy(edges', ts, a, b) <==> CrossedBy(edges, ts, a, b);
      }
    }
  }

  lemma SkipWaiter(q: Graph<nat>, ts: seq<set<Thread>>, edges: set<(Thread, Thread)>, more: set<(Thread, Thread)>, t: Thread)
    requires BuiltFrom(q, ts, edges) && !Grouped(ts, t) && forall e :: e in more ==> e.0 == t
    ensures BuiltFrom(q, ts, edges + more)
  {
    forall a: nat, b: nat ensures CrossedBy(edges + more, ts, a, b) <==> CrossedBy(edges, ts, a, b) {
      assert !InGroup(ts, a, t);
    }
  }

  ghost function EdgesOf(g: WaitGraph, waiters: set<Thread>): set<(Thread, Thread)> {
    set t, u | t in waiters && u in Succ(g, t) :: (t, u)
  }

  lemma BuiltIsQuotient(q: Graph<nat>, ts: seq<set<Thread>>, g: WaitGraph)
    requires BuiltFrom(q, ts, EdgesOf(g, g.Keys))
    ensures IsQuotient(q, ts, g)
  {
    var edges := EdgesOf(g, g.Keys);
    forall i: nat, j: nat ensures CrossedBy(edges, ts, i, j) <==> CrossEdge(ts, g, i, j) {
      if CrossedBy(edges, ts, i, j) {
        var e :| e in edges && e.0 in ts[i] && e.1 in ts[j];
        assert e.1 in Succ(g, e.0) * ts[j];
      }
      if CrossEdge(ts, g, i, j) {
        var t :| t in ts[i] && Succ(g, t) * ts[j] != {};
        var u :| u in Succ(g, t) * ts[j];
        assert (t, u) in edges;
      }
    }
  }

  method AddWaiterEdges(q: Graph<nat>, groups: seq<ConflictGroup>, g: WaitGraph, ghost edges: set<(Thread, Thread)>,
                        waiter: Thread, waiterGroup: nat) returns (q': Graph<nat>)
    requires forall i :: 0 <= i < |groups| ==> groups[i].groupId == i
    requires Partitioned(ThreadSets(groups)) && InGroup(ThreadSets(groups), waiterGroup, waiter)
    requires BuiltFrom(q, ThreadSets(groups), edges)
    ensures BuiltFrom(q', ThreadSets(groups), edges + EdgesOf(g, {waiter}))
  {
    q' := q;
    var todo := Succ(g, waiter);
    ghost var done := edges;
    while todo != {}
      invariant todo <= Succ(g, waiter)
      invariant done == edges + set u | u in Succ(g, waiter) - todo :: (waiter, u)
      invariant BuiltFrom(q', ThreadSets(groups), done)
      decreases todo
    {
      var target :| target in todo;
      var targetGroup := FindGroup(groups, target);
      BuildEdge(q', ThreadSets(groups), done, waiterGroup, waiter, target, targetGroup);
      if targetGroup.Some? && targetGroup.value != waiterGroup {
        q' := q'[waiterGroup := Succ(q', waiterGroup) + {targetGroup.value}];
      }
      done := done + {(waiter, target)};
      todo := todo - {target};
    }
    assert done == edges + EdgesOf(g, {waiter});
  }

  method BuildGroupWaitGraph(g: WaitGraph, groups: seq<ConflictGroup>) returns (q: Graph<nat>)
    requires forall i :: 0 <= i < |groups| ==> groups[i].groupId == i
    requires Partitioned(ThreadSets(groups))
    ensures IsQuotient(q, ThreadSets(groups), g)
  {
    q := map[];
    var todo := g.Keys;
    ghost var edges: set<(Thread, Thread)> := {};
    while todo != {}
      invariant todo <= g.Keys && edges == EdgesOf(g, g.Keys - todo)
      invariant BuiltFrom(q, ThreadSets(groups), edges)
      decreases todo
    {
      var waiter :| waiter in todo;
      var waiterGroup := FindGroup(groups, waiter);
      if waiterGroup.Some? {
        q := AddWaiterEdges(q, groups, g, edges, waiter, waiterGroup.value);
      } else {
        SkipWaiter(q, ThreadSets(groups), edges, EdgesOf(g, {waiter}), waiter);
      }
      assert EdgesOf(g, g.Keys - (todo - {waiter})) == edges + EdgesOf(g, {waiter});
      edges := edges + EdgesOf(g, {waiter});
      todo := todo - {waiter};
    }
    assert g.Keys - todo == g.Keys;
    BuiltIsQuotient(q, ThreadSets(groups), g);
  }

  lemma GroupsReady(s: Tables, o: Order)
    requires OrderOf(o, s)
    ensures ThreadSets(GroupsOf(s, o)) == GroupThreads(s, o) && Partitioned(GroupThreads(s, o))
    ensures forall i :: 0 <= i < |GroupsOf(s, o)| ==> GroupsOf(s, o)[i].groupId == i
  {
    GroupsDisjoint(s, o);
  }

  /** No group waits for itself, so group cycles have at least two groups. */
  lemma GroupCycleLength(q: Graph<nat>, ts: seq<set<Thread>>, g: WaitGraph, c: seq<nat>)
    requires IsQuotient(q, ts, g) && SimpleCycle(q, c)
    ensures |c| >= 2 && forall k :: 0 <= k < |c| ==> c[k] < |ts|
  {
    forall k | 0 <= k < |c| ensures c[k] < |ts| {
      CycleCrosses(q, ts, g, c, k);
    }
    assert CrossEdge(ts, g, c[|c| - 1], c[0]);
  }

  /** A longest one among cycles that correspond one-to-one to the back edges of some search. */
  ghost predicate LongestCollected(q: Graph<nat>, finished: seq<nat>, cycles: seq<seq<nat>>, c: seq<nat>) {
    OnePerBackEdge(q, finished, cycles) && c in cycles && forall d :: d in cycles ==> |d| <= |c|
  }

  /** `find_group_cycles`: empty iff the group graph is acyclic, and otherwise a longest collected cycle. */
  method FindGroupCycles(gs: GlobalState, o: Order) returns (largest: seq<nat>)
    requires OrderOf(o, gs.View())
    ensures largest == [] <==> !Cyclic(GroupGraph(gs.View(), o))
    ensures largest != [] ==> SimpleCycle(GroupGraph(gs.View(), o), largest) && |largest| >= 2
    ensures largest != [] ==> exists finished, cycles :: LongestCollected(GroupGraph(gs.View(), o), finished, cycles, largest)
  {
    var groups := AnalyzeConflictGroups(gs, o);
    GroupsReady(gs.View(), o);
    var graph := BuildGroupWaitGraph(gs.waitsFor, groups);
    ghost var ts := GroupThreads(gs.View(), o);
    QuotientIs(ts, gs.waitsFor);
    QuotientUnique(graph, GroupGraph(gs.View(), o), ts, gs.waitsFor);
    var groupCycles := CollectCycles(graph);
    ghost var finished :| OnePerBackEdge(graph, finished, groupCycles);
    CollectedIffCyclic(graph, finished, groupCycles);
    if groupCycles == [] {
      largest := [];
    } else {
      largest := Longest(groupCycles);
      GroupCycleLength(graph, ts, gs.waitsFor, largest);
      assert LongestCollected(graph, finished, groupCycles, largest);
    }
  }

  // ---------------------------------------------------------------- lifting a group cycle

  /** A thread of `from` that waits for a thread of `to`. */
  method FindWaiter(g: WaitGraph, from: set<Thread>, to: set<Thread>) returns (thread: Option<Thread>)
    ensures thread.Some? ==> thread.value in from && Succ(g, thread.value) * to != {}
    ensures thread.None? ==> !Crosses(g, from, to)
  {
    var todo := from;
    while todo != {}
      invariant todo <= from && forall t :: t in from - todo ==> Succ(g, t) * to == {}
      decreases todo
    {
      var t :| t in todo;
      var targets := Succ(g, t);
      while targets != {}
        invariant targets <= Succ(g, t) && (Succ(g, t) - targets) * to == {}
        decreases targets
      {
        var target :| target in targets;
        if target in to {
          assert target in Succ(g, t) * to;
          return Some(t);
        }
        targets := targets - {target};
      }
      todo := todo - {t};
    }
    return None;
  }

  /** The i-th thread belongs to the i-th group and waits for a thread of the next group. */
  ghost predicate Follows(ts: seq<set<Thread>>, g: WaitGraph, c: seq<nat>, threads: seq<Thread>, i: int)
    requires 0 <= i < |c| && i < |threads|
  {
    InGroup(ts, c[i], threads[i]) && c[(i + 1) % |c|] < |ts| && Succ(g, threads[i]) * ts[c[(i + 1) % |c|]] != {}
  }

  lemma CycleCrosses(q: Graph<nat>, ts: seq<set<Thread>>, g: WaitGraph, c: seq<nat>, i: nat)
    requires IsQuotient(q, ts, g) && SimpleCycle(q, c) && i < |c|
    ensures CrossEdge(ts, g, c[i], c[(i + 1) % |c|])
  {
    if i == |c| - 1 {
      assert (i + 1) % |c| == 0;
      assert c[0] in Succ(q, c[i]);
    } else {
      assert (i + 1) % |c| == i + 1;
      assert c[i + 1] in Succ(q, c[i]);
    }
  }

  function ThreadsOfGroup(groups: seq<ConflictGroup>, id: nat): set<Thread> {
    if id < |groups| then groups[id].threads else {}
  }

  /** One turn of the loop of `expand_group_cycle_to_threads`. */
  method PickThread(g: WaitGraph, current: set<Thread>, next: set<Thread>) returns (picked: seq<Thread>, ghost fellBack: bool)
    ensures fellBack <==> !Crosses(g, current, next)
    ensures Crosses(g, current, next) ==> |picked| == 1 && picked[0] in current && Succ(g, picked[0]) * next != {}
  {
    var found := FindWaiter(g, current, next);
    if found.Some? {
      return [found.value], false;
    }
    if current != {} {
      var any :| any in current;
      return [any], true;
    }
    return [], true;
  }

  ghost predicate LiftedUpTo(ts: seq<set<Thread>>, g: WaitGraph, c: seq<nat>, threads: seq<Thread>, n: int)
    requires 0 <= n <= |c|
  {
    |threads| == n && forall i :: 0 <= i < n ==> Follows(ts, g, c, threads, i)
  }

  ghost function GroupAt(ts: seq<set<Thread>>, id: nat): set<Thread> {
    if id < |ts| then ts[id] else {}
  }

  lemma LiftStep(ts: seq<set<Thread>>, g: WaitGraph, c: seq<nat>, threads: seq<Thread>, i: nat, picked: seq<Thread>)
    requires i < |c| && LiftedUpTo(ts, g, c, threads, i) && CrossEdge(ts, g, c[i], c[(i + 1) % |c|])
    requires var next := GroupAt(ts, c[(i + 1) % |c|]);
      Crosses(g, GroupAt(ts, c[i]), next) ==>
        |picked| == 1 && picked[0] in GroupAt(ts, c[i]) && Succ(g, picked[0]) * next != {}
    ensures LiftedUpTo(ts, g, c, threads + picked, i + 1)
  {
    var more := threads + picked;
    forall k | 0 <= k < i + 1 ensures Follows(ts, g, c, more, k) {
      if k < i {
        assert Follows(ts, g, c, threads, k);
      }
    }
  }

  /** `expand_group_cycle_to_threads`.  On a cycle of the group graph the fallback is never used. */
  method ExpandGroupCycleToThreads(gs: GlobalState, o: Order, groupCycle: seq<nat>, ghost q: Graph<nat>)
    returns (threadCycle: seq<Thread>, ghost fallbacks: nat)
    requires OrderOf(o, gs.View())
    ensures IsQuotient(q, GroupThreads(gs.View(), o), gs.waitsFor) && SimpleCycle(q, groupCycle) ==>
      LiftedUpTo(GroupThreads(gs.View(), o), gs.waitsFor, groupCycle, threadCycle, |groupCycle|)
    ensures IsQuotient(q, GroupThreads(gs.View(), o), gs.waitsFor) && SimpleCycle(q, groupCycle) ==> fallbacks == 0
  {
    var groups := AnalyzeConflictGroups(gs, o);
    ghost var ts := GroupThreads(gs.View(), o);
    ghost var isCycle := IsQuotient(q, ts, gs.waitsFor) && SimpleCycle(q, groupCycle);
    assert forall id :: ThreadsOfGroup(groups, id) == GroupAt(ts, id);
    threadCycle, fallbacks := [], 0;
    for i := 0 to |groupCycle|
      invariant isCycle ==> fallbacks == 0 && LiftedUpTo(ts, gs.waitsFor, groupCycle, threadCycle, i)
    {
      var current := ThreadsOfGroup(groups, groupCycle[i]);
      var next := ThreadsOfGroup(groups, groupCycle[(i + 1) % |groupCycle|]);
      var picked; ghost var fellBack;
      picked, fellBack := PickThread(gs.waitsFor, current, next);
      if isCycle {
        CycleCrosses(q, ts, gs.waitsFor, groupCycle, i);
        LiftStep(ts, gs.waitsFor, groupCycle, threadCycle, i, picked);
      }
      fallbacks := fallbacks + if fellBack then 1 else 0;
      threadCycle := threadCycle + picked;
    }
  }

  lemma FollowersDistinct(ts: seq<set<Thread>>, g: WaitGraph, c: seq<nat>, threads: seq<Thread>)
    requires Partitioned(ts) && Distinct(c) && LiftedUpTo(ts, g, c, threads, |c|)
    ensures Distinct(threads)
    ensures forall i, j :: 0 <= i < |c| && 0 <= j < |c| && InGroup(ts, c[i], threads[j]) ==> i == j
  {
    forall i, j | 0 <= i < |c| && 0 <= j < |c| && InGroup(ts, c[i], threads[j]) ensures i == j {
      assert Follows(ts, g, c, threads, j);
      assert c[i] == c[j];
    }
    forall i, j | 0 <= i < j < |c| ensures threads[i] != threads[j] {
      assert Follows(ts, g, c, threads, i) && Follows(ts, g, c, threads, j);
    }
  }

  lemma NextIndex(i: nat, n: nat)
    requires i < n
    ensures (i + 1) % n == if i + 1 < n then i + 1 else 0
  {}

  lemma FollowsSingle(ts: seq<set<Thread>>, g: WaitGraph, c: seq<nat>, threads: seq<Thread>, i: nat, j: nat)
    requires LiftedUpTo(ts, g, c, threads, |c|) && i < |c| && j == (if i + 1 < |c| then i + 1 else 0)
    requires c[j] < |ts| ==> Single(ts[c[j]])
    ensures threads[j] in Succ(g, threads[i])
  {
    NextIndex(i, |c|);
    assert Follows(ts, g, c, threads, i) && Follows(ts, g, c, threads, j);
    var u :| u in Succ(g, threads[i]) * ts[c[j]];
    assert u == threads[j];
  }

  /** When the groups on the cycle are single threads, the lifted list is itself a simple wait cycle. */
  lemma SingletonsLiftToCycle(ts: seq<set<Thread>>, g: WaitGraph, c: seq<nat>, threads: seq<Thread>)
    requires Partitioned(ts) && Distinct(c) && |c| >= 1 && LiftedUpTo(ts, g, c, threads, |c|)
    requires forall i :: 0 <= i < |c| && c[i] < |ts| ==> Single(ts[c[i]])
    ensures SimpleCycle(g, threads)
  {
    FollowersDistinct(ts, g, c, threads);
    hide Follows, Partitioned;
    forall i | 0 <= i < |threads| - 1 ensures threads[i + 1] in Succ(g, threads[i]) {
      FollowsSingle(ts, g, c, threads, i, i + 1);
    }
    FollowsSingle(ts, g, c, threads, |c| - 1, 0);
  }

  // ---------------------------------------------------------------- detect_group_deadlock

  datatype GroupResolution = GroupResolution(group: ConflictGroup, selectedVictim: Thread, victimTid: int)

  datatype GroupDeadlockInfo = GroupDeadlockInfo(
    groupCycle: seq<nat>,
    threadCycle: seq<Thread>,
    involvedLocks: set<Addr>,
    resolutions: seq<GroupResolution>)

  const NO_GROUP_DEADLOCK := GroupDeadlockInfo([], [], {}, [])

  /** The first listed thread that belongs to the group, or any thread of the group. */
  method SelectVictim(group: ConflictGroup, threadCycle: seq<Thread>) returns (victim: Thread)
    ensures (exists k :: 0 <= k < |threadCycle| && threadCycle[k] in group.threads) ==>
      exists k :: 0 <= k < |threadCycle| && victim == threadCycle[k] && victim in group.threads
    ensures group.threads != {} ==> victim in group.threads
  {
    for k := 0 to |threadCycle|
      invariant forall j :: 0 <= j < k ==> threadCycle[j] !in group.threads
    {
      if threadCycle[k] in group.threads {
        return threadCycle[k];
      }
    }
    victim := "";
    if group.threads != {} {
      victim :| victim in group.threads;
    }
  }

  ghost predicate Resolves(s: Tables, o: Order, c: seq<nat>, threads: seq<Thread>, r: GroupResolution, i: int)
    requires 0 <= i < |c| && i < |threads|
  {
    && c[i] < |GroupsOf(s, o)| && r.group == GroupsOf(s, o)[c[i]]
    && r.selectedVictim == threads[i] && ExtractTid(threads[i]) == Some(r.victimTid)
  }

  ghost function LocksOfGroups(s: Tables, o: Order, c: seq<nat>): set<Addr>
    requires forall k :: 0 <= k < |c| ==> c[k] < |GroupThreads(s, o)|
  {
    if c == [] then {}
    else
      var threads := GroupThreads(s, o)[c[|c| - 1]];
      LocksOfGroups(s, o, c[..|c| - 1]) + Held(s, threads) + Wanted(s, threads)
  }

  /** The thread has the lock in its lock set or waits for the lock's owner. */
  predicate Concerns(s: Tables, t: Thread, a: Addr) {
    (t in s.threadLocks && a in s.threadLocks[t]) || (a in s.lockOwners && t in s.waitsFor && s.lockOwners[a] in s.waitsFor[t])
  }

  lemma HeldOrWantedIff(s: Tables, threads: set<Thread>, a: Addr)
    ensures a in Held(s, threads) + Wanted(s, threads) <==> exists t :: t in threads && Concerns(s, t, a)
  {
    if a in Wanted(s, threads) {
      var t :| t in threads && s.lockOwners[a] in Succ(s.waitsFor, t);
      assert Concerns(s, t, a);
    }
    if a in Held(s, threads) {
      var t :| t in threads && t in s.threadLocks && a in s.threadLocks[t];
      assert Concerns(s, t, a);
    }
  }

  lemma {:induction false} LocksOfGroupsAre(s: Tables, o: Order, c: seq<nat>, a: Addr)
    requires forall k :: 0 <= k < |c| ==> c[k] < |GroupThreads(s, o)|
    ensures a in LocksOfGroups(s, o, c) <==> exists k, t :: 0 <= k < |c| && t in GroupThreads(s, o)[c[k]] && Concerns(s, t, a)
  {
    if c != [] {
      var n := |c| - 1;
      LocksOfGroupsAre(s, o, c[..n], a);
      HeldOrWantedIff(s, GroupThreads(s, o)[c[n]], a);
      hide GroupThreads, Held, Wanted, Concerns;
      if k, t :| 0 <= k < |c| && t in GroupThreads(s, o)[c[k]] && Concerns(s, t, a) {
        assert k < n ==> c[..n][k] == c[k];
      }
    }
  }

  /** What a report of a group deadlock promises. */
  ghost predicate GoodGroupReport(s: Tables, o: Order, info: GroupDeadlockInfo) {
    && SimpleCycle(GroupGraph(s, o), info.groupCycle) && |info.groupCycle| >= 2
    && |info.resolutions| == |info.groupCycle|
    && Distinct(info.threadCycle)
    && LiftedUpTo(GroupThreads(s, o), s.waitsFor, info.groupCycle, info.threadCycle, |info.groupCycle|)
    && (forall i :: 0 <= i < |info.groupCycle| ==>
          Resolves(s, o, info.groupCycle, info.threadCycle, info.resolutions[i], i))
    && (forall k :: 0 <= k < |info.groupCycle| ==> info.groupCycle[k] < |GroupThreads(s, o)|)
    && info.involvedLocks == LocksOfGroups(s, o, info.groupCycle)
  }

  /** The involved locks of a report are those that concern some thread of a reported group. */
  lemma InvolvedLocksAre(s: Tables, o: Order, info: GroupDeadlockInfo, a: Addr)
    requires GoodGroupReport(s, o, info)
    ensures a in info.involvedLocks <==>
      exists k, t :: 0 <= k < |info.groupCycle| && t in GroupThreads(s, o)[info.groupCycle[k]] && Concerns(s, t, a)
  {
    hide GroupThreads, Concerns;
    LocksOfGroupsAre(s, o, info.groupCycle, a);
  }

  method InvolvedLocks(s: Tables, o: Order, groups: seq<ConflictGroup>, c: seq<nat>) returns (locks: set<Addr>)
    requires groups == GroupsOf(s, o) && forall k :: 0 <= k < |c| ==> c[k] < |GroupThreads(s, o)|
    ensures locks == LocksOfGroups(s, o, c)
  {
    locks := {};
    for i := 0 to |c|
      invariant locks == LocksOfGroups(s, o, c[..i])
    {
      assert c[..i + 1][..i] == c[..i];
      if c[i] < |groups| {
        var group := groups[c[i]];
        locks := locks + group.locksHeld;
        locks := locks + group.locksWanted;
      }
    }
    assert c[..|c|] == c;
  }

  /** The resolution loop.  It stops with the exception of `std::stoi` if a victim's identifier does
      not read back as a number. */
  method SelectVictims(s: Tables, o: Order, groups: seq<ConflictGroup>, c: seq<nat>, threads: seq<Thread>)
    returns (threw: bool, rs: seq<GroupResolution>)
    requires OrderOf(o, s) && groups == GroupsOf(s, o)
    requires Distinct(c) && LiftedUpTo(GroupThreads(s, o), s.waitsFor, c, threads, |c|)
    ensures threw <==> exists i :: 0 <= i < |c| && ExtractTid(threads[i]) == None
    ensures !threw ==> |rs| == |c| && forall i :: 0 <= i < |c| ==> Resolves(s, o, c, threads, rs[i], i)
  {
    ghost var ts := GroupThreads(s, o);
    GroupsReady(s, o);
    FollowersDistinct(ts, s.waitsFor, c, threads);
    threw, rs := false, [];
    for i := 0 to |c|
      invariant |rs| == i && forall k :: 0 <= k < i ==> Resolves(s, o, c, threads, rs[k], k)
      invariant forall k :: 0 <= k < i ==> ExtractTid(threads[k]) != None
    {
      assert Follows(ts, s.waitsFor, c, threads, i);
      assert ThreadSets(groups)[c[i]] == ts[c[i]];
      var group := groups[c[i]];
      assert threads[i] in group.threads;
      var victim := SelectVictim(group, threads);
      match ExtractTid(victim)
      case None => return true, rs;
      case Some(tid) => rs := rs + [GroupResolution(group, victim, tid)];
    }
  }

  method DetectGroupDeadlock(gs: GlobalState, o: Order) returns (threw: bool, info: GroupDeadlockInfo)
    requires OrderOf(o, gs.View())
    ensures !threw ==> (|info.groupCycle| >= 2 <==> Cyclic(GroupGraph(gs.View(), o)))
    ensures !threw ==> info == NO_GROUP_DEADLOCK || GoodGroupReport(gs.View(), o, info)
    ensures threw ==> Cyclic(GroupGraph(gs.View(), o))
    ensures threw ==> exists t :: Grouped(GroupThreads(gs.View(), o), t) && ExtractTid(t) == None
  {
    var groupCycle := FindGroupCycles(gs, o);
    if |groupCycle| < 2 {
      return false, NO_GROUP_DEADLOCK;
    }
    ghost var s := gs.View();
    ghost var ts, q := GroupThreads(s, o), GroupGraph(s, o);
    QuotientIs(ts, s.waitsFor);
    GroupCycleLength(q, ts, s.waitsFor, groupCycle);
    var threadCycle, _ := ExpandGroupCycleToThreads(gs, o, groupCycle, q);
    var groups := AnalyzeConflictGroups(gs, o);
    var locks := InvolvedLocks(gs.View(), o, groups, groupCycle);
    var rs;
    threw, rs := SelectVictims(gs.View(), o, groups, groupCycle, threadCycle);
    info := GroupDeadlockInfo(groupCycle, threadCycle, locks, rs);
    GroupsReady(s, o);
    FollowersDistinct(ts, s.waitsFor, groupCycle, threadCycle);
    if threw {
      var i :| 0 <= i < |groupCycle| && ExtractTid(threadCycle[i]) == None;
      assert Follows(ts, s.waitsFor, groupCycle, threadCycle, i);
      assert Grouped(ts, threadCycle[i]);
    }
  }
}
