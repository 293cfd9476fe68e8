/** The thread-level cycle detector: `dfs_deadlock` and the root loop around it. */
module ThreadSearch {
  import opened Graphs
  import opened State

  function Reverse<T>(s: seq<T>): seq<T> {
    if s == [] then [] else Reverse(s[1..]) + [s[0]]
  }

  lemma {:induction false} ReverseAppend<T>(s: seq<T>, x: T)
    ensures Reverse(s + [x]) == [x] + Reverse(s)
  {
    if s != [] {
      ReverseAppend(s[1..], x);
      assert (s + [x])[1..] == s[1..] + [x];
    }
  }

  lemma {:induction false} ReverseTwice<T>(s: seq<T>)
    ensures Reverse(Reverse(s)) == s
  {
    if s != [] {
      ReverseTwice(s[1..]);
      ReverseAppend(Reverse(s[1..]), s[0]);
    }
  }

  /** All entries of a report but the last: the threads it leaves on the search stack. */
  function Head<T>(r: seq<T>): seq<T>
    requires |r| >= 1
  {
    r[..|r| - 1]
  }

  /** What a successful search from `root` appends to `cycle`, in walking order: a walk along wait
      edges whose threads before the last were unvisited, are pairwise different and now stay on
      the stack, and whose last thread is on the stack. */
  ghost predicate IsReport(g: WaitGraph, root: Thread, r: seq<Thread>,
                           visited0: set<Thread>, stack0: set<Thread>, stack: set<Thread>)
  {
    && |r| >= 2 && r[0] == root
    && IsWalk(g, r)
    && Distinct(Head(r))
    && Elems(Head(r)) !! visited0
    && stack == stack0 + Elems(Head(r))
    && r[|r| - 1] in stack
  }

  lemma PrependReport(g: WaitGraph, t: Thread, n: Thread, r: seq<Thread>,
                      visited0: set<Thread>, stack0: set<Thread>, visited: set<Thread>, stack: set<Thread>)
    requires IsReport(g, n, r, visited, stack0 + {t}, stack)
    requires n in Succ(g, t) && visited0 <= visited && t !in visited0 && t in visited
    ensures IsReport(g, t, [t] + r, visited0, stack0, stack)
    ensures Reverse([t] + r) == Reverse(r) + [t]
  {
    assert ([t] + r)[1..] == r;
    PrependWalk(g, t, r);
    assert Head([t] + r) == [t] + Head(r);
    assert Elems([t] + Head(r)) == {t} + Elems(Head(r));
    assert forall i :: 0 <= i < |Head(r)| ==> Head(r)[i] in Elems(Head(r));
  }

  /** The report of a thread that finds one of its targets on the stack. */
  lemma DirectReport(g: WaitGraph, t: Thread, n: Thread, visited0: set<Thread>, stack0: set<Thread>)
    requires n in Succ(g, t) && n in stack0 + {t} && t !in visited0
    ensures IsReport(g, t, [t, n], visited0, stack0, stack0 + {t})
    ensures Reverse([t, n]) == [n, t]
  {
    var r := [t, n];
    assert Head(r) == [t];
    assert r[1..] == [n] && Reverse([n]) == [n];
  }

  /** Each thread but the last is followed by the first of its targets. */
  ghost predicate Leads(targets: map<Thread, seq<Thread>>, r: seq<Thread>) {
    forall i :: 0 <= i < |r| - 1 ==> FirstTarget(targets, r[i], r[i + 1])
  }

  ghost predicate FirstTarget(targets: map<Thread, seq<Thread>>, t: Thread, u: Thread) {
    t in targets && targets[t] != [] && targets[t][0] == u
  }

  /** A report that the search from `root` runs straight into. */
  ghost predicate Straight(g: WaitGraph, targets: map<Thread, seq<Thread>>, root: Thread, r: seq<Thread>,
                           visited0: set<Thread>, stack0: set<Thread>)
    requires |r| >= 1
  {
    IsReport(g, root, r, visited0, stack0, stack0 + Elems(Head(r))) && Leads(targets, r)
  }

  /** The first step of such a report, and the rest of it. */
  lemma StraightStep(g: WaitGraph, targets: map<Thread, seq<Thread>>, t: Thread, r: seq<Thread>, visited0: set<Thread>, stack0: set<Thread>)
    requires |r| >= 1 && Straight(g, targets, t, r, visited0, stack0) && stack0 <= visited0
    ensures |r| >= 2 && FirstTarget(targets, t, r[1])
    ensures r[1] in stack0 + {t} ==> r == [t, r[1]]
    ensures r[1] !in stack0 + {t} ==>
      r[1] !in visited0 + {t} && Straight(g, targets, r[1], r[1..], visited0 + {t}, stack0 + {t})
      && Elems(Head(r)) == {t} + Elems(Head(r[1..]))
  {
    if |r| > 2 {
      HeadOfRest(r);
      assert r[1..|r|] == r[1..];
      SliceWalk(g, r, 1, |r|);
      LeadsOn(targets, r);
      assert stack0 + Elems(Head(r)) == stack0 + {t} + Elems(Head(r[1..]));
    } else {
      assert r == [t, r[1]] && Head(r) == [t];
      assert Elems([t]) == {t};
    }
  }

  lemma LeadsOn(targets: map<Thread, seq<Thread>>, r: seq<Thread>)
    requires |r| >= 1 && Leads(targets, r)
    ensures Leads(targets, r[1..])
  {
    var rest := r[1..];
    forall i | 0 <= i < |rest| - 1 ensures FirstTarget(targets, rest[i], rest[i + 1]) {
      assert rest[i] == r[i + 1] && rest[i + 1] == r[i + 1 + 1];
    }
  }

  lemma HeadOfRest(r: seq<Thread>)
    requires |r| > 2 && Distinct(Head(r))
    ensures Distinct(Head(r[1..])) && Elems(Head(r)) == {r[0]} + Elems(Head(r[1..]))
    ensures r[0] !in Elems(Head(r[1..])) && r[1] in Elems(Head(r[1..]))
  {
    var h, rest := Head(r), Head(r[1..]);
    assert h == [r[0]] + rest;
    assert forall i :: 0 <= i < |rest| ==> rest[i] == h[i + 1];
    assert rest[0] == r[1];
    assert h[0] == r[0];
  }

  /** If the search from `t` can run straight into a report, this is what it found. */
  ghost predicate StraightIs(g: WaitGraph, targets: map<Thread, seq<Thread>>, t: Thread, visited0: set<Thread>, stack0: set<Thread>,
                             found: bool, report: seq<Thread>, visited: set<Thread>)
  {
    forall r :: |r| >= 1 && Straight(g, targets, t, r, visited0, stack0) ==>
      found && report == r && visited == visited0 + Elems(Head(r))
  }

  /** The i-th target is on the stack. */
  lemma StraightAtOnce(g: WaitGraph, targets: map<Thread, seq<Thread>>, t: Thread, i: nat, visited0: set<Thread>, stack0: set<Thread>, visited: set<Thread>)
    requires t in targets && i < |targets[t]| && targets[t][i] in stack0 + {t} && stack0 <= visited0
    requires if i == 0 then visited == visited0 + {t} else StraightIs(g, targets, t, visited0, stack0, false, [], {})
    ensures StraightIs(g, targets, t, visited0, stack0, true, [t, targets[t][i]], visited)
  {
    var n := targets[t][i];
    forall r | |r| >= 1 && Straight(g, targets, t, r, visited0, stack0) ensures r == [t, n] && Elems(Head(r)) == {t} && i == 0 {
      StraightStep(g, targets, t, r, visited0, stack0);
      assert Head([t, n]) == [t];
    }
  }

  /** The i-th target is not, and searching from it found nothing or `report`. */
  lemma StraightDeeper(g: WaitGraph, targets: map<Thread, seq<Thread>>, t: Thread, i: nat, visited0: set<Thread>, stack0: set<Thread>,
                       found: bool, report: seq<Thread>, visited: set<Thread>)
    requires t in targets && i < |targets[t]| && targets[t][i] !in stack0 + {t} && stack0 <= visited0
    requires i > 0 ==> StraightIs(g, targets, t, visited0, stack0, false, [], {})
    requires var n := targets[t][i];
      i == 0 && n !in visited0 + {t} ==> StraightIs(g, targets, n, visited0 + {t}, stack0 + {t}, found, report, visited)
    ensures StraightIs(g, targets, t, visited0, stack0, found, [t] + report, visited)
    ensures !found ==> StraightIs(g, targets, t, visited0, stack0, false, [], {})
  {
    forall r | |r| >= 1 && Straight(g, targets, t, r, visited0, stack0)
      ensures found && [t] + report == r && visited == visited0 + Elems(Head(r))
    {
      StraightStep(g, targets, t, r, visited0, stack0);
      assert r == [t] + r[1..];
    }
  }

  /** Without a find there was nothing to run straight into, whatever else is said of it. */
  lemma NoneIsAny(g: WaitGraph, targets: map<Thread, seq<Thread>>, t: Thread, visited0: set<Thread>, stack0: set<Thread>,
                  found: bool, report: seq<Thread>, visited: set<Thread>)
    requires exists r, v :: StraightIs(g, targets, t, visited0, stack0, false, r, v)
    ensures StraightIs(g, targets, t, visited0, stack0, found, report, visited)
  {}

  lemma VisitedIsNotStraight(g: WaitGraph, targets: map<Thread, seq<Thread>>, t: Thread, visited0: set<Thread>, stack0: set<Thread>, report: seq<Thread>)
    requires t in visited0
    ensures StraightIs(g, targets, t, visited0, stack0, false, report, visited0)
  {
    forall r | |r| >= 1 ensures !Straight(g, targets, t, r, visited0, stack0) {
      assert |r| >= 2 && r[0] == t ==> Head(r)[0] == t && t in Elems(Head(r));
    }
  }

  lemma NothingStraight(g: WaitGraph, targets: map<Thread, seq<Thread>>, t: Thread, visited0: set<Thread>, stack0: set<Thread>)
    requires t !in g || (t in targets && targets[t] == [])
    ensures StraightIs(g, targets, t, visited0, stack0, false, [], {})
  {
    forall r | |r| >= 1 ensures !Straight(g, targets, t, r, visited0, stack0) {
      assert |r| >= 2 && IsWalk(g, r) ==> r[0 + 1] in Succ(g, r[0]);
    }
  }

  /** What a search leaves behind: the threads it visited, those still on its stack, and the others in
      the order in which it finished them. */
  datatype Marks = Marks(visited: set<Thread>, stack: set<Thread>, finished: seq<Thread>)

  /** Visited threads are on the stack or finished, and finished ones only wait for threads that
      finished before them. */
  ghost predicate SettledWith(g: WaitGraph, m: Marks) {
    m.stack <= m.visited && Elems(m.finished) == m.visited - m.stack && Topological(g, m.finished)
  }

  lemma TargetIsVertex(g: WaitGraph, targets: map<Thread, seq<Thread>>, t: Thread, i: nat)
    requires ListsTargets(targets, g) && t in g && i < |targets[t]|
    ensures targets[t][i] in Succ(g, t) && targets[t][i] in Vertices(g)
  {
    InElems(targets[t], targets[t][i]);
  }

  lemma Enter(g: WaitGraph, m: Marks, t: Thread)
    requires SettledWith(g, m) && t !in m.visited
    ensures SettledWith(g, Marks(m.visited + {t}, m.stack + {t}, m.finished)) && m.stack <= m.visited
  {
    assert (m.visited + {t}) - (m.stack + {t}) == m.visited - m.stack;
  }

  lemma Finish(g: WaitGraph, m: Marks, t: Thread)
    requires SettledWith(g, m) && t in m.stack && Succ(g, t) <= m.visited - m.stack
    ensures SettledWith(g, Marks(m.visited, m.stack - {t}, m.finished + [t]))
  {
    InElems(m.finished, t);
    assert forall y :: y in Succ(g, t) ==> y in Elems(m.finished);
    TopologicalAppend(g, m.finished, t);
    assert Elems(m.finished + [t]) == Elems(m.finished) + {t};
  }

  /** The three containers `dfs_deadlock` receives by reference, plus the order in which it
      finishes threads. */
  class Search {
    var visited: set<Thread>
    var stack: set<Thread>
    var cycle: seq<Thread>
    ghost var finished: seq<Thread>

    constructor ()
      ensures visited == {} && stack == {} && cycle == [] && finished == []
    {
      visited, stack, cycle, finished := {}, {}, [], [];
    }

    ghost function Left(): Marks
      reads this
    {
      Marks(visited, stack, finished)
    }

    ghost predicate Settled(g: WaitGraph)
      reads this
    {
      SettledWith(g, Left())
    }

    /** `dfs_deadlock`, which tries the targets of a thread in the order of its set.  On failure the
        stack is as before; on success it is not popped.  A report that starts with first targets
        all the way is the one it finds. */
    method DfsDeadlock(waitsFor: WaitGraph, targets: map<Thread, seq<Thread>>, thread: Thread)
      returns (found: bool, ghost report: seq<Thread>)
      requires Settled(waitsFor) && ListsTargets(targets, waitsFor)
      requires thread in Vertices(waitsFor) && thread !in visited
      modifies this
      ensures Settled(waitsFor)
      ensures old(visited) + {thread} <= visited <= old(visited) + Vertices(waitsFor)
      ensures !found ==> stack == old(stack) && cycle == old(cycle)
      ensures found ==> IsReport(waitsFor, thread, report, old(visited), old(stack), stack)
      ensures found ==> cycle == old(cycle) + Reverse(report)
      ensures StraightIs(waitsFor, targets, thread, old(visited), old(stack), found, report, visited)
      decreases Vertices(waitsFor) - visited
    {
      hide StraightIs, IsReport, SettledWith, Reverse, Vertices;
      Enter(waitsFor, Left(), thread);
      visited := visited + {thread};
      stack := stack + {thread};
      report := [];

      var todo := if thread in waitsFor then targets[thread] else [];
      if todo == [] {
        NothingStraight(waitsFor, targets, thread, old(visited), old(stack));
      }
      for i := 0 to |todo|
        invariant Settled(waitsFor)
        invariant old(visited) + {thread} <= visited <= old(visited) + Vertices(waitsFor)
        invariant stack == old(stack) + {thread} && cycle == old(cycle)
        invariant forall j :: 0 <= j < i ==> todo[j] in visited - stack
        invariant i == 0 ==> visited == old(visited) + {thread}
        invariant i > 0 || todo == [] ==> StraightIs(waitsFor, targets, thread, old(visited), old(stack), false, [], {})
      {
        var neighbor := todo[i];
        TargetIsVertex(waitsFor, targets, thread, i);
        if neighbor in stack {
          cycle := cycle + [neighbor];
          cycle := cycle + [thread];
          report := [thread, neighbor];
          DirectReport(waitsFor, thread, neighbor, old(visited), old(stack));
          StraightAtOnce(waitsFor, targets, thread, i, old(visited), old(stack), visited);
          return true, report;
        }
        if neighbor !in visited {
          ghost var visited1 := visited;
          found, report := DfsDeadlock(waitsFor, targets, neighbor);
          if found {
            cycle := cycle + [thread];
            PrependReport(waitsFor, thread, neighbor, report, old(visited), old(stack), visited1, stack);
            StraightDeeper(waitsFor, targets, thread, i, old(visited), old(stack), true, report, visited);
            report := [thread] + report;
            return true, report;
          }
        }
        StraightDeeper(waitsFor, targets, thread, i, old(visited), old(stack), false, report, visited);
      }

      assert Succ(waitsFor, thread) <= visited - stack by {
        if thread in waitsFor {
          assert Elems(todo) == waitsFor[thread];
        }
      }
      Finish(waitsFor, Left(), thread);
      stack := stack - {thread};
      finished := finished + [thread];
      found := false;
      NoneIsAny(waitsFor, targets, thread, old(visited), old(stack), false, report, visited);
    }

    /** One turn of the root loop up to the point where the report is complete: `visited` and
        `stack` are shared by all roots, only `cycle` is cleared. */
    method TryRoot(waitsFor: WaitGraph, targets: map<Thread, seq<Thread>>, root: Thread) returns (found: bool)
      requires Settled(waitsFor) && ListsTargets(targets, waitsFor) && root in Vertices(waitsFor)
      modifies this
      ensures Settled(waitsFor)
      ensures old(visited) + {root} <= visited <= old(visited) + Vertices(waitsFor)
      ensures !found ==> stack == old(stack)
      ensures found ==> IsReport(waitsFor, root, cycle, old(visited), old(stack), stack)
      ensures StraightIs(waitsFor, targets, root, old(visited), old(stack), found, cycle, visited)
    {
      found := false;
      if root !in visited {
        cycle := [];
        ghost var report;
        found, report := DfsDeadlock(waitsFor, targets, root);
        if found {
          assert cycle == Reverse(report);
          cycle := Reverse(cycle);
          ReverseTwice(report);
        }
      } else {
        VisitedIsNotStraight(waitsFor, targets, root, visited, stack, cycle);
      }
    }
  }

  // ---------------------------------------------------------------- the root loop on a fixed graph

  ghost function Doomed(g: WaitGraph): set<Thread> {
    set x | x in g && CanReachCycle(g, x)
  }

  ghost function Covered(reports: seq<seq<Thread>>): set<Thread>
    requires forall k :: 0 <= k < |reports| ==> |reports[k]| >= 1
  {
    set k, x | 0 <= k < |reports| && x in Head(reports[k]) :: x
  }

  /** The k-th report is a walk whose threads before the last are pairwise different, appear in no
      earlier report's head, and whose last thread repeats one of them or lies in the head of an
      earlier report. */
  ghost predicate GoodReport(g: WaitGraph, reports: seq<seq<Thread>>, k: int)
    requires 0 <= k < |reports|
    requires forall i :: 0 <= i < |reports| ==> |reports[i]| >= 2
  {
    var r := reports[k];
    && IsWalk(g, r)
    && Distinct(Head(r))
    && (forall j, x :: 0 <= j < k && x in Head(reports[j]) ==> x !in Head(r))
    && (exists j :: 0 <= j <= k && r[|r| - 1] in Head(reports[j]))
  }

  ghost predicate GoodReports(g: WaitGraph, reports: seq<seq<Thread>>) {
    && (forall i :: 0 <= i < |reports| ==> |reports[i]| >= 2)
    && (forall k :: 0 <= k < |reports| ==> GoodReport(g, reports, k))
  }

  lemma AppendReport(g: WaitGraph, reports: seq<seq<Thread>>, root: Thread, r: seq<Thread>,
                     visited0: set<Thread>, stack0: set<Thread>, stack: set<Thread>)
    requires GoodReports(g, reports) && Covered(reports) == stack0 <= visited0
    requires IsReport(g, root, r, visited0, stack0, stack)
    ensures GoodReports(g, reports + [r]) && Covered(reports + [r]) == stack
  {
    var rs := reports + [r];
    var n := |reports|;
    assert forall k :: 0 <= k < n ==> rs[k] == reports[k];
    forall k | 0 <= k < n ensures GoodReport(g, rs, k) {
      assert GoodReport(g, reports, k);
    }
    assert rs[n] == r;
    assert forall k, x :: 0 <= k < n && x in Head(rs[k]) ==> x in Covered(reports);
    forall x ensures x in Covered(rs) <==> x in stack {
      if x in Covered(rs) {
        var k :| 0 <= k < |rs| && x in Head(rs[k]);
        assert k < n || x in Elems(Head(r));
      } else {
        assert x !in Elems(Head(rs[n]));
      }
    }
    assert r[|r| - 1] in Covered(rs);
    assert GoodReport(g, rs, n) by {
      assert forall x :: x in Head(r) ==> x in Elems(Head(r));
    }
  }

  lemma SelfFeedingGrows(g: WaitGraph, root: Thread, r: seq<Thread>,
                         visited0: set<Thread>, stack0: set<Thread>, stack: set<Thread>)
    requires SelfFeeding(g, stack0) && IsReport(g, root, r, visited0, stack0, stack)
    ensures SelfFeeding(g, stack)
  {
    forall x | x in stack ensures Succ(g, x) * stack != {} {
      if x in stack0 {
        var y :| y in Succ(g, x) * stack0;
        assert y in Succ(g, x) * stack;
      } else {
        assert x in Elems(Head(r));
        var i :| 0 <= i < |r| - 1 && Head(r)[i] == x;
        assert r[i + 1] in Succ(g, x);
        assert i + 1 < |r| - 1 ==> r[i + 1] == Head(r)[i + 1] && r[i + 1] in Elems(Head(r));
        assert r[i + 1] in Succ(g, x) * stack;
      }
    }
  }

  /** Where the last thread of a report repeats an earlier one, the slice between them is a simple wait
      cycle. */
  lemma ClosingSlice(g: WaitGraph, r: seq<Thread>, i: nat)
    requires |r| >= 2 && IsWalk(g, r) && Distinct(Head(r)) && i < |r| - 1 && r[i] == r[|r| - 1]
    ensures SimpleCycle(g, r[i..|r| - 1])
  {
    SliceWalk(g, r, i, |r| - 1);
    var c := r[i..|r| - 1];
    forall a, b | 0 <= a < b < |c| ensures c[a] != c[b] {
      assert Head(r)[i + a] == c[a] && Head(r)[i + b] == c[b];
    }
    assert c[|c| - 1] == r[|r| - 2] && c[0] == r[|r| - 1];
    assert r[|r| - 2 + 1] in Succ(g, r[|r| - 2]);
  }

  /** Only the first report is sure to contain a cycle. */
  lemma FirstReportHoldsCycle(g: WaitGraph, reports: seq<seq<Thread>>) returns (i: nat)
    requires GoodReports(g, reports) && reports != []
    ensures i < |reports[0]| - 1 && reports[0][i] == reports[0][|reports[0]| - 1]
    ensures SimpleCycle(g, reports[0][i..|reports[0]| - 1])
  {
    assert GoodReport(g, reports, 0);
    var r := reports[0];
    i :| 0 <= i < |r| - 1 && Head(r)[i] == r[|r| - 1];
    ClosingSlice(g, r, i);
  }

  /** The last thread of a report is always in some head, so the heads hold every listed thread,
      and each listed thread is in the head of exactly one report. */
  lemma ListedExactlyOnce(g: WaitGraph, reports: seq<seq<Thread>>, k: nat, x: Thread) returns (j: nat)
    requires GoodReports(g, reports)
    requires k < |reports| && x in reports[k]
    ensures j < |reports| && x in Head(reports[j])
    ensures forall i :: 0 <= i < |reports| && x in Head(reports[i]) ==> i == j
  {
    var r := reports[k];
    assert GoodReport(g, reports, k);
    if x in Head(r) {
      j := k;
    } else {
      assert r == Head(r) + [r[|r| - 1]];
      j :| 0 <= j <= k && r[|r| - 1] in Head(reports[j]);
    }
    forall i | 0 <= i < |reports| && x in Head(reports[i]) ensures i == j {
      assert GoodReport(g, reports, i) && GoodReport(g, reports, j);
    }
  }

  /** Reports never accuse a thread that could still run, whichever scan they come from. */
  lemma ReportedAreDoomed(g: WaitGraph, reports: seq<seq<Thread>>, k: nat, x: Thread)
    requires GoodReports(g, reports)
    requires k < |reports| && x in reports[k]
    ensures CanReachCycle(g, x)
  {
    var all := Covered(reports);
    forall t | t in all ensures Succ(g, t) * all != {} {
      var m :| 0 <= m < |reports| && t in Head(reports[m]);
      var r := reports[m];
      assert GoodReport(g, reports, m);
      var i :| 0 <= i < |r| - 1 && Head(r)[i] == t;
      var j := ListedExactlyOnce(g, reports, m, r[i + 1]);
      assert r[i + 1] in Covered(reports);
      assert r[i + 1] in Succ(g, t) * all;
    }
    var j := ListedExactlyOnce(g, reports, k, x);
    assert x in Covered(reports);
    SelfFeedingDoomed(g, all, x);
  }

  /** The root loop of `detect_and_resolve_deadlocks` on a graph that stays as it is: the stack it
      never clears ends up as exactly the threads that can reach a wait cycle. */
  method Scan(waitsFor: WaitGraph, targets: map<Thread, seq<Thread>>) returns (reports: seq<seq<Thread>>, search: Search)
    requires ListsTargets(targets, waitsFor)
    ensures fresh(search) && search.Settled(waitsFor) && waitsFor.Keys <= search.visited
    ensures search.stack == Doomed(waitsFor)
    ensures GoodReports(waitsFor, reports) && Covered(reports) == search.stack
    ensures reports == [] <==> !Cyclic(waitsFor)
  {
    hide StraightIs, IsReport, ListsTargets;
    search := new Search();
    reports := [];
    var todo := waitsFor.Keys;
    while todo != {}
      invariant fresh(search) && search.Settled(waitsFor)
      invariant todo <= waitsFor.Keys && waitsFor.Keys - todo <= search.visited
      invariant SelfFeeding(waitsFor, search.stack)
      invariant GoodReports(waitsFor, reports) && Covered(reports) == search.stack
      decreases todo
    {
      var threadName :| threadName in todo;
      ghost var visited0, stack0 := search.visited, search.stack;
      var found := search.TryRoot(waitsFor, targets, threadName);
      if found {
        AppendReport(waitsFor, reports, threadName, search.cycle, visited0, stack0, search.stack);
        SelfFeedingGrows(waitsFor, threadName, search.cycle, visited0, stack0, search.stack);
        reports := reports + [search.cycle];
      }
      todo := todo - {threadName};
    }
    CertificateDecides(waitsFor, search.stack, search.finished);
    if reports != [] {
      assert reports[0][0] in Head(reports[0]);
      assert reports[0][0] in Covered(reports);
    }
  }

  // ---------------------------------------------------------------- reports laid out in advance

  /** The roots start with those of the reports, and each report starts with first targets all the
      way; together the heads are all doomed threads. */
  ghost predicate Laid(g: WaitGraph, roots: seq<Thread>, targets: map<Thread, seq<Thread>>, rs: seq<seq<Thread>>) {
    && GoodReports(g, rs) && Covered(rs) == Doomed(g) && |rs| <= |roots|
    && forall k :: 0 <= k < |rs| ==> roots[k] == rs[k][0] && Leads(targets, rs[k])
  }

  /** What the root loop has found and visited before the k-th root if reports are laid out for it. */
  ghost predicate OnPlan(rs: seq<seq<Thread>>, k: nat, found: seq<seq<Thread>>, m: Marks)
    requires forall i :: 0 <= i < |rs| ==> |rs[i]| >= 1
  {
    if k <= |rs| then found == rs[..k] && m.visited == m.stack == Covered(rs[..k]) else found == rs
  }

  lemma CoveredStep(rs: seq<seq<Thread>>, k: nat)
    requires (forall i :: 0 <= i < |rs| ==> |rs[i]| >= 1) && k < |rs|
    ensures Covered(rs[..k + 1]) == Covered(rs[..k]) + Elems(Head(rs[k]))
  {
    forall x ensures x in Covered(rs[..k + 1]) <==> x in Covered(rs[..k]) + Elems(Head(rs[k])) {
      if x in Covered(rs[..k + 1]) {
        var i :| 0 <= i < k + 1 && x in Head(rs[..k + 1][i]);
        assert i < k ==> rs[..k][i] == rs[i];
      } else {
        assert rs[..k + 1][k] == rs[k];
        assert forall i :: 0 <= i < k ==> rs[..k][i] == rs[..k + 1][i];
      }
    }
  }

  /** The k-th report lies straight ahead of the k-th root. */
  lemma AheadIsStraight(g: WaitGraph, roots: seq<Thread>, targets: map<Thread, seq<Thread>>, rs: seq<seq<Thread>>, k: nat)
    requires Laid(g, roots, targets, rs) && k < |rs|
    ensures Straight(g, targets, roots[k], rs[k], Covered(rs[..k]), Covered(rs[..k]))
    ensures Covered(rs[..k]) + Elems(Head(rs[k])) == Covered(rs[..k + 1])
  {
    var r := rs[k];
    assert GoodReport(g, rs, k);
    CoveredStep(rs, k);
    forall x | x in Elems(Head(r)) ensures x !in Covered(rs[..k]) {
      assert x in Head(r);
      assert forall j :: 0 <= j < k ==> rs[..k][j] == rs[j];
    }
    var j :| 0 <= j <= k && r[|r| - 1] in Head(rs[j]);
    assert rs[..k + 1][j] == rs[j];
    assert r[|r| - 1] in Covered(rs[..k + 1]);
  }

  /** Where one more report can be found, the heads so far are not all doomed threads. */
  lemma NothingBeyond(g: WaitGraph, rs: seq<seq<Thread>>, r: seq<Thread>)
    requires GoodReports(g, rs) && GoodReports(g, rs + [r])
    ensures Covered(rs) != Doomed(g)
  {
    var all, n := rs + [r], |rs|;
    assert all[n] == r && GoodReport(g, all, n);
    ReportedAreDoomed(g, all, n, r[0]);
    DoomedMakesCyclic(g, r[0]);
    assert Head(r)[0] == r[0] && r[0] in Head(r);
    assert forall k :: 0 <= k < n ==> all[k] == rs[k];
    assert r[0] !in Covered(rs) && r[0] in Doomed(g);
  }
}
