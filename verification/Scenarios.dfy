/** The bounded heuristic `find_potential_deadlock_scenarios`. */
module Scenarios {
  import opened Graphs
  import opened State
  import opened ThreadSearch
  import opened Latency

  /** What the nested loops list: closed chains of two or three wait edges. */
  predicate Listed(g: WaitGraph, sc: seq<Thread>) {
    || (|sc| == 2 && sc[1] in Succ(g, sc[0]) && sc[0] in Succ(g, sc[1]))
    || (|sc| == 3 && sc[1] in Succ(g, sc[0]) && sc[2] in Succ(g, sc[1]) && sc[0] in Succ(g, sc[2]) && sc[2] != sc[0])
  }

  /** The listed chains that start with `t1` and go on to a member of `t2s`. */
  ghost predicate From(g: WaitGraph, sc: seq<Thread>, t1: Thread, t2s: set<Thread>) {
    Listed(g, sc) && sc[0] == t1 && sc[1] in t2s
  }

  /** The listed chains that start with `t1`, `t2` and then close, or go on to close, through `t3s`. */
  ghost predicate FromVia(g: WaitGraph, sc: seq<Thread>, t1: Thread, t2: Thread, t3s: set<Thread>) {
    Listed(g, sc) && sc[0] == t1 && sc[1] == t2 && (if |sc| == 2 then t1 in t3s else sc[2] in t3s)
  }

  /** The innermost loop, over the targets of the third thread. */
  method CloseTriples(waits: set<Thread>, t1: Thread, t2: Thread, t3: Thread, before: seq<seq<Thread>>)
    returns (scenarios: seq<seq<Thread>>)
    ensures scenarios == before + if t1 in waits then [[t1, t2, t3]] else []
  {
    scenarios := before;
    var todo := waits;
    while todo != {}
      invariant todo <= waits
      invariant scenarios == before + if t1 in waits - todo then [[t1, t2, t3]] else []
      decreases todo
    {
      var target3 :| target3 in todo;
      if target3 == t1 {
        scenarios := scenarios + [[t1, t2, t3]];
      }
      todo := todo - {target3};
    }
  }

  lemma AppendDistinct(s: seq<seq<Thread>>, x: seq<Thread>)
    requires Distinct(s) && x !in s
    ensures Distinct(s + [x])
  {}

  /** The loop over the targets of the second thread. */
  method CloseChains(g: WaitGraph, t1: Thread, t2: Thread, before: seq<seq<Thread>>) returns (scenarios: seq<seq<Thread>>)
    requires t2 in Succ(g, t1) && Distinct(before)
    requires forall sc :: sc in before ==> !FromVia(g, sc, t1, t2, Succ(g, t2))
    ensures Distinct(scenarios)
    ensures forall sc :: sc in scenarios <==> sc in before || FromVia(g, sc, t1, t2, Succ(g, t2))
  {
    scenarios := before;
    var todo := Succ(g, t2);
    while todo != {}
      invariant todo <= Succ(g, t2) && Distinct(scenarios)
      invariant forall sc :: sc in scenarios <==> sc in before || FromVia(g, sc, t1, t2, Succ(g, t2) - todo)
      decreases todo
    {
      var t3 :| t3 in todo;
      if t3 == t1 {
        assert FromVia(g, [t1, t2], t1, t2, Succ(g, t2));
        AppendDistinct(scenarios, [t1, t2]);
        scenarios := scenarios + [[t1, t2]];
      } else if t3 in g {
        assert t1 in g[t3] ==> FromVia(g, [t1, t2, t3], t1, t2, Succ(g, t2));
        if t1 in g[t3] { AppendDistinct(scenarios, [t1, t2, t3]); }
        scenarios := CloseTriples(g[t3], t1, t2, t3, scenarios);
      }
      NextThird(g, t1, t2, t3, todo);
      todo := todo - {t3};
    }
  }

  lemma NextThird(g: WaitGraph, t1: Thread, t2: Thread, t3: Thread, todo: set<Thread>)
    requires t2 in Succ(g, t1) && t3 in todo && todo <= Succ(g, t2)
    ensures forall sc :: FromVia(g, sc, t1, t2, Succ(g, t2) - (todo - {t3})) <==>
      (FromVia(g, sc, t1, t2, Succ(g, t2) - todo)
       || (t3 == t1 && sc == [t1, t2]) || (t3 != t1 && t1 in Succ(g, t3) && sc == [t1, t2, t3]))
  {}

  lemma ViaAll(g: WaitGraph, t1: Thread, t2: Thread)
    ensures forall sc :: FromVia(g, sc, t1, t2, Succ(g, t2)) <==> From(g, sc, t1, {t2})
  {}

  /** The loop over the targets of the first thread. */
  method ChainsFrom(g: WaitGraph, t1: Thread, before: seq<seq<Thread>>) returns (scenarios: seq<seq<Thread>>)
    requires Distinct(before) && forall sc :: sc in before ==> !From(g, sc, t1, Succ(g, t1))
    ensures Distinct(scenarios)
    ensures forall sc :: sc in scenarios <==> sc in before || From(g, sc, t1, Succ(g, t1))
  {
    scenarios := before;
    var todo := Succ(g, t1);
    while todo != {}
      invariant todo <= Succ(g, t1) && Distinct(scenarios)
      invariant forall sc :: sc in scenarios <==> sc in before || From(g, sc, t1, Succ(g, t1) - todo)
      decreases todo
    {
      var t2 :| t2 in todo;
      ViaAll(g, t1, t2);
      if t2 in g {
        scenarios := CloseChains(g, t1, t2, scenarios);
      }
      todo := todo - {t2};
    }
  }

  /** `find_potential_deadlock_scenarios` lists every closed chain exactly once and nothing else. */
  method FindPotentialDeadlockScenarios(g: WaitGraph) returns (scenarios: seq<seq<Thread>>)
    ensures Distinct(scenarios)
    ensures forall sc :: sc in scenarios <==> Listed(g, sc)
  {
    scenarios := [];
    var todo := g.Keys;
    while todo != {}
      invariant todo <= g.Keys && Distinct(scenarios)
      invariant forall sc :: sc in scenarios <==> Listed(g, sc) && sc[0] !in todo
      decreases todo
    {
      var t1 :| t1 in todo;
      scenarios := ChainsFrom(g, t1, scenarios);
      todo := todo - {t1};
    }
  }

  /** In every run, clean-ups included, the listed chains are exactly the simple wait cycles of two or
      three threads, each in every rotation. */
  lemma ListedAreShortCycles(acts: seq<Action>, n: nat, sc: seq<Thread>)
    requires n <= |acts|
    ensures Listed(After(acts, n).waitsFor, sc) <==> 2 <= |sc| <= 3 && SimpleCycle(After(acts, n).waitsFor, sc)
  {
    var g := After(acts, n).waitsFor;
    NeverSelfEdge(acts, n);
    assert forall t :: t !in Succ(g, t);
    hide After;
    if Listed(g, sc) {
      forall i | 0 <= i < |sc| - 1 ensures sc[i + 1] in Succ(g, sc[i]) {
        assert i == 0 || i == 1;
      }
    }
    if 2 <= |sc| <= 3 && SimpleCycle(g, sc) {
      assert sc[0 + 1] in Succ(g, sc[0]);
      if |sc| == 3 { assert sc[1 + 1] in Succ(g, sc[1]); }
    }
  }

  /** The heuristic against the full scan of the same state: it lists something exactly when there
      is a wait cycle of two or three threads, and then the scan reports too. */
  method HeuristicAgainstScan(g: WaitGraph, targets: map<Thread, seq<Thread>>, ghost acts: seq<Action>)
    returns (scenarios: seq<seq<Thread>>, reports: seq<seq<Thread>>)
    requires g == After(acts, |acts|).waitsFor && ListsTargets(targets, g)
    ensures scenarios != [] <==> exists c :: 2 <= |c| <= 3 && SimpleCycle(g, c)
    ensures reports != [] <==> Cyclic(g)
    ensures scenarios != [] ==> reports != []
  {
    scenarios := FindPotentialDeadlockScenarios(g);
    var search;
    reports, search := Scan(g, targets);
    if scenarios != [] {
      assert scenarios[0] in scenarios;
      ListedAreShortCycles(acts, |acts|, scenarios[0]);
      SimpleCycleIsCyclic(g, scenarios[0]);
    }
    if c :| 2 <= |c| <= 3 && SimpleCycle(g, c) {
      ListedAreShortCycles(acts, |acts|, c);
      assert c in scenarios;
    }
  }
}
