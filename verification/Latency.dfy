/** When a wait cycle can appear: over every run, clean-ups included. */
module Latency {
  import opened Graphs
  import opened State
  import opened Monitoring
  import opened Resolution

  datatype Action = Observe(event: Event) | CleanUp(victim: Thread, involved: set<Addr>) | Break(victim: Thread)

  function Act(s: Tables, act: Action): Tables {
    match act
    case Observe(e) => Step(s, e)
    case CleanUp(v, locks) => CleanedUp(s, v, locks)
    case Break(v) => Broken(s, v)
  }

  /** The tables after a run of events and clean-ups. */
  function After(acts: seq<Action>, n: nat): Tables
    requires n <= |acts|
  {
    if n == 0 then EMPTY_TABLES else Act(After(acts, n - 1), acts[n - 1])
  }

  // ---------------------------------------------------------------- removing vertices

  /** A resolver takes the victim off every wait cycle, and what cycles remain were there before. */
  lemma VictimFreed(s: Tables, victim: Thread, involved: set<Addr>)
    ensures CleanedUp(s, victim, involved).waitsFor == Broken(s, victim).waitsFor
    ensures !OnCycle(Broken(s, victim).waitsFor, victim)
    ensures forall x, w :: ClosedWalk(Broken(s, victim).waitsFor, w, x) ==> ClosedWalk(s.waitsFor, w, x) && victim !in w
  {
    var g := Broken(s, victim).waitsFor;
    assert SubGraph(g, s.waitsFor);
    forall x, w | ClosedWalk(g, w, x) ensures ClosedWalk(s.waitsFor, w, x) && victim !in w {
      SubGraphWalk(g, s.waitsFor, w);
      forall i | 0 <= i < |w| ensures w[i] != victim {
        assert i < |w| - 1 ==> w[i + 1] in Succ(g, w[i]);
        assert w[0 + 1] in Succ(g, w[0]);
      }
    }
    forall w ensures !ClosedWalk(g, w, victim) {
      assert |w| >= 1 ==> w[0] in w;
    }
  }

  // ---------------------------------------------------------------- adding one edge

  function WithEdge(g: WaitGraph, t: Thread, u: Thread): WaitGraph {
    g[t := Succ(g, t) + {u}]
  }

  ghost predicate Uses(w: seq<Thread>, t: Thread, u: Thread) {
    exists i, j :: 0 <= i && j == i + 1 && j < |w| && w[i] == t && w[j] == u
  }

  ghost predicate AllCyclesUse(g: WaitGraph, t: Thread, u: Thread) {
    forall x, w :: ClosedWalk(g, w, x) ==> Uses(w, t, u)
  }

  lemma UnusedEdge(g: WaitGraph, t: Thread, u: Thread, w: seq<Thread>)
    requires IsWalk(WithEdge(g, t, u), w) && !Uses(w, t, u)
    ensures IsWalk(g, w)
  {
    forall i | 0 <= i < |w| - 1 ensures w[i + 1] in Succ(g, w[i]) {
      assert w[i + 1] in Succ(WithEdge(g, t, u), w[i]);
    }
  }

  /** A walk back from `u` to `t` need not take the new edge. */
  lemma {:induction false} WalkBack(g: WaitGraph, t: Thread, u: Thread, w: seq<Thread>)
    requires WalkFromTo(WithEdge(g, t, u), w, u, t)
    ensures Reaches(g, u, t)
    decreases |w|
  {
    if Uses(w, t, u) {
      var i, j :| 0 <= i && j == i + 1 && j < |w| && w[i] == t && w[j] == u;
      SliceWalk(WithEdge(g, t, u), w, j, |w|);
      WalkBack(g, t, u, w[j..|w|]);
    } else {
      UnusedEdge(g, t, u, w);
      assert WalkFromTo(g, w, u, t);
    }
  }

  lemma CycleThroughEdge(g: WaitGraph, t: Thread, u: Thread, w: seq<Thread>, x: Thread)
    requires ClosedWalk(WithEdge(g, t, u), w, x) && Uses(w, t, u)
    ensures Reaches(g, u, t)
  {
    var g' := WithEdge(g, t, u);
    var i, j :| 0 <= i && j == i + 1 && j < |w| && w[i] == t && w[j] == u;
    SliceWalk(g', w, j, |w|);
    SliceWalk(g', w, 0, j);
    var a, b := w[j..|w|], w[0..j];
    JoinWalks(g', a, b, u, x, t);
    WalkBack(g, t, u, a + b[1..]);
  }

  /** A new edge makes an acyclic graph cyclic iff its target already reached its source, and then
      every cycle runs through it. */
  lemma NewEdgeCycles(g: WaitGraph, t: Thread, u: Thread)
    requires !Cyclic(g)
    ensures Cyclic(WithEdge(g, t, u)) <==> Reaches(g, u, t)
    ensures AllCyclesUse(WithEdge(g, t, u), t, u)
  {
    var g' := WithEdge(g, t, u);
    forall x, w | ClosedWalk(g', w, x) ensures Uses(w, t, u) {
      if !Uses(w, t, u) {
        UnusedEdge(g, t, u, w);
        assert ClosedWalk(g, w, x);
        assert OnCycle(g, x);
      }
    }
    if Cyclic(g') {
      var x :| OnCycle(g', x);
      var w :| ClosedWalk(g', w, x);
      CycleThroughEdge(g, t, u, w, x);
    }
    if Reaches(g, u, t) {
      var w :| WalkFromTo(g, w, u, t);
      SubGraphWalk(g, g', w);
      PrependWalk(g', t, w);
      assert ClosedWalk(g', [t] + w, t);
      assert OnCycle(g', t);
    }
  }

  // ---------------------------------------------------------------- runs

  /** The action is a wait by `t` on an address whose recorded owner `u` already reaches `t`. */
  ghost predicate ClosesCycle(s: Tables, act: Action, t: Thread, u: Thread) {
    && act.Observe? && act.event.Wait? && act.event.thread == t && !Junk(act.event.addr)
    && act.event.addr in s.lockOwners && s.lockOwners[act.event.addr] == u && u != t
    && Reaches(s.waitsFor, u, t)
  }

  /** One action: the graph turns cyclic exactly at a wait that closes a cycle. */
  lemma TurnsCyclicIff(s: Tables, act: Action)
    requires !Cyclic(s.waitsFor)
    ensures Cyclic(Act(s, act).waitsFor) <==> exists t, u :: ClosesCycle(s, act, t, u)
    ensures forall t, u :: ClosesCycle(s, act, t, u) ==> AllCyclesUse(Act(s, act).waitsFor, t, u)
  {
    var g, g' := s.waitsFor, Act(s, act).waitsFor;
    if act.Observe? && act.event.Wait? && !Junk(act.event.addr)
       && act.event.addr in s.lockOwners && s.lockOwners[act.event.addr] != act.event.thread {
      var t, u := act.event.thread, s.lockOwners[act.event.addr];
      assert g' == WithEdge(g, t, u);
      NewEdgeCycles(g, t, u);
      assert ClosesCycle(s, act, t, u) <==> Reaches(g, u, t);
    } else {
      assert SubGraph(g', g);
      if Cyclic(g') {
        SubGraphCyclic(g', g);
      }
    }
  }

  lemma EmptyIsAcyclic()
    ensures !Cyclic(EMPTY_TABLES.waitsFor)
  {
    forall x, w ensures !ClosedWalk(EMPTY_TABLES.waitsFor, w, x) {
      assert |w| >= 2 ==> w[0 + 1] !in Succ(EMPTY_TABLES.waitsFor, w[0]);
    }
  }

  /** The k-th action is a wait of `t` for `u` that closes a cycle; before it the graph was acyclic, from
      then on it is cyclic, and at first every cycle uses the new edge. */
  ghost predicate ArisesAt(acts: seq<Action>, n: nat, k: nat, t: Thread, u: Thread)
    requires n <= |acts|
  {
    && k < n && !Cyclic(After(acts, k).waitsFor)
    && (forall m :: k < m <= n ==> Cyclic(After(acts, m).waitsFor))
    && ClosesCycle(After(acts, k), acts[k], t, u)
    && AllCyclesUse(After(acts, k + 1).waitsFor, t, u)
  }

  /** Zero latency: if a run ends in a cyclic graph, there is one action since which every state was
      cyclic and before which the state was not, and it is a wait that closed a cycle.  A scan after
      each event therefore faces the cycle in the very step in which it arises. */
  lemma {:induction false} ZeroLatency(acts: seq<Action>, n: nat) returns (k: nat, t: Thread, u: Thread)
    requires n <= |acts| && Cyclic(After(acts, n).waitsFor)
    ensures ArisesAt(acts, n, k, t, u)
  {
    if n == 0 {
      EmptyIsAcyclic();
      assert false;
    } else if Cyclic(After(acts, n - 1).waitsFor) {
      k, t, u := ZeroLatency(acts, n - 1);
    } else {
      k := n - 1;
      TurnsCyclicIff(After(acts, k), acts[k]);
      t, u :| ClosesCycle(After(acts, k), acts[k], t, u);
    }
  }

  /** No run, with whatever clean-ups, makes a thread wait for itself. */
  lemma {:induction false} NeverSelfEdge(acts: seq<Action>, n: nat)
    requires n <= |acts|
    ensures NoSelfEdges(After(acts, n).waitsFor)
  {
    if n > 0 {
      NeverSelfEdge(acts, n - 1);
    }
  }

  /** Ownership over runs with emergency breaks: whoever owns a lock has it listed. */
  lemma {:induction false} OwnersListedOverRuns(acts: seq<Action>, n: nat)
    requires n <= |acts|
    requires forall i :: 0 <= i < n && acts[i].CleanUp? ==>
      forall a :: a in After(acts, i).lockOwners && After(acts, i).lockOwners[a] == acts[i].victim ==> a in acts[i].involved
    ensures OwnersListed(After(acts, n))
  {
    if n > 0 {
      OwnersListedOverRuns(acts, n - 1);
      var s := After(acts, n - 1);
      match acts[n - 1]
      case Observe(e) => EventKeepsOwners(s, e);
      case CleanUp(v, locks) => CleanUpKeepsOwnersIff(s, v, locks);
      case Break(v) => BreakKeepsOwners(s, v);
    }
  }
}
