/** Why repeated detection calls on a quiet system come to rest. */
module Convergence {
  import opened Graphs
  import opened Identifiers
  import opened State
  import opened ConflictGroups
  import opened Resolution
  import opened Reports
  import opened Quotients
  import opened Silence
  import opened Detection

  ghost predicate QuietRun(ss: seq<Scene>) {
    forall i :: 0 <= i < |ss| - 1 ==> CallEffect(ss[i], ss[i + 1])
  }

  /** The number of calls that reported something. */
  ghost function ReportingCalls(ss: seq<Scene>): nat {
    if |ss| < 2 then 0
    else ReportingCalls(ss[..|ss| - 1]) + if ss[|ss| - 1].counter > ss[|ss| - 2].counter then 1 else 0
  }

  ghost function Potential(s: Scene): nat {
    if s.active then |s.view.waitsFor| + 1 else 0
  }

  lemma FewerKeys(g: WaitGraph, g': WaitGraph)
    requires g'.Keys < g.Keys
    ensures |g'| < |g|
  {
    assert |g.Keys - g'.Keys| > 0 by {
      var x :| x in g.Keys - g'.Keys;
    }
    assert g.Keys == g'.Keys + (g.Keys - g'.Keys);
  }

  lemma EffectLowersPotential(s: Scene, s': Scene)
    requires CallEffect(s, s')
    ensures Potential(s') <= Potential(s)
    ensures !AtRest(s) ==> Potential(s') < Potential(s)
    ensures s'.counter > s.counter ==> Potential(s') < Potential(s)
    ensures s'.counter <= s.counter ==> s' == s
  {
    if s'.view.waitsFor.Keys < s.view.waitsFor.Keys {
      FewerKeys(s.view.waitsFor, s'.view.waitsFor);
    }
  }

  /** Every reporting call costs potential, so at most |waits_for| + 1 calls ever report. */
  lemma {:induction false} ReportsAreBounded(ss: seq<Scene>)
    requires QuietRun(ss) && ss != []
    ensures ReportingCalls(ss) + Potential(ss[|ss| - 1]) <= Potential(ss[0]) <= |ss[0].view.waitsFor| + 1
  {
    if |ss| >= 2 {
      var n := |ss| - 1;
      assert QuietRun(ss[..n]);
      ReportsAreBounded(ss[..n]);
      assert CallEffect(ss[n - 1], ss[n - 1 + 1]);
      EffectLowersPotential(ss[n - 1], ss[n]);
    }
  }

  lemma {:induction false} PotentialFalls(ss: seq<Scene>, n: nat)
    requires QuietRun(ss) && n < |ss| && forall i :: 0 <= i < n ==> !AtRest(ss[i])
    ensures Potential(ss[n]) + n <= Potential(ss[0])
  {
    if n > 0 {
      PotentialFalls(ss, n - 1);
      assert CallEffect(ss[n - 1], ss[n - 1 + 1]);
      EffectLowersPotential(ss[n - 1], ss[n]);
    }
  }

  /** Convergence: within |waits_for| + 1 calls nothing is sure to be reported any more. */
  lemma ComesToRest(ss: seq<Scene>) returns (n: nat)
    requires QuietRun(ss) && ss != [] && |ss| >= |ss[0].view.waitsFor| + 2
    ensures n <= |ss[0].view.waitsFor| + 1 && AtRest(ss[n])
  {
    var bound := |ss[0].view.waitsFor| + 1;
    if forall m :: 0 <= m < bound ==> !AtRest(ss[m]) {
      PotentialFalls(ss, bound);
      n := bound;
    } else {
      n :| n < bound && AtRest(ss[n]);
    }
  }

  // ---------------------------------------------------------------- with defused records

  /** Monitoring is off or there is no wait cycle. */
  ghost predicate Over(s: Scene) {
    !s.active || !Cyclic(s.view.waitsFor)
  }

  /** While all records are defused, being at rest means that there is no wait cycle left. */
  lemma RestIsOver(s: Scene)
    requires AtRest(s) && Defused(s.records, s.view.waitsFor)
    ensures Over(s)
  {
    if Cyclic(s.view.waitsFor) {
      DefusedIsIncomplete(s.records, s.view.waitsFor);
    }
  }

  /** Then a call changes nothing, unless the group detector, which can see cycles that no threads
      form, switches monitoring off. */
  lemma OverIsKept(s: Scene, s': Scene)
    requires CallEffect(s, s') && Over(s)
    ensures Over(s') && (s' == s || (s.active && s' == s.(active := false, counter := s.counter + 1)))
  {}

  lemma {:induction false} StaysOver(ss: seq<Scene>, n: nat, m: nat)
    requires QuietRun(ss) && n <= m < |ss| && Over(ss[n])
    ensures Over(ss[m])
    decreases m - n
  {
    if n < m {
      assert CallEffect(ss[n], ss[n + 1]);
      OverIsKept(ss[n], ss[n + 1]);
      StaysOver(ss, n + 1, m);
    }
  }

  // ---------------------------------------------------------------- the calls

  /** Each call's new reports list a thread that is alive during that call. */
  ghost predicate AllLive(ss: seq<Scene>, worlds: seq<World>) {
    forall i :: 0 <= i < |ss| - 1 && i < |worlds| ==> LiveFrom(ss[i + 1].records, |ss[i].records|, worlds[i])
  }

  /** The records of each scene are defused. */
  ghost predicate AllDefused(ss: seq<Scene>) {
    forall i :: 0 <= i < |ss| ==> Defused(ss[i].records, ss[i].view.waitsFor)
  }

  lemma QuietRunGrows(nameOf: Tid -> string, ss: seq<Scene>, s': Scene, o: Order, worlds: seq<World>)
    requires ss != [] && |ss| <= |worlds| && QuietRun(ss) && AllNamed(nameOf, ss[|ss| - 1].view)
    requires QuietOutcome(Call(nameOf, ss[|ss| - 1], o, worlds[|ss| - 1]), s')
    requires AllLive(ss + [s'], worlds)
    ensures QuietRun(ss + [s']) && AllNamed(nameOf, s'.view)
    ensures AllDefused(ss) ==> AllDefused(ss + [s'])
  {
    var n := |ss| - 1;
    var ss' := ss + [s'];
    assert ss'[n] == ss[n] && ss'[n + 1] == s';
    assert LiveFrom(ss'[n + 1].records, |ss'[n].records|, worlds[n]);
    forall i | 0 <= i < |ss'| - 1 ensures CallEffect(ss'[i], ss'[i + 1]) {
      if i < n {
        assert CallEffect(ss[i], ss[i + 1]);
      }
    }
    assert AllDefused(ss) ==> Defused(ss[n].records, ss[n].view.waitsFor);
  }

  lemma AllLivePrefix(ss: seq<Scene>, s': Scene, worlds: seq<World>)
    requires AllLive(ss + [s'], worlds)
    ensures AllLive(ss, worlds)
  {
    var ss' := ss + [s'];
    forall i | 0 <= i < |ss| - 1 && i < |worlds| ensures LiveFrom(ss[i + 1].records, |ss[i].records|, worlds[i]) {
      assert LiveFrom(ss'[i + 1].records, |ss'[i].records|, worlds[i]);
    }
  }

  /** What a quiet run amounts to. */
  ghost predicate Concluded(ss: seq<Scene>)
    requires ss != []
  {
    var bound := |ss[0].view.waitsFor| + 1;
    && QuietRun(ss) && ReportingCalls(ss) <= bound
    && (|ss| > bound ==> exists n :: 0 <= n <= bound && AtRest(ss[n]))
    && (|ss| > bound && AllDefused(ss) ==> Over(ss[|ss| - 1]))
  }

  lemma RunConclusions(ss: seq<Scene>)
    requires QuietRun(ss) && ss != []
    ensures Concluded(ss)
  {
    ReportsAreBounded(ss);
    if |ss| >= |ss[0].view.waitsFor| + 2 {
      var n := ComesToRest(ss);
      if AllDefused(ss) {
        RestIsOver(ss[n]);
        StaysOver(ss, n, |ss| - 1);
      }
    }
  }

  lemma AllLiveGrows(ss: seq<Scene>, s': Scene, worlds: seq<World>)
    requires ss != [] && |ss| <= |worlds| && AllLive(ss, worlds)
    requires LiveFrom(s'.records, |ss[|ss| - 1].records|, worlds[|ss| - 1])
    ensures AllLive(ss + [s'], worlds)
  {
    var ss' := ss + [s'];
    forall i | 0 <= i < |ss'| - 1 && i < |worlds| ensures LiveFrom(ss'[i + 1].records, |ss'[i].records|, worlds[i]) {
      if i < |ss| - 1 {
        assert LiveFrom(ss[i + 1].records, |ss[i].records|, worlds[i]);
      }
    }
  }

  /** Every thread that waits at the start is alive in all the worlds: checkable beforehand. */
  ghost predicate AllKeysLive(g: WaitGraph, worlds: seq<World>) {
    forall i :: 0 <= i < |worlds| ==> KeysLive(g, worlds[i])
  }

  lemma KeysLiveShrinks(g: WaitGraph, g': WaitGraph, world: World)
    requires KeysLive(g, world) && g'.Keys <= g.Keys
    ensures KeysLive(g', world)
  {}

  /** What is known after some calls of a quiet stretch. */
  ghost predicate Stretch(nameOf: Tid -> string, ss: seq<Scene>, worlds: seq<World>) {
    && ss != []
    && (AllLive(ss, worlds) ==>
          QuietRun(ss) && AllNamed(nameOf, ss[|ss| - 1].view)
          && (Defused(ss[0].records, ss[0].view.waitsFor) ==> AllDefused(ss)))
    && (AllKeysLive(ss[0].view.waitsFor, worlds) ==>
          AllLive(ss, worlds) && ss[|ss| - 1].view.waitsFor.Keys <= ss[0].view.waitsFor.Keys)
  }

  lemma CallKeepsNames(c: Call, s': Scene, threw: bool, found: seq<seq<Thread>>)
    requires CallResult(c, s', threw, found) && AllNamed(c.nameOf, c.before.view)
    ensures QuietOutcome(c, s') && s'.view.waitsFor.Keys <= c.before.view.waitsFor.Keys
    ensures KeysLive(c.before.view.waitsFor, c.world) ==> LiveFrom(s'.records, |c.before.records|, c.world)
  {
    hide GroupGraph;
  }

  lemma StretchGrows(nameOf: Tid -> string, ss: seq<Scene>, s': Scene, o: Order, threw: bool, found: seq<seq<Thread>>, worlds: seq<World>)
    requires Stretch(nameOf, ss, worlds) && |ss| <= |worlds|
    requires CallResult(Call(nameOf, ss[|ss| - 1], o, worlds[|ss| - 1]), s', threw, found)
    ensures Stretch(nameOf, ss + [s'], worlds)
  {
    var c := Call(nameOf, ss[|ss| - 1], o, worlds[|ss| - 1]);
    hide CallResult, QuietOutcome, AllLive, QuietRun, AllNamed, KeysLive, LiveFrom, AllDefused, Defused;
    assert (ss + [s'])[0] == ss[0] && (ss + [s'])[|ss|] == s';
    if AllKeysLive(ss[0].view.waitsFor, worlds) {
      assert KeysLive(ss[0].view.waitsFor, c.world);
      CallKeepsNames(c, s', threw, found);
      KeysLiveShrinks(ss[0].view.waitsFor, c.before.view.waitsFor, c.world);
      AllLiveGrows(ss, s', worlds);
    }
    if AllLive(ss + [s'], worlds) {
      AllLivePrefix(ss, s', worlds);
      CallKeepsNames(c, s', threw, found);
      QuietRunGrows(nameOf, ss, s', o, worlds);
    }
  }

  lemma StretchStarts(nameOf: Tid -> string, s: Scene, worlds: seq<World>)
    requires AllNamed(nameOf, s.view)
    ensures Stretch(nameOf, [s], worlds)
  {}

  /** The tracer's main loop over a stretch of stops that are no futex events, so that only detection
      runs: one call per element of `worlds`.  If every new report lists a live thread, in particular
      if every thread that waits at the start stays alive, at most |waits_for| + 1 calls report,
      whatever is on record; the others change nothing. */
  method RunQuietly(gs: GlobalState, worlds: seq<World>) returns (ghost ss: seq<Scene>)
    modifies gs
    ensures |ss| == |worlds| + 1 && ss[0] == old(SceneOf(gs)) && ss[|worlds|] == SceneOf(gs)
    ensures AllNamed(gs.nameOf, ss[0].view) && AllKeysLive(ss[0].view.waitsFor, worlds) ==> AllLive(ss, worlds)
    ensures AllNamed(gs.nameOf, ss[0].view) && AllLive(ss, worlds) ==> Concluded(ss)
    ensures AllNamed(gs.nameOf, ss[0].view) && AllLive(ss, worlds) && Defused(ss[0].records, ss[0].view.waitsFor) ==> AllDefused(ss)
  {
    ghost var named := AllNamed(gs.nameOf, gs.View());
    ss := [SceneOf(gs)];
    hide Stretch, CallResult, OrderOf, AllNamed, Concluded, AllLive, AllKeysLive, Defused, AllDefused;
    if named {
      StretchStarts(gs.nameOf, SceneOf(gs), worlds);
    }
    for i := 0 to |worlds|
      invariant |ss| == i + 1 && ss[0] == old(SceneOf(gs)) && ss[i] == SceneOf(gs)
      invariant named ==> Stretch(gs.nameOf, ss, worlds)
    {
      var o := IterationOrder(gs.View());
      var threw; ghost var found;
      threw, found := DetectAndResolveDeadlocks(gs, o, worlds[i]);
      if named {
        StretchGrows(gs.nameOf, ss, SceneOf(gs), o, threw, found, worlds);
      }
      ss := ss + [SceneOf(gs)];
    }
    if named {
      StretchConclusions(gs.nameOf, ss, worlds);
    }
  }

  lemma StretchConclusions(nameOf: Tid -> string, ss: seq<Scene>, worlds: seq<World>)
    requires Stretch(nameOf, ss, worlds)
    ensures AllKeysLive(ss[0].view.waitsFor, worlds) ==> AllLive(ss, worlds)
    ensures AllLive(ss, worlds) ==> Concluded(ss)
    ensures AllLive(ss, worlds) && Defused(ss[0].records, ss[0].view.waitsFor) ==> AllDefused(ss)
  {
    if AllLive(ss, worlds) {
      RunConclusions(ss);
    }
  }
}
