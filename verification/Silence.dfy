/** When a scan of a cyclic graph says nothing, told from the records and the graph alone. */
module Silence {
  import opened Graphs
  import opened Identifiers
  import opened State
  import opened ThreadSearch
  import opened ConflictGroups
  import opened Resolution
  import opened Reports
  import opened Scans

  // ---------------------------------------------------------------- the condition

  /** Reports of one pass whose heads are all doomed threads. */
  ghost predicate Complete(g: WaitGraph, rs: seq<seq<Thread>>) {
    GoodReports(g, rs) && Covered(rs) == Doomed(g)
  }

  /** Some complete list of reports is on record. */
  ghost predicate CompleteOnRecord(records: seq<Record>, g: WaitGraph) {
    exists rs :: Complete(g, rs) && AllKnown(records, rs)
  }

  /** A scan that counts nothing has found a complete list, all on record. */
  lemma SilentMeansComplete(c: Call, s: Scene, found: seq<seq<Thread>>)
    requires ScanResult(c, s, found) && s.counter == c.before.counter
    ensures CompleteOnRecord(c.before.records, c.before.view.waitsFor) && s == c.before
  {
    ReplayGrowsIff(c.nameOf, c.before, found, c.world);
    assert Complete(c.before.view.waitsFor, found);
  }

  /** Every recorded report lists a thread that waits for nobody any more. */
  ghost predicate Defused(records: seq<Record>, g: WaitGraph) {
    forall k :: 0 <= k < |records| ==> exists v :: v in records[k].cycle && v !in g
  }

  /** A report that was recorded earlier cannot come up again while its record is defused. */
  lemma DefusedIsNotKnown(records: seq<Record>, g: WaitGraph, r: seq<Thread>)
    requires Defused(records, g) && HoldsCycle(g, r)
    ensures !Known(records, r)
  {
    HoldsCycleHasKeys(g, r);
    forall k | 0 <= k < |records| ensures records[k].cycle != r {
      var v :| v in records[k].cycle && v !in g;
    }
  }

  lemma CyclicIsDoomed(g: WaitGraph)
    requires Cyclic(g)
    ensures Doomed(g) != {}
  {
    var x :| OnCycle(g, x);
    assert WalkFromTo(g, [x], x, x);
    assert Reaches(g, x, x);
    DoomedMakesCyclic(g, x);
    assert x in Doomed(g);
  }

  /** While all records are defused, no complete list of a cyclic graph is on record. */
  lemma DefusedIsIncomplete(records: seq<Record>, g: WaitGraph)
    requires Defused(records, g) && Cyclic(g)
    ensures !CompleteOnRecord(records, g)
  {
    CyclicIsDoomed(g);
    forall rs | Complete(g, rs) ensures !AllKnown(records, rs) {
      var x :| x in Covered(rs);
      FirstHoldsCycle(g, rs);
      DefusedIsNotKnown(records, g, rs[0]);
    }
  }

  // ---------------------------------------------------------------- an order for given reports

  ghost predicate At(rs: seq<seq<Thread>>, k: nat, i: nat, t: Thread) {
    k < |rs| && i < |rs[k]| - 1 && rs[k][i] == t
  }

  /** No thread is in two heads or twice in one. */
  lemma OncePlaced(g: WaitGraph, rs: seq<seq<Thread>>, k: nat, i: nat, l: nat, j: nat, t: Thread)
    requires GoodReports(g, rs) && At(rs, k, i, t) && At(rs, l, j, t)
    ensures k == l && i == j
  {
    assert GoodReport(g, rs, k) && GoodReport(g, rs, l);
    assert Head(rs[k])[i] == t && Head(rs[l])[j] == t;
    assert t in Head(rs[k]) && t in Head(rs[l]);
    assert k == l;
  }

  ghost function Follower(rs: seq<seq<Thread>>, t: Thread): (u: Thread)
    requires exists k: nat, i: nat :: At(rs, k, i, t)
    ensures exists k: nat, i: nat :: At(rs, k, i, t) && u == rs[k][i + 1]
  {
    var k: nat, i: nat :| At(rs, k, i, t);
    rs[k][i + 1]
  }

  lemma FollowerIs(g: WaitGraph, rs: seq<seq<Thread>>, k: nat, i: nat, t: Thread)
    requires GoodReports(g, rs) && At(rs, k, i, t)
    ensures Follower(rs, t) == rs[k][i + 1] && Follower(rs, t) in Succ(g, t)
  {
    assert GoodReport(g, rs, k);
    assert rs[k][i + 1] in Succ(g, rs[k][i]);
    var l: nat, j: nat :| At(rs, l, j, t) && Follower(rs, t) == rs[l][j + 1];
    OncePlaced(g, rs, k, i, l, j, t);
  }

  lemma LayTargets(g: WaitGraph, rs: seq<seq<Thread>>) returns (targets: map<Thread, seq<Thread>>)
    requires GoodReports(g, rs)
    ensures ListsTargets(targets, g) && forall k :: 0 <= k < |rs| ==> Leads(targets, rs[k])
  {
    var next := map t | t in g && exists k: nat, i: nat :: At(rs, k, i, t) :: Follower(rs, t);
    forall t | t in next ensures next[t] in g[t] {
      var k: nat, i: nat :| At(rs, k, i, t);
      FollowerIs(g, rs, k, i, t);
    }
    targets := ListTargets(g, next);
    forall k, i | 0 <= k < |rs| && 0 <= i < |rs[k]| - 1 ensures FirstTarget(targets, rs[k][i], rs[k][i + 1]) {
      var t := rs[k][i];
      assert At(rs, k, i, t);
      FollowerIs(g, rs, k, i, t);
    }
  }

  lemma LayRoots(g: WaitGraph, rs: seq<seq<Thread>>) returns (roots: seq<Thread>)
    requires GoodReports(g, rs)
    ensures Enumerates(roots, g.Keys) && |rs| <= |roots| && forall k :: 0 <= k < |rs| ==> roots[k] == rs[k][0]
  {
    var starts := seq(|rs|, k requires 0 <= k < |rs| => rs[k][0]);
    forall k, l | 0 <= k < l < |rs| ensures starts[k] != starts[l] {
      if starts[k] == starts[l] {
        OncePlaced(g, rs, k, 0, l, 0, starts[k]);
      }
    }
    forall k | 0 <= k < |rs| ensures starts[k] in g {
      ListedAreKeys(g, rs, k);
    }
    roots := EnumerateOn(starts, g.Keys);
    assert forall k :: 0 <= k < |rs| ==> roots[k] == starts[k];
  }

  /** Any complete list of reports is found in some order. */
  lemma LayOut(g: WaitGraph, rs: seq<seq<Thread>>) returns (roots: seq<Thread>, targets: map<Thread, seq<Thread>>)
    requires Complete(g, rs)
    ensures Enumerates(roots, g.Keys) && ListsTargets(targets, g) && Laid(g, roots, targets, rs)
  {
    roots := LayRoots(g, rs);
    targets := LayTargets(g, rs);
  }

  // ---------------------------------------------------------------- exactly when a scan can be silent

  /** Whatever the scan makes of it, the order leaves everything as it was. */
  ghost predicate Silences(c: Call) {
    forall s, found :: ScanResult(c, s, found) ==> s == c.before
  }

  ghost predicate Speaks(c: Call) {
    forall s, found :: ScanResult(c, s, found) ==> s.counter > c.before.counter
  }

  lemma LaidSilences(c: Call, rs: seq<seq<Thread>>)
    requires LaidAndKnown(c, rs)
    ensures Silences(c)
  {
    forall s, found | ScanResult(c, s, found) ensures s == c.before {
      assert found == rs;
      ReplayGrowsIff(c.nameOf, c.before, found, c.world);
    }
  }

  /** Some order of `waits_for` and its sets makes the scan silent iff a complete list of reports is on
      record; otherwise every scan counts a deadlock. */
  lemma SilenceIff(nameOf: Tid -> string, s: Scene, holders: seq<Thread>, world: World)
    requires Enumerates(holders, s.view.threadLocks.Keys)
    ensures CompleteOnRecord(s.records, s.view.waitsFor) ==>
      exists o :: OrderOf(o, s.view) && o.holders == holders && Silences(Call(nameOf, s, o, world))
    ensures !CompleteOnRecord(s.records, s.view.waitsFor) ==>
      forall o :: OrderOf(o, s.view) ==> Speaks(Call(nameOf, s, o, world))
  {
    if CompleteOnRecord(s.records, s.view.waitsFor) {
      var rs :| Complete(s.view.waitsFor, rs) && AllKnown(s.records, rs);
      var roots, targets := LayOut(s.view.waitsFor, rs);
      var o := Order(holders, roots, targets);
      LaidSilences(Call(nameOf, s, o, world), rs);
      assert OrderOf(o, s.view);
    } else {
      forall o, s', found | OrderOf(o, s.view) && ScanResult(Call(nameOf, s, o, world), s', found) ensures s'.counter > s.counter {
        ReplayGrowsIff(nameOf, s, found, world);
        if s'.counter == s.counter {
          SilentMeansComplete(Call(nameOf, s, o, world), s', found);
        }
      }
    }
  }
}
