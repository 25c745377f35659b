/** What `detect_cycles` reports after its first hit. Neither `path` nor `rec_stack` is unwound
    after a hit, so later searches start on top of a stale path. */
module LaterReports {
  import opened Graphs
  import opened DepthFirst
  import opened WorkflowValidation

  /** A report, the path on which the search that made it started, and the node it started from. */
  datatype Hit = Hit(stale: seq<Node>, root: Node, report: seq<Node>)

  /** The hits of the outer loop, in order. */
  function Hits(g: Graph, keys: seq<Node>, s: Search): seq<Hit>
    requires (forall k <- keys :: k in g) && Synced(s)
    decreases |keys|
  {
    if keys == [] then []
    else if keys[0] in s.visited then Hits(g, keys[1..], s)
    else
      var (found, r) := Visit(g, keys[0], s);
      (if found then [Hit(s.path, keys[0], r.cycles[|s.cycles|])] else []) + Hits(g, keys[1..], r)
  }

  /** The lists from index n on are the reports of the hits. */
  ghost predicate ReportsFrom(hits: seq<Hit>, cycles: seq<seq<Node>>, n: nat) {
    |cycles| == n + |hits| && forall j | 0 <= j < |hits| :: hits[j].report == cycles[n + j]
  }

  lemma {:induction false} HitsAreReports(g: Graph, keys: seq<Node>, s: Search)
    requires (forall k <- keys :: k in g) && Synced(s)
    ensures ReportsFrom(Hits(g, keys, s), SearchFrom(g, keys, s).cycles, |s.cycles|)
    decreases |keys|
  {
    if keys != [] {
      if keys[0] in s.visited {
        HitsAreReports(g, keys[1..], s);
      } else {
        var (found, r) := Visit(g, keys[0], s);
        HitsAreReports(g, keys[1..], r);
        if found {
          var cycles, n := SearchFrom(g, keys, s).cycles, |s.cycles|;
          assert r.cycles <= cycles && r.cycles[n] == cycles[n];
        }
      }
    }
  }

  /** A hit: `p` continues the path `base` by a real walk from `root`, and the report runs from
      some node of `p` along it and back by a real edge. */
  ghost predicate Lands(g: Graph, base: seq<Node>, root: Node, p: seq<Node>, report: seq<Node>) {
    && Continues(g, base, root, p) && NoDup(p)
    && |report| >= 2 && report[0] in p && Step(g, p[|p| - 1], report[0])
    && report == Loop(p, report[0])
  }

  ghost predicate Continues(g: Graph, base: seq<Node>, root: Node, p: seq<Node>) {
    |base| < |p| && base <= p && p[|base|] == root && IsWalk(g, p[|base|..])
  }

  /** The last report is such a hit. */
  ghost predicate Reported(g: Graph, base: seq<Node>, root: Node, r: Search) {
    r.cycles != [] && Lands(g, base, root, r.path, r.cycles[|r.cycles| - 1])
  }

  lemma StackHit(g: Graph, base: seq<Node>, root: Node, s: Search, next: Node, r: Search)
    requires Synced(s) && Continues(g, base, root, s.path) && next in s.path && Step(g, s.path[|s.path| - 1], next)
    requires r == s.(cycles := s.cycles + [Loop(s.path, next)])
    ensures Reported(g, base, root, r)
  {
  }

  lemma {:induction false} VisitLands(g: Graph, node: Node, s: Search, base: seq<Node>, root: Node)
    requires node in Nodes(g) && node !in s.visited && Synced(s)
    requires if s.path == base then node == root
             else Continues(g, base, root, s.path) && Step(g, s.path[|s.path| - 1], node)
    ensures Visit(g, node, s).0 ==> Reported(g, base, root, Visit(g, node, s).1)
    decreases Nodes(g) - s.visited, 0
  {
    var goal := VisitTurn(g, node, s);
    ScanLands(g, node, 0, Enter(s, node), base, root, goal);
  }

  lemma {:induction false} ScanLands(g: Graph, node: Node, i: nat, s: Search, base: seq<Node>, root: Node,
      goal: (bool, Search))
    requires Ahead(g, node, i, s, goal) && Continues(g, base, root, s.path) && s.path[|s.path| - 1] == node
    ensures goal.0 ==> Reported(g, base, root, goal.1)
    decreases Nodes(g) - s.visited, |Succs(g, node)| - i + 1
  {
    if i == |Succs(g, node)| {
      ScanEnds(g, node, s, goal);
    } else {
      ScanTurn(g, node, i, s, goal);
      var next := Succs(g, node)[i];
      if next !in s.visited {
        VisitLands(g, next, s, base, root);
        var (found, r) := Visit(g, next, s);
        if !found { ScanLands(g, node, i + 1, r, base, root, goal); }
      } else if next in s.recStack {
        StackHit(g, base, root, s, next, goal.1);
      } else {
        ScanLands(g, node, i + 1, s, base, root, goal);
      }
    }
  }

  // The exact condition

  /** The report does not begin on the stale path, or the stale path is real from there on and
      leads by an edge to the root. */
  ghost predicate Honest(g: Graph, h: Hit)
    requires h.report != []
  {
    h.report[0] in h.stale ==> IsWalk(g, h.stale[IndexOf(h.stale, h.report[0])..] + [h.root])
  }

  lemma PrefixIndex(base: seq<Node>, p: seq<Node>, n: Node)
    requires NoDup(p) && base <= p && n in p
    ensures n in base <==> IndexOf(p, n) < |base|
    ensures n in base ==> IndexOf(p, n) == IndexOf(base, n)
  {
    if n in base { assert p[IndexOf(base, n)] == n; }
  }

  lemma LandsIff(g: Graph, h: Hit, p: seq<Node>)
    requires Lands(g, h.stale, h.root, p, h.report)
    ensures SimpleCycle(g, h.report) <==> Honest(g, h)
  {
    var c, m, first := h.report, |h.stale|, h.report[0];
    PrefixIndex(h.stale, p, first);
    LoopRepeatsNothing(p, first);
    var k := IndexOf(p, first);
    var q := p[m..];
    if first in h.stale {
      var join := h.stale[k..] + [h.root];
      assert forall i | 0 <= i < |join| :: join[i] == p[k + i] == c[i];
      if SimpleCycle(g, c) {
        forall i | 0 <= i < |join| - 1 ensures Step(g, join[i], join[i + 1]) { assert Step(g, c[i], c[i + 1]); }
      }
      if IsWalk(g, join) {
        forall i | k <= i < m ensures Step(g, p[i], p[i + 1]) { assert Step(g, join[i - k], join[i - k + 1]); }
        LoopIsWalk(g, p, k, m, first);
      }
    } else {
      LoopIsWalk(g, p, k, m, first);
    }
  }

  /** The loop is a walk when the path is one from its first node on. */
  lemma LoopIsWalk(g: Graph, p: seq<Node>, k: nat, m: nat, first: Node)
    requires first in p && k == IndexOf(p, first) && m < |p| && IsWalk(g, p[m..]) && Step(g, p[|p| - 1], first)
    requires forall i | k <= i < m :: Step(g, p[i], p[i + 1])
    ensures IsWalk(g, Loop(p, first))
  {
    var c, q := Loop(p, first), p[m..];
    forall i | k <= i < |p| - 1 ensures Step(g, p[i], p[i + 1]) {
      if i >= m { assert Step(g, q[i - m], q[i - m + 1]); }
    }
    forall i | 0 <= i < |c| - 1 ensures Step(g, c[i], c[i + 1]) {
      if k + i < |p| - 1 { assert Step(g, p[k + i], p[k + i + 1]); }
    }
  }

  ghost predicate Exact(g: Graph, h: Hit) {
    h.report != [] && (SimpleCycle(g, h.report) <==> Honest(g, h))
  }

  /** One report: it is a simple cycle exactly when it is honest about the stale path. */
  lemma VisitReportsExactly(g: Graph, root: Node, s: Search)
    requires root in Nodes(g) && root !in s.visited && Synced(s) && Visit(g, root, s).0
    ensures Exact(g, Hit(s.path, root, Visit(g, root, s).1.cycles[|s.cycles|]))
  {
    VisitLands(g, root, s, s.path, root);
    var r := Visit(g, root, s).1;
    LandsIff(g, Hit(s.path, root, r.cycles[|s.cycles|]), r.path);
  }

  lemma {:induction false} HitsAreExact(g: Graph, keys: seq<Node>, s: Search)
    requires (forall k <- keys :: k in g) && Synced(s)
    ensures forall h <- Hits(g, keys, s) :: Exact(g, h)
    decreases |keys|
  {
    if keys != [] {
      if keys[0] in s.visited {
        HitsAreExact(g, keys[1..], s);
      } else {
        var (found, r) := Visit(g, keys[0], s);
        if found { VisitReportsExactly(g, keys[0], s); }
        HitsAreExact(g, keys[1..], r);
      }
    }
  }

  function HitsOf(conns: seq<Connection>): seq<Hit> {
    GraphIsSequentialPart(conns);
    Hits(SequentialGraph(conns), KeyOrder(conns), FRESH)
  }

  lemma EveryReportIsHit(hits: seq<Hit>, cycles: seq<seq<Node>>)
    requires ReportsFrom(hits, cycles, 0)
    ensures forall c <- cycles :: exists h <- hits :: h.report == c
  {
    forall c | c in cycles ensures exists h <- hits :: h.report == c {
      var j :| 0 <= j < |cycles| && cycles[j] == c;
      assert hits[j] in hits;
    }
  }

  lemma ReportsAreHits(conns: seq<Connection>)
    ensures ReportsFrom(HitsOf(conns), Reports(conns), 0)
    ensures forall c <- Reports(conns) :: exists h <- HitsOf(conns) :: h.report == c
  {
    GraphIsSequentialPart(conns);
    HitsAreReports(SequentialGraph(conns), KeyOrder(conns), FRESH);
    EveryReportIsHit(HitsOf(conns), Reports(conns));
  }

  /** Exactly which reports of `detect_cycles` are simple cycles: those that do not begin on the
      path an earlier hit left behind, and those for which that path, from where they begin, and
      the step from its end to the new root are real. */
  lemma ReportIsCycleIff(conns: seq<Connection>, j: nat)
    requires j < |Reports(conns)|
    ensures |HitsOf(conns)| == |Reports(conns)|
    ensures var h := HitsOf(conns)[j]; h.report == Reports(conns)[j] && Exact(SequentialGraph(conns), h)
  {
    GraphIsSequentialPart(conns);
    var g, keys := SequentialGraph(conns), KeyOrder(conns);
    ReportsAreHits(conns);
    HitsAreExact(g, keys, FRESH);
    assert HitsOf(conns)[j] in HitsOf(conns);
  }

  // A condition on the connections

  /** No node has two distinct sequential predecessors. */
  predicate UniqueSources(conns: seq<Connection>) {
    forall c <- conns, d <- conns | c.kind == d.kind == SEQUENTIAL && c.toNode == d.toNode :: c.fromNode == d.fromNode
  }

  ghost predicate UniqueSteps(g: Graph) {
    forall a, b, v | Step(g, a, v) && Step(g, b, v) :: a == b
  }

  ghost predicate HasSource(g: Graph, p: seq<Node>, v: Node) {
    exists u <- p :: Step(g, u, v)
  }

  /** Every node of the path has a predecessor on it, as a path that closed its own loops has. */
  ghost predicate Rooted(g: Graph, p: seq<Node>) {
    forall v <- p :: HasSource(g, p, v)
  }

  lemma StepsOfTail(g: Graph, base: seq<Node>, root: Node, p: seq<Node>, i: nat)
    requires Continues(g, base, root, p) && |base| < i < |p|
    ensures Step(g, p[i - 1], p[i])
  {
    var q, m := p[|base|..], |base|;
    assert Step(g, q[i - 1 - m], q[i - m]);
  }

  /** With unique predecessors a hit cannot land on a rooted stale path, nor inside its own
      walk: it closes on its root. */
  lemma UniqueLands(g: Graph, base: seq<Node>, root: Node, p: seq<Node>, report: seq<Node>)
    requires UniqueSteps(g) && Rooted(g, base) && Lands(g, base, root, p, report)
    ensures report[0] == root && report[0] !in base
  {
    var first, last := report[0], p[|p| - 1];
    PrefixIndex(base, p, first);
    PrefixIndex(base, p, last);
    assert first in base ==> HasSource(g, base, first);
    if IndexOf(p, first) > |base| { StepsOfTail(g, base, root, p, IndexOf(p, first)); }
  }

  lemma RootedGrows(g: Graph, base: seq<Node>, root: Node, p: seq<Node>)
    requires Rooted(g, base) && Continues(g, base, root, p) && Step(g, p[|p| - 1], root)
    ensures Rooted(g, p)
  {
    forall v | v in p ensures HasSource(g, p, v) {
      var i :| 0 <= i < |p| && p[i] == v;
      if i < |base| {
        assert base[i] in base && HasSource(g, base, v);
        var u :| u in base && Step(g, u, v);
        assert u in p;
      } else if i > |base| {
        StepsOfTail(g, base, root, p, i);
        assert p[i - 1] in p;
      } else {
        assert p[|p| - 1] in p;
      }
    }
  }

  lemma UniqueVisit(g: Graph, root: Node, s: Search)
    requires root in Nodes(g) && root !in s.visited && Synced(s) && UniqueSteps(g) && Rooted(g, s.path)
    ensures var (found, r) := Visit(g, root, s);
      Rooted(g, r.path) && (found ==> |r.cycles| > |s.cycles| && SimpleCycle(g, r.cycles[|s.cycles|]))
  {
    var (found, r) := Visit(g, root, s);
    if found {
      var report := r.cycles[|s.cycles|];
      VisitLands(g, root, s, s.path, root);
      UniqueLands(g, s.path, root, r.path, report);
      RootedGrows(g, s.path, root, r.path);
      LandsIff(g, Hit(s.path, root, report), r.path);
    }
  }

  lemma {:induction false} UniqueHits(g: Graph, keys: seq<Node>, s: Search)
    requires (forall k <- keys :: k in g) && Synced(s) && UniqueSteps(g) && Rooted(g, s.path)
    ensures forall h <- Hits(g, keys, s) :: SimpleCycle(g, h.report)
    decreases |keys|
  {
    if keys != [] {
      if keys[0] in s.visited {
        UniqueHits(g, keys[1..], s);
      } else {
        UniqueVisit(g, keys[0], s);
        UniqueHits(g, keys[1..], Visit(g, keys[0], s).1);
      }
    }
  }

  /** If no node has two sequential predecessors, every report is a simple cycle, however many
      there are. */
  lemma UniqueSourcesReportCycles(conns: seq<Connection>)
    requires UniqueSources(conns)
    ensures forall c <- Reports(conns) :: SimpleCycle(SequentialGraph(conns), c)
  {
    GraphIsSequentialPart(conns);
    var g, keys := SequentialGraph(conns), KeyOrder(conns);
    forall a, b, v | Step(g, a, v) && Step(g, b, v) ensures a == b {
      assert SequentialStep(conns, a, v) && SequentialStep(conns, b, v);
    }
    UniqueHits(g, keys, FRESH);
    ReportsAreHits(conns);
  }

  // Where a report can be wrong

  /** Consecutive nodes are joined by an edge, except where the second one is a root. */
  ghost predicate Seamed(g: Graph, p: seq<Node>, roots: set<Node>) {
    forall i | 0 <= i < |p| - 1 :: Step(g, p[i], p[i + 1]) || p[i + 1] in roots
  }

  ghost predicate Shaped(g: Graph, c: seq<Node>, roots: set<Node>) {
    && |c| >= 2 && c[0] == c[|c| - 1] && NoDup(c[1..]) && Seamed(g, c, roots)
    && Step(g, c[|c| - 2], c[|c| - 1])
  }

  /** Keys from which the outer loop starts a search while an earlier hit's path is
      still on the stack: `path` and `rec_stack` are not unwound after a hit. */
  function Restarts(g: Graph, keys: seq<Node>, s: Search): set<Node>
    requires (forall k <- keys :: k in g) && Synced(s)
    decreases |keys|
  {
    if keys == [] then {}
    else if keys[0] in s.visited then Restarts(g, keys[1..], s)
    else (if s.path != [] then {keys[0]} else {}) + Restarts(g, keys[1..], Visit(g, keys[0], s).1)
  }

  /** A walk on top of a seamed path starts with its one new seam. */
  lemma LandsShaped(g: Graph, base: seq<Node>, root: Node, p: seq<Node>, report: seq<Node>, roots: set<Node>)
    requires Lands(g, base, root, p, report) && Seamed(g, base, roots) && (base != [] ==> root in roots)
    ensures Seamed(g, p, roots) && Shaped(g, report, roots)
  {
    forall i | 0 <= i < |p| - 1 ensures Step(g, p[i], p[i + 1]) || p[i + 1] in roots {
      if i < |base| - 1 {
        assert Step(g, base[i], base[i + 1]) || base[i + 1] in roots;
      } else if i >= |base| {
        StepsOfTail(g, base, root, p, i + 1);
      }
    }
  }

  lemma {:induction false} SearchShapes(g: Graph, keys: seq<Node>, s: Search, roots: set<Node>)
    requires (forall k <- keys :: k in g) && Synced(s) && Seamed(g, s.path, roots)
    requires Restarts(g, keys, s) <= roots
    ensures forall h <- Hits(g, keys, s) :: Shaped(g, h.report, roots)
    decreases |keys|
  {
    if keys != [] {
      if keys[0] in s.visited {
        SearchShapes(g, keys[1..], s, roots);
      } else {
        var (found, r) := Visit(g, keys[0], s);
        if found {
          VisitLands(g, keys[0], s, s.path, keys[0]);
          LandsShaped(g, s.path, keys[0], r.path, r.cycles[|s.cycles|], roots);
        }
        SearchShapes(g, keys[1..], r, roots);
      }
    }
  }

  /** Every report closes on its first node by a real edge and repeats nothing else, and
      all its edges are real but for those entering a restart. */
  lemma ReportsAreShaped(conns: seq<Connection>)
    ensures Enumerates(KeyOrder(conns), SequentialGraph(conns))
    ensures var g, keys := SequentialGraph(conns), KeyOrder(conns);
      forall c <- Reports(conns) :: Shaped(g, c, Restarts(g, keys, FRESH))
  {
    GraphIsSequentialPart(conns);
    var g, keys := SequentialGraph(conns), KeyOrder(conns);
    SearchShapes(g, keys, FRESH, Restarts(g, keys, FRESH));
    ReportsAreHits(conns);
  }

  // Examples

  const AB := Connection("a", "b", SEQUENTIAL)
  const BA := Connection("b", "a", SEQUENTIAL)
  const CA := Connection("c", "a", SEQUENTIAL)

  lemma ExampleGraph()
    ensures SequentialGraph([AB, BA, CA]) == map["a" := ["b"], "b" := ["a"], "c" := ["a"]]
    ensures KeyOrder([AB, BA, CA]) == ["a", "b", "c"]
  {
    var none: seq<Connection>, empty: seq<Node> := [], [];
    assert [AB, BA, CA][..2] == [AB, BA] && [AB, BA][..1] == [AB] && [AB][..0] == none;
    assert empty + ["a"] == ["a"] && empty + ["b"] == ["b"];
    assert KeyOrder([AB]) == ["a"];
    assert SequentialGraph([AB]) == map["a" := ["b"]];
    assert KeyOrder([AB, BA]) == ["a", "b"];
    assert SequentialGraph([AB, BA]) == map["a" := ["b"], "b" := ["a"]];
  }

  const THREE: Graph := map["a" := ["b"], "b" := ["a"], "c" := ["a"]]
  const FIRST_HIT := Search({"a", "b"}, {"a", "b"}, ["a", "b"], [["a", "b", "a"]])
  const SECOND_HIT :=
    Search({"a", "b", "c"}, {"a", "b", "c"}, ["a", "b", "c"], [["a", "b", "a"], ["a", "b", "c", "a"]])

  lemma FirstHit()
    ensures Visit(THREE, "a", FRESH) == (true, FIRST_HIT)
  {
    var inA := Enter(FRESH, "a");
    assert inA == Search({"a"}, {"a"}, ["a"], []);
    var inB := Enter(inA, "b");
    assert inB == FIRST_HIT.(cycles := []);
    assert IndexOf(inB.path, "a") == 0 && inB.path[0..] + ["a"] == ["a", "b", "a"];
    assert inA.cycles + [["a", "b", "a"]] == FIRST_HIT.cycles;
    assert Scan(THREE, "a", 0, inA) == (true, FIRST_HIT);
  }

  lemma SecondHit()
    ensures Synced(FIRST_HIT) && Visit(THREE, "c", FIRST_HIT) == (true, SECOND_HIT)
  {
    var inC := Enter(FIRST_HIT, "c");
    assert inC == SECOND_HIT.(cycles := [["a", "b", "a"]]);
    assert IndexOf(inC.path, "a") == 0 && inC.path[0..] + ["a"] == ["a", "b", "c", "a"];
    assert FIRST_HIT.cycles + [["a", "b", "c", "a"]] == SECOND_HIT.cycles;
  }

  lemma SearchThree()
    ensures SearchFrom(THREE, ["a", "b", "c"], FRESH) == SECOND_HIT
  {
    FirstHit();
    SecondHit();
    assert ["a", "b", "c"][1..] == ["b", "c"] && ["b", "c"][1..] == ["c"];
    assert SearchFrom(THREE, ["c"], FIRST_HIT) == SECOND_HIT;
    assert SearchFrom(THREE, ["b", "c"], FIRST_HIT) == SECOND_HIT;
  }

  /** a->b, b->a, c->a: the second report starts [a, b, c] although b->c is no edge. */
  lemma LaterReportNeedNotBeCycle()
    ensures Reports([AB, BA, CA]) == [["a", "b", "a"], ["a", "b", "c", "a"]]
    ensures !IsWalk(SequentialGraph([AB, BA, CA]), ["a", "b", "c", "a"])
  {
    ExampleGraph();
    SearchThree();
    assert !Step(THREE, ["a", "b", "c", "a"][1], ["a", "b", "c", "a"][2]);
  }

  const AA := Connection("a", "a", SEQUENTIAL)
  const BB := Connection("b", "b", SEQUENTIAL)
  const LOOPS: Graph := map["a" := ["a"], "b" := ["b"]]
  const A_HIT := Search({"a"}, {"a"}, ["a"], [["a", "a"]])
  const B_HIT := Search({"a", "b"}, {"a", "b"}, ["a", "b"], [["a", "a"], ["b", "b"]])

  lemma LoopsGraph()
    ensures SequentialGraph([AA, BB]) == LOOPS && KeyOrder([AA, BB]) == ["a", "b"]
  {
    var none: seq<Connection>, empty: seq<Node> := [], [];
    assert [AA, BB][..1] == [AA] && [AA][..0] == none && empty + ["a"] == ["a"] && empty + ["b"] == ["b"];
    assert KeyOrder([AA]) == ["a"] && SequentialGraph([AA]) == map["a" := ["a"]];
  }

  lemma FirstLoopHit()
    ensures Visit(LOOPS, "a", FRESH) == (true, A_HIT)
  {
    assert Enter(FRESH, "a") == A_HIT.(cycles := []);
    assert IndexOf(["a"], "a") == 0 && ["a"][0..] + ["a"] == ["a", "a"];
    assert FRESH.cycles + [["a", "a"]] == A_HIT.cycles;
  }

  lemma SecondLoopHit()
    ensures Synced(A_HIT) && Visit(LOOPS, "b", A_HIT) == (true, B_HIT)
  {
    assert Enter(A_HIT, "b") == B_HIT.(cycles := A_HIT.cycles);
    assert IndexOf(["a", "b"], "b") == 1 && ["a", "b"][1..] + ["b"] == ["b", "b"];
    assert A_HIT.cycles + [["b", "b"]] == B_HIT.cycles;
  }

  lemma SearchLoops()
    ensures SearchFrom(LOOPS, ["a", "b"], FRESH) == B_HIT
  {
    FirstLoopHit();
    SecondLoopHit();
    assert ["a", "b"][1..] == ["b"];
    assert SearchFrom(LOOPS, ["b"], A_HIT) == B_HIT;
  }

  /** Two self-loops: the second is found on top of the first's stale path, and both reports
      are simple cycles. */
  lemma DisjointLoopsReported()
    ensures Reports([AA, BB]) == [["a", "a"], ["b", "b"]]
  {
    LoopsGraph();
    SearchLoops();
  }
}
