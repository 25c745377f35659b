/** The counting theorem behind the SEQUENTIAL and TREE rules of `validate_topology`:
    over distinct node ids the two rule sets accept the same graphs, the rooted trees. */
module TreeTheorem {
  import opened Graphs
  import opened Topology

  ghost predicate Accepts(c: Config, kind: Kind) {
    Verdict(c.(kind := kind)) == []
  }

  /** In-degree 0 at the entry and 1 everywhere else. */
  ghost predicate TreeDegrees(c: Config) {
    DegreesOn(c.edges, c.nodes, c.entry)
  }

  ghost predicate DegreesOn(edges: seq<Edge>, nodes: seq<Node>, entry: Node) {
    forall n | n in nodes :: InDegree(edges, n) == if n == entry then 0 else 1
  }

  function Others(nodes: seq<Node>, entry: Node): int {
    |nodes| - if entry in nodes then 1 else 0
  }

  function TotalInDegree(edges: seq<Edge>, nodes: seq<Node>): nat {
    if nodes == [] then 0
    else InDegree(edges, nodes[|nodes| - 1]) + TotalInDegree(edges, nodes[..|nodes| - 1])
  }

  // Counting

  lemma {:induction false} TotalAfterEdge(edges: seq<Edge>, e: Edge, nodes: seq<Node>)
    requires NoDup(nodes)
    ensures TotalInDegree(edges + [e], nodes) ==
            TotalInDegree(edges, nodes) + if e.toNode in nodes then 1 else 0
    decreases |nodes|
  {
    if nodes != [] {
      var front, last := nodes[..|nodes| - 1], nodes[|nodes| - 1];
      assert nodes == front + [last] && (edges + [e])[..|edges|] == edges;
      TotalAfterEdge(edges, e, front);
    }
  }

  lemma {:induction false} NoEdgesNoDegree(nodes: seq<Node>)
    ensures TotalInDegree([], nodes) == 0
    decreases |nodes|
  {
    if nodes != [] { NoEdgesNoDegree(nodes[..|nodes| - 1]); }
  }

  /** Handshake: every edge is counted at exactly one node. */
  lemma {:induction false} TotalIsEdgeCount(edges: seq<Edge>, nodes: seq<Node>)
    requires NoDup(nodes) && forall e <- edges :: e.toNode in nodes
    ensures TotalInDegree(edges, nodes) == |edges|
    decreases |edges|
  {
    if edges == [] {
      NoEdgesNoDegree(nodes);
    } else {
      var front, last := edges[..|edges| - 1], edges[|edges| - 1];
      assert edges == front + [last] && last in edges;
      TotalIsEdgeCount(front, nodes);
      TotalAfterEdge(front, last, nodes);
    }
  }

  /** If every node but `entry` has a parent, the total is at least their number, and
      meets it only when each of them has one parent and `entry` none. */
  lemma {:induction false} Squeeze(edges: seq<Edge>, nodes: seq<Node>, entry: Node)
    requires NoDup(nodes) && forall n | n in nodes && n != entry :: InDegree(edges, n) >= 1
    ensures TotalInDegree(edges, nodes) >= Others(nodes, entry)
    ensures TotalInDegree(edges, nodes) == Others(nodes, entry) <==> DegreesOn(edges, nodes, entry)
    decreases |nodes|
  {
    if nodes != [] {
      var front, last := nodes[..|nodes| - 1], nodes[|nodes| - 1];
      assert nodes == front + [last] && last !in front;
      Squeeze(edges, front, entry);
      assert Others(nodes, entry) == Others(front, entry) + if last == entry then 0 else 1;
      assert DegreesOn(edges, nodes, entry) <==>
             DegreesOn(edges, front, entry) && InDegree(edges, last) == if last == entry then 0 else 1;
    }
  }

  // Edges and parents

  lemma {:induction false} ParentCounts(edges: seq<Edge>, u: Node, v: Node)
    requires v in Targets(edges, u)
    ensures InDegree(edges, v) >= 1
    decreases |edges|
  {
    var front, last := edges[..|edges| - 1], edges[|edges| - 1];
    if v in Targets(front, u) { ParentCounts(front, u, v); }
  }

  lemma {:induction false} OneParent(edges: seq<Edge>, u: Node, w: Node, v: Node)
    requires v in Targets(edges, u) && v in Targets(edges, w) && InDegree(edges, v) <= 1
    ensures u == w
    decreases |edges|
  {
    var front, last := edges[..|edges| - 1], edges[|edges| - 1];
    if v in Targets(front, u) { ParentCounts(front, u, v); }
    if v in Targets(front, w) { ParentCounts(front, w, v); }
    if v in Targets(front, u) && v in Targets(front, w) { OneParent(front, u, w, v); }
  }

  lemma StepIsEdge(c: Config, u: Node, v: Node)
    requires WellFormed(c) && Step(Adjacency(c), u, v)
    ensures u in c.nodes && v in c.nodes && v in Targets(c.edges, u) && InDegree(c.edges, v) >= 1
  {
    ParentCounts(c.edges, u, v);
    TargetsAreNodes(c, c.edges, u);
  }

  lemma {:induction false} TargetsAreNodes(c: Config, edges: seq<Edge>, u: Node)
    requires WellFormed(c) && forall e <- edges :: e in c.edges
    ensures forall v <- Targets(edges, u) :: v in c.nodes
    decreases |edges|
  {
    if edges != [] {
      assert edges[|edges| - 1] in c.edges;
      TargetsAreNodes(c, edges[..|edges| - 1], u);
    }
  }

  /** Every reached node other than the entry has a parent. */
  lemma ReachedHasParent(c: Config, n: Node)
    requires WellFormed(c) && Reaches(Adjacency(c), c.entry, n) && n != c.entry
    ensures InDegree(c.edges, n) >= 1
  {
    var g := Adjacency(c);
    var p :| Connects(g, p, c.entry, n);
    StepIsEdge(c, p[|p| - 2], n);
  }

  // Degrees against edge counts and cycles

  /** Over distinct ids and full reachability, n - 1 edges force the tree degrees. */
  lemma EdgeCountIffDegrees(c: Config)
    requires WellFormed(c) && NoDup(c.nodes) && AllReached(c)
    ensures |c.edges| == |c.nodes| - 1 <==> TreeDegrees(c)
  {
    forall n | n in c.nodes && n != c.entry ensures InDegree(c.edges, n) >= 1 { ReachedHasParent(c, n); }
    Squeeze(c.edges, c.nodes, c.entry);
    TotalIsEdgeCount(c.edges, c.nodes);
  }

  /** A walk from the entry cannot end on a closed walk when degrees are those of a tree. */
  lemma {:induction false} EntryAvoidsCycle(c: Config, p: seq<Node>, cycle: seq<Node>, i: nat)
    requires WellFormed(c) && TreeDegrees(c) && ClosedWalk(Adjacency(c), cycle)
    requires 0 < i < |cycle| && Connects(Adjacency(c), p, c.entry, cycle[i])
    ensures false
    decreases |p|
  {
    var g := Adjacency(c);
    var v := cycle[i];
    assert Step(g, cycle[i - 1], v);
    StepIsEdge(c, cycle[i - 1], v);
    if |p| >= 2 {
      StepIsEdge(c, p[|p| - 2], v);
      OneParent(c.edges, cycle[i - 1], p[|p| - 2], v);
      EntryAvoidsCycle(c, p[..|p| - 1], cycle, if i > 1 then i - 1 else |cycle| - 1);
    }
  }

  lemma DegreesExcludeCycle(c: Config)
    requires WellFormed(c) && AllReached(c) && TreeDegrees(c)
    ensures !Cyclic(Adjacency(c))
  {
    var g := Adjacency(c);
    if Cyclic(g) {
      var cycle :| ClosedWalk(g, cycle);
      assert Step(g, cycle[0], cycle[1]);
      StepIsEdge(c, cycle[0], cycle[1]);
      var p :| Connects(g, p, c.entry, cycle[1]);
      EntryAvoidsCycle(c, p, cycle, 1);
    }
  }

  lemma {:induction false} HasIncoming(c: Config, edges: seq<Edge>, v: Node) returns (u: Node)
    requires WellFormed(c) && (forall e <- edges :: e in c.edges) && InDegree(edges, v) >= 1
    ensures u in c.nodes && v in Targets(edges, u)
    decreases |edges|
  {
    var front, last := edges[..|edges| - 1], edges[|edges| - 1];
    assert last in edges && last in c.edges;
    if last.toNode == v { u := last.fromNode; } else { u := HasIncoming(c, front, v); }
  }

  /** An edge into the entry would close a walk. */
  lemma AcyclicRoot(c: Config)
    requires WellFormed(c) && AllReached(c) && !Cyclic(Adjacency(c))
    ensures InDegree(c.edges, c.entry) == 0
  {
    if InDegree(c.edges, c.entry) >= 1 {
      var g := Adjacency(c);
      var u := HasIncoming(c, c.edges, c.entry);
      var p :| Connects(g, p, c.entry, u);
      Extend(g, p, c.entry, u, c.entry);
      assert ClosedWalk(g, p + [c.entry]);
    }
  }

  // What acceptance means

  // What each rule set accepts, in terms of reachability and closed walks

  lemma SingleMeans(c: Config)
    ensures Accepts(c, Single) <==> |c.nodes| == 1 && c.edges == []
  {
    VerdictMeans(c.(kind := Single));
  }

  lemma SequentialMeans(c: Config)
    ensures Accepts(c, Sequential) <==>
            AllReached(c) && |c.edges| == |c.nodes| - 1 && !Cyclic(Adjacency(c))
  {
    VerdictMeans(c.(kind := Sequential));
    assert Adjacency(c.(kind := Sequential)) == Adjacency(c);
  }

  lemma TreeMeans(c: Config)
    ensures Accepts(c, Tree) <==> AllReached(c) && !Cyclic(Adjacency(c)) && OneParentEach(c)
  {
    VerdictMeans(c.(kind := Tree));
    assert Adjacency(c.(kind := Tree)) == Adjacency(c);
  }

  /** A loop needs a termination condition. */
  lemma GraphMeans(c: Config)
    ensures Accepts(c, Graph) <==> AllReached(c) && (Cyclic(Adjacency(c)) ==> c.hasTermination)
  {
    VerdictMeans(c.(kind := Graph));
    assert Adjacency(c.(kind := Graph)) == Adjacency(c);
  }

  lemma TreeAcceptsIffDegrees(c: Config)
    requires WellFormed(c)
    ensures Accepts(c, Tree) <==> AllReached(c) && TreeDegrees(c)
  {
    TreeMeans(c);
    if Accepts(c, Tree) { AcyclicRoot(c); }
    if AllReached(c) && TreeDegrees(c) { DegreesExcludeCycle(c); }
  }

  // Main results

  /** Over distinct ids, SEQUENTIAL and TREE accept the same configurations, and the
      SEQUENTIAL cycle check rejects nothing that its other two checks let through. */
  lemma SequentialIffTree(c: Config)
    requires WellFormed(c) && NoDup(c.nodes)
    ensures Accepts(c, Sequential) <==> Accepts(c, Tree)
    ensures Accepts(c, Sequential) <==> AllReached(c) && |c.edges| == |c.nodes| - 1
  {
    SequentialMeans(c);
    TreeAcceptsIffDegrees(c);
    if AllReached(c) {
      EdgeCountIffDegrees(c);
      if TreeDegrees(c) { DegreesExcludeCycle(c); }
    }
  }

  lemma {:induction false} UniqueShortens(nodes: seq<Node>)
    ensures |Unique(nodes)| <= |nodes| && (|Unique(nodes)| == |nodes| <==> NoDup(nodes))
    decreases |nodes|
  {
    if nodes != [] {
      var front, last := nodes[..|nodes| - 1], nodes[|nodes| - 1];
      assert nodes == front + [last];
      UniqueShortens(front);
      if last in front {
        var i :| 0 <= i < |front| && front[i] == last;
        assert nodes[i] == nodes[|nodes| - 1];
      } else if NoDup(front) {
        assert NoDup(nodes);
      } else {
        var i, j :| 0 <= i < j < |front| && front[i] == front[j];
        assert nodes[i] == nodes[j];
      }
    }
  }

  /** Node ids are not required to be distinct, and exactly that decides whether the two
      rule sets agree on a configuration that at least one of them accepts. */
  lemma AgreementIffDistinct(c: Config)
    requires WellFormed(c) && (Accepts(c, Sequential) || Accepts(c, Tree))
    ensures Accepts(c, Sequential) && Accepts(c, Tree) <==> NoDup(c.nodes)
  {
    var u := c.(nodes := Unique(c.nodes));
    assert Adjacency(u) == Adjacency(c);
    SequentialMeans(c);
    TreeMeans(u);
    TreeMeans(c);
    SequentialIffTree(u);
    UniqueShortens(c.nodes);
    if NoDup(c.nodes) { SequentialIffTree(c); }
  }

  const TWINS := Config(Tree, ["a", "a"], [], "a", false)

  /** One id declared twice: a tree of one node, and one edge short of a sequence of two. */
  lemma DuplicateIdsDisagree()
    ensures WellFormed(TWINS) && Accepts(TWINS, Tree) && !Accepts(TWINS, Sequential)
  {
    assert Connects(Adjacency(TWINS), ["a"], "a", "a");
    TreeAcceptsIffDegrees(TWINS);
    SequentialMeans(TWINS);
  }

  /** In an accepted TREE, each node is the end of exactly one walk from the entry. */
  lemma {:induction false} WalksUnique(c: Config, p: seq<Node>, q: seq<Node>, n: Node)
    requires WellFormed(c) && TreeDegrees(c)
    requires Connects(Adjacency(c), p, c.entry, n) && Connects(Adjacency(c), q, c.entry, n)
    ensures p == q
    decreases |p|
  {
    var g := Adjacency(c);
    if |p| >= 2 {
      StepIsEdge(c, p[|p| - 2], n);
    }
    if |q| >= 2 {
      StepIsEdge(c, q[|q| - 2], n);
    }
    if |p| >= 2 && |q| >= 2 {
      OneParent(c.edges, p[|p| - 2], q[|q| - 2], n);
      WalksUnique(c, p[..|p| - 1], q[..|q| - 1], p[|p| - 2]);
      assert p == p[..|p| - 1] + [n] && q == q[..|q| - 1] + [n];
    }
  }

  /** One path from the entry to every node of an accepted TREE or (distinct-id)
      SEQUENTIAL configuration; parallel edges are excluded by the in-degrees. */
  lemma ExactlyOnePath(c: Config, n: Node)
    requires WellFormed(c) && n in c.nodes
    requires Accepts(c, Tree) || (Accepts(c, Sequential) && NoDup(c.nodes))
    ensures TreeDegrees(c)
    ensures exists p :: Connects(Adjacency(c), p, c.entry, n) &&
                        forall q | Connects(Adjacency(c), q, c.entry, n) :: q == p
  {
    if Accepts(c, Sequential) && NoDup(c.nodes) { SequentialIffTree(c); }
    TreeAcceptsIffDegrees(c);
    var p :| Connects(Adjacency(c), p, c.entry, n);
    forall q | Connects(Adjacency(c), q, c.entry, n) ensures q == p { WalksUnique(c, q, p, n); }
  }
}
