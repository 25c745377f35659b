/** The registry's quick test for self-loops and two-node cycles, and how it relates to
    the topology's own cycle check, which reads different fields of the same edges. */
module WorkflowRegistry {
  import opened Commons
  import opened Graphs
  import Topology

  /** An edge as saved by the canvas, whose `source` and `target` keys are optional extras. */
  datatype CanvasEdge = CanvasEdge(source: Option<Node>, target: Option<Node>, fromNode: Node, toNode: Node)

  datatype Outcome = Passed | SelfLoop(node: Node) | Circular(source: Node, target: Node)

  /** `a or b`: an absent or empty value gives way to the default. */
  function Or(o: Option<Node>, default: Node): Node {
    if o.Some? && o.value != "" then o.value else default
  }

  function Read(e: CanvasEdge): Topology.Edge {
    Topology.Edge(Or(e.source, e.fromNode), Or(e.target, e.toNode))
  }

  function Declared(e: CanvasEdge): Topology.Edge {
    Topology.Edge(e.fromNode, e.toNode)
  }

  /** The registry takes the edge from `a` to `b`: by its canvas keys where they are present and not
      empty, and by its declared ends where they are not. */
  ghost predicate Leads(e: CanvasEdge, a: Node, b: Node) {
    && (if e.source == None || e.source == Some("") then a == e.fromNode else e.source == Some(a))
    && (if e.target == None || e.target == Some("") then b == e.toNode else e.target == Some(b))
  }

  lemma LeadsAsRead(e: CanvasEdge, a: Node, b: Node)
    ensures Leads(e, a, b) <==> Read(e) == Topology.Edge(a, b)
  {
  }

  /** Edge `k` is a self-loop or reverses an earlier edge. */
  ghost predicate Offends(edges: seq<CanvasEdge>, k: nat) {
    k < |edges| && var e := Read(edges[k]);
      e.fromNode == e.toNode || exists j | 0 <= j < k :: Read(edges[j]) == Topology.Edge(e.toNode, e.fromNode)
  }

  ghost predicate FirstOffence(edges: seq<CanvasEdge>, k: nat) {
    Offends(edges, k) && forall j | 0 <= j < k :: !Offends(edges, j)
  }

  /** The edges before `k` have no self-loop and no pair of opposite edges. */
  ghost predicate ClearBefore(edges: seq<CanvasEdge>, k: nat)
    requires k <= |edges|
  {
    && (forall i, a | 0 <= i < k :: !Leads(edges[i], a, a))
    && (forall i, j, a, b | 0 <= i < j < k && Leads(edges[i], a, b) :: !Leads(edges[j], b, a))
  }

  lemma ClearIfNoOffence(edges: seq<CanvasEdge>, k: nat)
    requires k <= |edges| && forall i | 0 <= i < k :: !Offends(edges, i)
    ensures ClearBefore(edges, k)
  {
    forall i, j, a, b | 0 <= i < j < k && Leads(edges[i], a, b) ensures !Leads(edges[j], b, a) {
      LeadsAsRead(edges[i], a, b);
      LeadsAsRead(edges[j], b, a);
      assert !Offends(edges, j);
    }
    forall i, a | 0 <= i < k ensures !Leads(edges[i], a, a) {
      LeadsAsRead(edges[i], a, a);
      assert !Offends(edges, i);
    }
  }

  /** What the error says: the first edge to be a loop or to reverse an earlier one is the one named. */
  ghost predicate Names(edges: seq<CanvasEdge>, o: Outcome) {
    exists k: nat :: k < |edges| && ClearBefore(edges, k) && match o
      case Passed => false
      case SelfLoop(a) => Leads(edges[k], a, a)
      case Circular(a, b) => a != b && Leads(edges[k], a, b) && exists j | 0 <= j < k :: Leads(edges[j], b, a)
  }

  lemma OffenceIsNamed(edges: seq<CanvasEdge>, k: nat)
    requires FirstOffence(edges, k)
    ensures var e := Read(edges[k]);
      Names(edges, if e.fromNode == e.toNode then SelfLoop(e.fromNode) else Circular(e.fromNode, e.toNode))
  {
    var e := Read(edges[k]);
    ClearIfNoOffence(edges, k);
    LeadsAsRead(edges[k], e.fromNode, e.toNode);
    if e.fromNode != e.toNode {
      var j :| 0 <= j < k && Read(edges[j]) == Topology.Edge(e.toNode, e.fromNode);
      LeadsAsRead(edges[j], e.toNode, e.fromNode);
    }
  }

  /** `_check_circular_dependencies`: a workflow of another pattern passes; a sequential one
      raises on its first offending edge, which the error names. */
  method CheckCircularDependencies(sequential: bool, edges: seq<CanvasEdge>) returns (o: Outcome)
    ensures o == Passed <==> !sequential || forall k | 0 <= k < |edges| :: !Offends(edges, k)
    ensures o != Passed ==> exists k: nat :: FirstOffence(edges, k) && var e := Read(edges[k]);
              o == if e.fromNode == e.toNode then SelfLoop(e.fromNode) else Circular(e.fromNode, e.toNode)
    ensures o == Passed && sequential ==> ClearBefore(edges, |edges|)
    ensures o != Passed ==> Names(edges, o)
  {
    if !sequential { return Passed; }
    var pairs: set<(Node, Node)> := {};
    for i := 0 to |edges|
      invariant forall k | 0 <= k < i :: !Offends(edges, k)
      invariant forall a, b :: (a, b) in pairs <==> exists j | 0 <= j < i :: Read(edges[j]) == Topology.Edge(a, b)
    {
      var source, target := Or(edges[i].source, edges[i].fromNode), Or(edges[i].target, edges[i].toNode);
      assert Read(edges[i]) == Topology.Edge(source, target);
      if source == target {
        assert FirstOffence(edges, i);
        OffenceIsNamed(edges, i);
        return SelfLoop(source);
      }
      if (target, source) in pairs {
        assert FirstOffence(edges, i);
        OffenceIsNamed(edges, i);
        return Circular(source, target);
      }
      pairs := pairs + {(source, target)};
    }
    ClearIfNoOffence(edges, |edges|);
    return Passed;
  }

  ghost predicate Rejected(edges: seq<CanvasEdge>) {
    exists k: nat :: Offends(edges, k)
  }

  ghost predicate HasEdge(edges: seq<Topology.Edge>, a: Node, b: Node) {
    Topology.Edge(a, b) in edges
  }

  lemma {:induction false} TargetsAreEdges(edges: seq<Topology.Edge>, a: Node, b: Node)
    ensures b in Topology.Targets(edges, a) <==> HasEdge(edges, a, b)
    decreases |edges|
  {
    if edges != [] {
      assert edges == edges[..|edges| - 1] + [edges[|edges| - 1]];
      TargetsAreEdges(edges[..|edges| - 1], a, b);
    }
  }

  /** The edges as the registry reads them, over a node list that declares their ends. */
  ghost predicate ReadBy(c: Topology.Config, edges: seq<CanvasEdge>) {
    Topology.WellFormed(c) && |c.edges| == |edges| && forall k | 0 <= k < |edges| :: c.edges[k] == Read(edges[k])
  }

  ghost predicate ShortCycle(g: Graph) {
    exists p :: ClosedWalk(g, p) && |p| <= 3
  }

  /** A step of the graph is an edge the registry reads. */
  lemma StepIsRead(c: Topology.Config, edges: seq<CanvasEdge>, a: Node, b: Node)
    requires ReadBy(c, edges)
    ensures Step(Topology.Adjacency(c), a, b) <==>
            exists k | 0 <= k < |edges| :: Read(edges[k]) == Topology.Edge(a, b)
  {
    TargetsAreEdges(c.edges, a, b);
    if k :| 0 <= k < |edges| && Read(edges[k]) == Topology.Edge(a, b) { assert c.edges[k] in c.edges; }
  }

  lemma OffenceIsCycle(c: Topology.Config, edges: seq<CanvasEdge>, k: nat)
    requires ReadBy(c, edges) && Offends(edges, k)
    ensures ShortCycle(Topology.Adjacency(c))
  {
    var g, a, b := Topology.Adjacency(c), Read(edges[k]).fromNode, Read(edges[k]).toNode;
    StepIsRead(c, edges, a, b);
    if a == b {
      assert ClosedWalk(g, [a, b]);
    } else {
      StepIsRead(c, edges, b, a);
      assert ClosedWalk(g, [a, b, a]);
    }
  }

  lemma CycleIsOffence(c: Topology.Config, edges: seq<CanvasEdge>, p: seq<Node>)
    requires ReadBy(c, edges) && ClosedWalk(Topology.Adjacency(c), p) && |p| <= 3
    ensures Rejected(edges)
  {
    var g := Topology.Adjacency(c);
    assert Step(g, p[0], p[1]);
    StepIsRead(c, edges, p[0], p[1]);
    var i :| 0 <= i < |edges| && Read(edges[i]) == Topology.Edge(p[0], p[1]);
    if |p| == 2 || p[0] == p[1] {
      assert Offends(edges, i);
    } else {
      assert Step(g, p[1], p[2]);
      StepIsRead(c, edges, p[1], p[0]);
      var j :| 0 <= j < |edges| && Read(edges[j]) == Topology.Edge(p[1], p[0]);
      assert Offends(edges, if i < j then j else i);
    }
  }

  /** The registry rejects exactly the closed walks of at most two edges. */
  lemma RejectsShortCycles(c: Topology.Config, edges: seq<CanvasEdge>)
    requires ReadBy(c, edges)
    ensures Rejected(edges) <==> ShortCycle(Topology.Adjacency(c))
  {
    if Rejected(edges) {
      var k: nat :| Offends(edges, k);
      OffenceIsCycle(c, edges, k);
    }
    if ShortCycle(Topology.Adjacency(c)) {
      var p :| ClosedWalk(Topology.Adjacency(c), p) && |p| <= 3;
      CycleIsOffence(c, edges, p);
    }
  }

  /** A topology whose edges are the declared ones. */
  ghost predicate DeclaredBy(c: Topology.Config, edges: seq<CanvasEdge>) {
    Topology.WellFormed(c) && |c.edges| == |edges| && forall k | 0 <= k < |edges| :: c.edges[k] == Declared(edges[k])
  }

  /** When the canvas keys agree with `from_node` and `to_node`, whatever the registry
      rejects, `_has_cycle` finds too, and so neither SEQUENTIAL nor TREE accepts it. */
  lemma RejectedIsCyclic(c: Topology.Config, edges: seq<CanvasEdge>)
    requires DeclaredBy(c, edges) && Rejected(edges)
    requires forall k | 0 <= k < |edges| :: Declared(edges[k]) == Read(edges[k])
    ensures Cyclic(Topology.Adjacency(c))
    ensures c.kind in {Topology.Sequential, Topology.Tree} ==> Topology.Verdict(c) != []
  {
    RejectsShortCycles(c, edges);
  }

  // When they do not agree

  lemma StepIsDeclared(c: Topology.Config, edges: seq<CanvasEdge>, a: Node, b: Node)
    requires DeclaredBy(c, edges)
    ensures Step(Topology.Adjacency(c), a, b) <==>
            exists k | 0 <= k < |edges| :: Declared(edges[k]) == Topology.Edge(a, b)
  {
    TargetsAreEdges(c.edges, a, b);
    if k :| 0 <= k < |edges| && Declared(edges[k]) == Topology.Edge(a, b) { assert c.edges[k] in c.edges; }
  }

  /** A closed walk leaves every node it enters. */
  lemma WalkGoesOn(g: Graph, p: seq<Node>, i: nat)
    requires ClosedWalk(g, p) && 0 < i < |p|
    ensures exists j :: 0 < j < |p| && Step(g, p[i], p[j])
  {
    if i + 1 < |p| { assert Step(g, p[i], p[i + 1]); } else { assert Step(g, p[0], p[1]); }
  }

  lemma TwoEdgesAcyclic(g: Graph, a: Node, b: Node, t: Node, s: Node)
    requires forall x, y | Step(g, x, y) :: (x == a && y == b) || (x == t && y == s)
    requires a != b && t != s && !(t == b && s == a)
    ensures !Cyclic(g)
  {
    if Cyclic(g) {
      var p :| ClosedWalk(g, p);
      assert Step(g, p[0], p[1]);
      WalkGoesOn(g, p, 1);
      var j :| 0 < j < |p| && Step(g, p[1], p[j]);
      WalkGoesOn(g, p, j);
      assert false;
    }
  }

  /** The edge alone if it reads as a loop, and otherwise with the reverse of what it reads. */
  function Provoked(e: CanvasEdge): (edges: seq<CanvasEdge>)
    ensures e in edges
  {
    var r := Read(e);
    if r.fromNode == r.toNode then [e] else [e, CanvasEdge(None, None, r.toNode, r.fromNode)]
  }

  lemma ProvokedIsRejected(e: CanvasEdge)
    ensures Rejected(Provoked(e))
  {
    var r, edges := Read(e), Provoked(e);
    assert Read(edges[0]) == r;
    assert |edges| == 2 ==> Read(edges[1]) == Topology.Edge(r.toNode, r.fromNode);
    assert Offends(edges, |edges| - 1);
  }

  function DeclaredEdges(edges: seq<CanvasEdge>): seq<Topology.Edge> {
    seq(|edges|, i requires 0 <= i < |edges| => Declared(edges[i]))
  }

  function Provoking(e: CanvasEdge): Topology.Config {
    var r := Read(e);
    Topology.Config(Topology.Sequential, [e.fromNode, e.toNode, r.fromNode, r.toNode],
                    DeclaredEdges(Provoked(e)), e.fromNode, false)
  }

  lemma ProvokingIsDeclared(e: CanvasEdge)
    ensures DeclaredBy(Provoking(e), Provoked(e))
  {
    var c, edges := Provoking(e), Provoked(e);
    forall d | d in c.edges ensures d.fromNode in c.nodes && d.toNode in c.nodes {
      var k :| 0 <= k < |edges| && Declared(edges[k]) == d;
    }
  }

  /** Any disagreement on an edge that is no declared loop makes the registry reject a workflow
      whose declared graph is acyclic. */
  lemma DisagreementMisjudges(e: CanvasEdge)
    requires Read(e) != Declared(e) && e.fromNode != e.toNode
    ensures DeclaredBy(Provoking(e), Provoked(e)) && Rejected(Provoked(e))
    ensures !Cyclic(Topology.Adjacency(Provoking(e)))
  {
    var g, edges := Topology.Adjacency(Provoking(e)), Provoked(e);
    ProvokingIsDeclared(e);
    ProvokedIsRejected(e);
    var last := Declared(edges[|edges| - 1]);
    forall x, y | Step(g, x, y) ensures Topology.Edge(x, y) == Declared(e) || Topology.Edge(x, y) == last {
      StepIsDeclared(Provoking(e), edges, x, y);
    }
    TwoEdgesAcyclic(g, e.fromNode, e.toNode, last.fromNode, last.toNode);
  }

  /** The registry's rejections are sound wherever the other edges agree. */
  ghost predicate SoundWith(e: CanvasEdge) {
    forall edges, c | DeclaredBy(c, edges) && e in edges && (forall f <- edges | f != e :: Read(f) == Declared(f)) &&
      Rejected(edges) :: Cyclic(Topology.Adjacency(c))
  }

  /** Edge by edge, agreement of the two pairs of keys is exactly what the check needs; only a
      declared self-loop, which is a cycle anyhow, can do without it. */
  lemma AgreementIsExact(e: CanvasEdge)
    ensures SoundWith(e) <==> Read(e) == Declared(e) || e.fromNode == e.toNode
  {
    if Read(e) == Declared(e) || e.fromNode == e.toNode {
      forall edges, c | DeclaredBy(c, edges) && e in edges && (forall f <- edges | f != e :: Read(f) == Declared(f)) &&
        Rejected(edges) ensures Cyclic(Topology.Adjacency(c))
      {
        AgreedIsCyclic(e, edges, c);
      }
    } else {
      DisagreementMisjudges(e);
      assert !SoundWith(e);
    }
  }

  lemma AgreedIsCyclic(e: CanvasEdge, edges: seq<CanvasEdge>, c: Topology.Config)
    requires Read(e) == Declared(e) || e.fromNode == e.toNode
    requires DeclaredBy(c, edges) && e in edges && Rejected(edges)
    requires forall f <- edges | f != e :: Read(f) == Declared(f)
    ensures Cyclic(Topology.Adjacency(c))
  {
    if Read(e) == Declared(e) {
      RejectedIsCyclic(c, edges);
    } else {
      StepIsDeclared(c, edges, e.fromNode, e.toNode);
      assert ClosedWalk(Topology.Adjacency(c), [e.fromNode, e.toNode]);
    }
  }
}
