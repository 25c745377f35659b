/** SEQUENTIAL topologies need not be sequences: the rules accept every rooted tree, and a
    chain is one in which no node has two outgoing edges. */
module Chains {
  import opened Graphs
  import opened Topology
  import opened TreeTheorem

  /** One walk visits every node. */
  ghost predicate IsChain(c: Config) {
    exists p :: Threads(c, p)
  }

  ghost predicate Threads(c: Config, p: seq<Node>) {
    IsWalk(Adjacency(c), p) && forall n <- c.nodes :: n in p
  }

  /** No node has two outgoing edges. */
  predicate Unbranched(c: Config) {
    forall n <- c.nodes :: |Targets(c.edges, n)| <= 1
  }

  // A chain does not branch

  lemma {:induction false} RepeatedTarget(edges: seq<Edge>, u: Node, v: Node, i: nat, j: nat)
    requires i < j < |Targets(edges, u)| && Targets(edges, u)[i] == v == Targets(edges, u)[j]
    ensures InDegree(edges, v) >= 2
    decreases |edges|
  {
    var front, last := edges[..|edges| - 1], edges[|edges| - 1];
    if j < |Targets(front, u)| {
      RepeatedTarget(front, u, v, i, j);
    } else {
      assert v in Targets(front, u);
      ParentCounts(front, u, v);
    }
  }

  /** A step back onto a walk closes it. */
  lemma StepBack(g: Graphs.Graph, p: seq<Node>, i: nat, j: nat)
    requires IsWalk(g, p) && i <= j < |p| && Step(g, p[j], p[i])
    ensures Cyclic(g)
  {
    assert ClosedWalk(g, p[i..j + 1] + [p[i]]);
  }

  lemma Repeated(g: Graphs.Graph, p: seq<Node>, i: nat, j: nat)
    requires IsWalk(g, p) && i < j < |p| && p[i] == p[j]
    ensures Cyclic(g)
  {
    assert ClosedWalk(g, p[i..j + 1]);
  }

  /** Where a walk goes on from `u` decides the only child of `u` it can visit. */
  lemma ChildFollows(c: Config, p: seq<Node>, u: Node, v: Node, m: nat)
    requires WellFormed(c) && TreeDegrees(c) && !Cyclic(Adjacency(c)) && IsWalk(Adjacency(c), p)
    requires m < |p| && p[m] == u && Step(Adjacency(c), u, v) && v in p
    ensures m + 1 < |p| && p[m + 1] == v
  {
    var i: nat :| i < |p| && p[i] == v;
    if i <= m {
      StepBack(Adjacency(c), p, i, m);
    } else {
      ParentOnWalk(c, p, u, v, i);
      if i - 1 > m { Repeated(Adjacency(c), p, m, i - 1); }
    }
  }

  lemma ParentOnWalk(c: Config, p: seq<Node>, u: Node, v: Node, i: nat)
    requires WellFormed(c) && TreeDegrees(c) && IsWalk(Adjacency(c), p) && Step(Adjacency(c), u, v)
    requires 0 < i < |p| && p[i] == v
    ensures p[i - 1] == u
  {
    assert Step(Adjacency(c), p[i - 1], p[i]);
    StepIsEdge(c, u, v);
    OneParent(c.edges, u, p[i - 1], v);
  }

  lemma ChainIsUnbranched(c: Config)
    requires WellFormed(c) && TreeDegrees(c) && !Cyclic(Adjacency(c)) && IsChain(c)
    ensures Unbranched(c)
  {
    var p :| Threads(c, p);
    forall u | u in c.nodes ensures |Targets(c.edges, u)| <= 1 {
      var ts := Targets(c.edges, u);
      if |ts| >= 2 {
        var g, v, w := Adjacency(c), ts[0], ts[1];
        assert Step(g, u, v) && Step(g, u, w);
        StepIsEdge(c, u, v);
        StepIsEdge(c, u, w);
        var m :| 0 <= m < |p| && p[m] == u;
        ChildFollows(c, p, u, v, m);
        ChildFollows(c, p, u, w, m);
        RepeatedTarget(c.edges, u, v, 0, 1);
      }
    }
  }

  // An unbranched tree is a chain

  /** Of two walks from one node, one continues the other. */
  lemma {:induction false} WalksNest(c: Config, p: seq<Node>, q: seq<Node>)
    requires Unbranched(c) && IsWalk(Adjacency(c), p) && IsWalk(Adjacency(c), q) && p[0] == q[0] && |p| <= |q|
    ensures p <= q
    decreases |p|
  {
    var g, n := Adjacency(c), |p| - 1;
    if n > 0 {
      assert p[0..n] == p[..n];
      WalksNest(c, p[..n], q);
      assert p[n - 1] == q[n - 1] && Step(g, p[n - 1], p[n]) && Step(g, q[n - 1], q[n]);
    }
  }

  /** A walk from the entry through every node listed. */
  lemma {:induction false} ThreadThrough(c: Config, nodes: seq<Node>) returns (p: seq<Node>)
    requires WellFormed(c) && Unbranched(c) && AllReached(c) && forall n <- nodes :: n in c.nodes
    ensures IsWalk(Adjacency(c), p) && p[0] == c.entry && forall n <- nodes :: n in p
    decreases |nodes|
  {
    if nodes == [] {
      p := [c.entry];
    } else {
      var last := nodes[|nodes| - 1];
      var front := ThreadThrough(c, nodes[..|nodes| - 1]);
      assert last in nodes && Reaches(Adjacency(c), c.entry, last);
      var q :| Connects(Adjacency(c), q, c.entry, last);
      if |front| <= |q| { WalksNest(c, front, q); p := q; } else { WalksNest(c, q, front); p := front; }
      assert nodes == nodes[..|nodes| - 1] + [last];
    }
  }

  /** Exactly which accepted SEQUENTIAL topologies are sequences. */
  lemma SequentialIsChainIff(c: Config)
    requires WellFormed(c) && NoDup(c.nodes) && Accepts(c, Sequential)
    ensures IsChain(c) <==> Unbranched(c)
  {
    SequentialIffTree(c);
    TreeAcceptsIffDegrees(c);
    DegreesExcludeCycle(c);
    if Unbranched(c) {
      var p := ThreadThrough(c, c.nodes);
      assert Threads(c, p);
    }
    if IsChain(c) { ChainIsUnbranched(c); }
  }

  const FORK := Config(Sequential, ["a", "b", "c"], [Edge("a", "b"), Edge("a", "c")], "a", false)

  lemma ForkReached()
    ensures AllReached(FORK)
  {
    var g := Adjacency(FORK);
    assert Step(g, "a", "b") && Step(g, "a", "c");
    assert Connects(g, ["a"], "a", "a");
    assert Connects(g, ["a", "b"], "a", "b");
    assert Connects(g, ["a", "c"], "a", "c");
  }

  /** A root with two children is accepted as SEQUENTIAL and is no chain. */
  lemma BranchingTreeAccepted()
    ensures WellFormed(FORK) && NoDup(FORK.nodes) && Accepts(FORK, Sequential) && !IsChain(FORK)
  {
    ForkReached();
    SequentialIffTree(FORK);
    assert "a" in FORK.nodes && !Unbranched(FORK);
    SequentialIsChainIff(FORK);
  }
}
