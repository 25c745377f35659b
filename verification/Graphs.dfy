/** Directed multigraphs given as adjacency lists, and the vocabulary the
    validators are judged by: walks, closed walks, reachability, topological orders. */
module Graphs {

  type Node = string
  type Graph = map<Node, seq<Node>>

  /** `adjacency.get(node, [])`: a node without an entry has no successors. */
  function Succs(g: Graph, n: Node): (r: seq<Node>)
    ensures forall m <- r :: m in Nodes(g)
  {
    if n in g then g[n] else []
  }

  /** Every node the graph mentions, as a key or as a successor. */
  function Nodes(g: Graph): set<Node> {
    g.Keys + set a, b | a in g.Keys && b in g[a] :: b
  }

  predicate Step(g: Graph, a: Node, b: Node) {
    b in Succs(g, a)
  }

  ghost predicate IsWalk(g: Graph, p: seq<Node>) {
    p != [] && forall i | 0 <= i < |p| - 1 :: Step(g, p[i], p[i + 1])
  }

  ghost predicate Connects(g: Graph, p: seq<Node>, a: Node, b: Node) {
    IsWalk(g, p) && p[0] == a && p[|p| - 1] == b
  }

  /** Reflexive-transitive closure of `Step`. */
  ghost predicate Reaches(g: Graph, a: Node, b: Node) {
    exists p :: Connects(g, p, a, b)
  }

  ghost predicate ClosedWalk(g: Graph, p: seq<Node>) {
    IsWalk(g, p) && |p| >= 2 && p[0] == p[|p| - 1]
  }

  ghost predicate Cyclic(g: Graph) {
    exists p :: ClosedWalk(g, p)
  }

  ghost predicate NoDup<T(!new)>(s: seq<T>) {
    forall i, j | 0 <= i < j < |s| :: s[i] != s[j]
  }

  /** A closed walk that repeats no node except its common endpoint. */
  ghost predicate SimpleCycle(g: Graph, c: seq<Node>) {
    ClosedWalk(g, c) && NoDup(c[1..])
  }

  /** Every successor of a listed node is listed strictly later. */
  ghost predicate Settled(g: Graph, order: seq<Node>) {
    NoDup(order) &&
    forall i, m | 0 <= i < |order| && m in Succs(g, order[i]) :: m in order[i + 1..]
  }

  ghost predicate TopologicalOrder(g: Graph, order: seq<Node>) {
    Settled(g, order) && forall n | n in g :: n in order
  }

  lemma Extend(g: Graph, p: seq<Node>, a: Node, b: Node, c: Node)
    requires Connects(g, p, a, b) && Step(g, b, c)
    ensures Connects(g, p + [c], a, c)
  {
    var q := p + [c];
    forall i | 0 <= i < |q| - 1 ensures Step(g, q[i], q[i + 1]) {
      if i < |p| - 1 { assert Step(g, p[i], p[i + 1]); }
    }
  }

  /** Along a walk, positions in a settled order only move forward. */
  lemma {:induction false} WalkMovesForward(g: Graph, order: seq<Node>, p: seq<Node>, i: nat)
    requires Settled(g, order) && IsWalk(g, p) && i < |order| && order[i] == p[0] && |p| >= 2
    ensures p[|p| - 1] in order[i + 1..]
    decreases |p|
  {
    assert Step(g, p[0], p[1]);
    var j :| i < j < |order| && order[j] == p[1];
    if |p| > 2 {
      var q := p[1..];
      forall k | 0 <= k < |q| - 1 ensures Step(g, q[k], q[k + 1]) {
        assert Step(g, p[k + 1], p[k + 2]);
      }
      WalkMovesForward(g, order, q, j);
    }
  }

  lemma OrderExcludesCycle(g: Graph, order: seq<Node>)
    requires TopologicalOrder(g, order)
    ensures !Cyclic(g)
  {
    if Cyclic(g) {
      var p :| ClosedWalk(g, p);
      assert Step(g, p[0], p[1]);
      var i :| 0 <= i < |order| && order[i] == p[0];
      WalkMovesForward(g, order, p, i);
      assert false;
    }
  }
}
