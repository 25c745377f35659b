/** The depth-first search that both cycle finders run, written as a function on its
    four mutable variables, and what it finds. The methods in `Topology` and
    `WorkflowValidation` that update those variables in place are proved equal to it. */
module DepthFirst {
  import opened Graphs

  datatype Search = Search(
    visited: set<Node>, recStack: set<Node>, path: seq<Node>, cycles: seq<seq<Node>>)

  const FRESH := Search({}, {}, [], [])

  function Elems(s: seq<Node>): set<Node> {
    set n | n in s
  }

  /** The recursion stack is exactly the current path, and both are visited. */
  ghost predicate Synced(s: Search) {
    NoDup(s.path) && s.recStack == Elems(s.path) && s.recStack <= s.visited
  }

  function IndexOf(s: seq<Node>, n: Node): (i: nat)
    requires n in s
    ensures i < |s| && s[i] == n && n !in s[..i]
  {
    if s[0] == n then 0 else 1 + IndexOf(s[1..], n)
  }

  /** The list a hit reports: from `next` along the path and back to `next`. */
  function Loop(path: seq<Node>, next: Node): (c: seq<Node>)
    requires next in path
    ensures |c| >= 2 && c[0] == next == c[|c| - 1]
  {
    path[IndexOf(path, next)..] + [next]
  }

  function Enter(s: Search, node: Node): (r: Search)
    requires Synced(s) && node !in s.visited
    ensures Synced(r)
  {
    s.(visited := s.visited + {node}, recStack := s.recStack + {node}, path := s.path + [node])
  }

  function Leave(s: Search, node: Node): (r: Search)
    requires Synced(s) && s.path != [] && s.path[|s.path| - 1] == node
    ensures Synced(r) && s.path == r.path + [node]
  {
    s.(recStack := s.recStack - {node}, path := s.path[..|s.path| - 1])
  }

  /** What a call leaves behind: searches only grow, a hit adds one list and leaves the
      path where it stood, and a miss restores path and stack. */
  ghost predicate Grows(s: Search, found: bool, r: Search) {
    && Synced(r) && s.visited <= r.visited
    && (found ==> |r.cycles| == |s.cycles| + 1 && s.cycles <= r.cycles)
    && (!found ==> r.cycles == s.cycles && r.path == s.path && r.recStack == s.recStack)
  }

  function Visit(g: Graph, node: Node, s: Search): (r: (bool, Search))
    requires node in Nodes(g) && node !in s.visited && Synced(s)
    ensures Grows(s, r.0, r.1) && node in r.1.visited
    decreases Nodes(g) - s.visited, 0
  {
    var (found, r) := Scan(g, node, 0, Enter(s, node));
    if found then (true, r) else (false, Leave(r, node))
  }

  /** The loop over `node`'s neighbours, from index `i` on. */
  function Scan(g: Graph, node: Node, i: nat, s: Search): (r: (bool, Search))
    requires node in Nodes(g) && i <= |Succs(g, node)| && Synced(s)
    ensures Grows(s, r.0, r.1)
    decreases Nodes(g) - s.visited, |Succs(g, node)| - i + 1
  {
    if i == |Succs(g, node)| then (false, s) else
    var next := Succs(g, node)[i];
    if next !in s.visited then
      var (found, r) := Visit(g, next, s);
      if found then (true, r) else Scan(g, node, i + 1, r)
    else if next in s.recStack then
      (true, s.(cycles := s.cycles + [Loop(s.path, next)]))
    else Scan(g, node, i + 1, s)
  }

  /** What the loop over `node`'s neighbours still has to do is to reach `goal`. */
  ghost predicate Ahead(g: Graph, node: Node, i: nat, s: Search, goal: (bool, Search)) {
    node in Nodes(g) && i <= |Succs(g, node)| && Synced(s) && Scan(g, node, i, s) == goal
  }

  /** A call, as the loop that makes it up sees it. */
  lemma VisitTurn(g: Graph, node: Node, s: Search) returns (goal: (bool, Search))
    requires node in Nodes(g) && node !in s.visited && Synced(s)
    ensures Ahead(g, node, 0, Enter(s, node), goal)
    ensures goal.0 ==> Visit(g, node, s) == goal
    ensures !goal.0 ==> goal.1.path == s.path + [node] && Visit(g, node, s) == (false, Leave(goal.1, node))
  {
    goal := Scan(g, node, 0, Enter(s, node));
  }

  /** One turn of the loop over `node`'s neighbours. */
  lemma ScanTurn(g: Graph, node: Node, i: nat, s: Search, goal: (bool, Search))
    requires Ahead(g, node, i, s, goal) && i < |Succs(g, node)|
    ensures Succs(g, node)[i] in Nodes(g)
    ensures Succs(g, node)[i] !in s.visited ==>
      var (found, r) := Visit(g, Succs(g, node)[i], s);
      if found then goal == (true, r) else Ahead(g, node, i + 1, r, goal)
    ensures Succs(g, node)[i] in s.recStack ==>
      && Succs(g, node)[i] in s.path
      && goal == (true, s.(cycles := s.cycles + [Loop(s.path, Succs(g, node)[i])]))
    ensures Succs(g, node)[i] in s.visited && Succs(g, node)[i] !in s.recStack ==> Ahead(g, node, i + 1, s, goal)
  {
  }

  lemma ScanEnds(g: Graph, node: Node, s: Search, goal: (bool, Search))
    requires Ahead(g, node, |Succs(g, node)|, s, goal)
    ensures goal == (false, s)
  {
  }

  /** The outer loop: start a search from every key not yet visited. */
  function SearchFrom(g: Graph, keys: seq<Node>, s: Search): (r: Search)
    requires (forall k <- keys :: k in g) && Synced(s)
    ensures s.cycles <= r.cycles && Synced(r)
    decreases |keys|
  {
    if keys == [] then s
    else if keys[0] in s.visited then SearchFrom(g, keys[1..], s)
    else SearchFrom(g, keys[1..], Visit(g, keys[0], s).1)
  }

  /** State before the first hit: the path is a walk, and every visited node off the
      path stands in `order`, all of whose successors come after it. */
  ghost predicate Clean(g: Graph, s: Search, order: seq<Node>) {
    && Synced(s)
    && (s.path != [] ==> IsWalk(g, s.path))
    && Settled(g, order)
    && s.visited == s.recStack + Elems(order) && s.recStack !! Elems(order)
  }

  lemma PrependSettled(g: Graph, order: seq<Node>, node: Node)
    requires Settled(g, order) && node !in order && forall m | m in Succs(g, node) :: m in order
    ensures Settled(g, [node] + order)
  {
    var order' := [node] + order;
    assert NoDup(order') by {
      forall i, j | 0 <= i < j < |order'| ensures order'[i] != order'[j] {
        assert order'[j] == order[j - 1] && order[j - 1] in order;
      }
    }
    forall i, m | 0 <= i < |order'| && m in Succs(g, order'[i]) ensures m in order'[i + 1..] {
      if i == 0 {
        assert order'[1..] == order;
      } else {
        assert order'[i + 1..] == order[i..] && order'[i] == order[i - 1];
      }
    }
  }

  lemma DropLast(g: Graph, p: seq<Node>)
    requires IsWalk(g, p) && |p| >= 2
    ensures IsWalk(g, p[..|p| - 1])
  {
    var q := p[..|p| - 1];
    forall i | 0 <= i < |q| - 1 ensures Step(g, q[i], q[i + 1]) {
      assert Step(g, p[i], p[i + 1]);
    }
  }

  lemma Finish(g: Graph, s: Search, order: seq<Node>, node: Node)
    requires Clean(g, s, order) && s.path != [] && s.path[|s.path| - 1] == node
    requires forall m | m in Succs(g, node) :: m in order
    ensures Clean(g, Leave(s, node), [node] + order)
  {
    var r := Leave(s, node);
    assert node in s.path && node in s.recStack;
    PrependSettled(g, order, node);
    if r.path != [] { DropLast(g, s.path); }
    assert Elems([node] + order) == {node} + Elems(order);
  }

  lemma LoopRepeatsNothing(path: seq<Node>, next: Node)
    requires NoDup(path) && next in path
    ensures NoDup(Loop(path, next)[1..])
  {
    var k := IndexOf(path, next);
    assert Loop(path, next)[1..] == path[k + 1..] + [next];
    assert forall j | k < j < |path| :: path[j] != path[k];
  }

  lemma HitIsCycle(g: Graph, path: seq<Node>, next: Node)
    requires NoDup(path) && path != [] && IsWalk(g, path) && Step(g, path[|path| - 1], next) && next in path
    ensures SimpleCycle(g, Loop(path, next))
  {
    LoopRepeatsNothing(path, next);
    var k, c := IndexOf(path, next), Loop(path, next);
    forall i | 0 <= i < |c| - 1 ensures Step(g, c[i], c[i + 1]) {
      if k + i < |path| - 1 { assert Step(g, path[k + i], path[k + i + 1]); }
    }
  }

  lemma EnterClean(g: Graph, s: Search, order: seq<Node>, node: Node)
    requires Clean(g, s, order) && node !in s.visited
    requires s.path != [] ==> Step(g, s.path[|s.path| - 1], node)
    ensures Clean(g, Enter(s, node), order)
  {
    if s.path != [] { Extend(g, s.path, s.path[0], s.path[|s.path| - 1], node); }
  }

  ghost predicate NewCycle(g: Graph, s: Search, r: Search) {
    |r.cycles| == |s.cycles| + 1 && SimpleCycle(g, r.cycles[|s.cycles|])
  }

  lemma {:induction false} VisitClean(g: Graph, node: Node, s: Search, order: seq<Node>)
    returns (order': seq<Node>)
    requires node in Nodes(g) && node !in s.visited && Clean(g, s, order)
    requires s.path != [] ==> Step(g, s.path[|s.path| - 1], node)
    ensures var (found, r) := Visit(g, node, s);
      if found then NewCycle(g, s, r)
      else Clean(g, r, order') && node in order' && forall n | n in order :: n in order'
    decreases Nodes(g) - s.visited, 0
  {
    EnterClean(g, s, order, node);
    var goal := VisitTurn(g, node, s);
    order' := ScanClean(g, node, 0, Enter(s, node), order, goal);
    if !goal.0 {
      Finish(g, goal.1, order', node);
      order' := [node] + order';
    }
  }

  lemma {:induction false} ScanClean(g: Graph, node: Node, i: nat, s: Search, order: seq<Node>, goal: (bool, Search))
    returns (order': seq<Node>)
    requires Ahead(g, node, i, s, goal) && Clean(g, s, order)
    requires s.path != [] && s.path[|s.path| - 1] == node
    requires forall j | 0 <= j < i :: Succs(g, node)[j] in order
    ensures
      if goal.0 then NewCycle(g, s, goal.1)
      else Clean(g, goal.1, order') && (forall n | n in order :: n in order') &&
           forall m | m in Succs(g, node) :: m in order'
    decreases Nodes(g) - s.visited, |Succs(g, node)| - i + 1
  {
    order' := order;
    if i == |Succs(g, node)| {
      ScanEnds(g, node, s, goal);
    } else {
      ScanTurn(g, node, i, s, goal);
      var next := Succs(g, node)[i];
      if next !in s.visited {
        order' := VisitClean(g, next, s, order);
        var (found, r) := Visit(g, next, s);
        if !found { order' := ScanClean(g, node, i + 1, r, order', goal); }
      } else if next in s.recStack {
        HitIsCycle(g, s.path, next);
      } else {
        order' := ScanClean(g, node, i + 1, s, order, goal);
      }
    }
  }

  /** The whole search from a clean state: either it reports, and its first report is a
      simple cycle, or it ends with an order that settles every key. */
  lemma {:induction false} SearchFromClean(g: Graph, keys: seq<Node>, s: Search, order: seq<Node>)
    returns (order': seq<Node>)
    requires (forall k <- keys :: k in g) && Clean(g, s, order) && s.path == [] && s.cycles == []
    ensures var r := SearchFrom(g, keys, s);
      if r.cycles != [] then SimpleCycle(g, r.cycles[0])
      else Settled(g, order') && (forall n | n in order :: n in order') && forall k <- keys :: k in order'
    decreases |keys|
  {
    order' := order;
    if keys != [] {
      if keys[0] in s.visited {
        order' := SearchFromClean(g, keys[1..], s, order);
      } else {
        order' := VisitClean(g, keys[0], s, order);
        var (found, r) := Visit(g, keys[0], s);
        if !found { order' := SearchFromClean(g, keys[1..], r, order'); }
      }
    }
  }

  ghost predicate Enumerates(keys: seq<Node>, g: Graph) {
    forall n :: n in keys <==> n in g
  }

  /** Soundness and completeness of the search, for any graph and any key order. */
  lemma SearchDecides(g: Graph, keys: seq<Node>)
    requires Enumerates(keys, g)
    ensures var cycles := SearchFrom(g, keys, FRESH).cycles;
      && (cycles == [] <==> !Cyclic(g))
      && (cycles == [] <==> exists order :: TopologicalOrder(g, order))
      && (cycles != [] ==> SimpleCycle(g, cycles[0]))
  {
    var order := SearchFromClean(g, keys, FRESH, []);
    var cycles := SearchFrom(g, keys, FRESH).cycles;
    if cycles == [] {
      assert TopologicalOrder(g, order);
      OrderExcludesCycle(g, order);
    } else {
      assert ClosedWalk(g, cycles[0]);
      forall o | TopologicalOrder(g, o) ensures false { OrderExcludesCycle(g, o); }
    }
  }
}
