/** `TopologyConfig.validate_topology` with its breadth-first reachability and its
    depth-first cycle check, each proved against a meaning that mentions only walks. */
module Topology {
  import opened Graphs
  import opened DepthFirst

  datatype Kind = Single | Sequential | Tree | Graph

  datatype Edge = Edge(fromNode: Node, toNode: Node)

  datatype Config = Config(
    kind: Kind, nodes: seq<Node>, edges: seq<Edge>, entry: Node, hasTermination: bool)

  datatype Error =
    | Unreachable(lost: set<Node>)
    | SingleNodeCount(nodes: nat)
    | SingleEdgeCount(edges: nat)
    | SequentialEdgeCount(edges: nat, nodes: nat)
    | SequentialCycle
    | TreeCycle
    | TreeParents(node: Node, degree: nat)
    | UnboundedGraphCycle

  /** What the field validators enforce; distinct node ids are not among it. */
  ghost predicate WellFormed(c: Config) {
    c.entry in c.nodes && forall e <- c.edges :: e.fromNode in c.nodes && e.toNode in c.nodes
  }

  function Targets(edges: seq<Edge>, n: Node): seq<Node> {
    if edges == [] then []
    else
      var front, last := edges[..|edges| - 1], edges[|edges| - 1];
      Targets(front, n) + if last.fromNode == n then [last.toNode] else []
  }

  function Adjacency(c: Config): Graphs.Graph {
    map n | n in c.nodes :: Targets(c.edges, n)
  }

  function InDegree(edges: seq<Edge>, n: Node): nat {
    if edges == [] then 0
    else
      var front, last := edges[..|edges| - 1], edges[|edges| - 1];
      InDegree(front, n) + if last.toNode == n then 1 else 0
  }

  /** Node ids in order of first occurrence: the key order of a dict built from them. */
  function Unique(nodes: seq<Node>): (r: seq<Node>)
    ensures NoDup(r) && forall n :: n in r <==> n in nodes
    decreases |nodes|
  {
    if nodes == [] then []
    else
      var front := nodes[..|nodes| - 1];
      var last := nodes[|nodes| - 1];
      assert nodes == front + [last];
      if last in front then Unique(front) else Unique(front) + [last]
  }

  function ParentErrors(c: Config, keys: seq<Node>): seq<Error> {
    if keys == [] then []
    else
      var front, last := keys[..|keys| - 1], keys[|keys| - 1];
      var d := InDegree(c.edges, last);
      ParentErrors(c, front) + if last != c.entry && d != 1 then [TreeParents(last, d)] else []
  }

  ghost function Lost(c: Config): set<Node> {
    set n | n in c.nodes && !Reaches(Adjacency(c), c.entry, n)
  }

  ghost function ReachVerdict(c: Config): seq<Error> {
    if c.kind != Single && Lost(c) != {} then [Unreachable(Lost(c))] else []
  }

  ghost function KindVerdict(c: Config): seq<Error> {
    var cyclic := Cyclic(Adjacency(c));
    match c.kind
    case Single =>
      (if |c.nodes| != 1 then [SingleNodeCount(|c.nodes|)] else []) +
      (if c.edges != [] then [SingleEdgeCount(|c.edges|)] else [])
    case Sequential =>
      (if |c.edges| != |c.nodes| - 1 then [SequentialEdgeCount(|c.edges|, |c.nodes|)] else []) +
      (if cyclic then [SequentialCycle] else [])
    case Tree =>
      (if cyclic then [TreeCycle] else []) + ParentErrors(c, Unique(c.nodes))
    case Graph =>
      if cyclic && !c.hasTermination then [UnboundedGraphCycle] else []
  }

  /** The report a configuration deserves, in terms of reachability and closed walks. */
  ghost function Verdict(c: Config): seq<Error> {
    ReachVerdict(c) + KindVerdict(c)
  }

  // What the verdict means

  ghost predicate AllReached(c: Config) {
    forall n | n in c.nodes :: Reaches(Adjacency(c), c.entry, n)
  }

  ghost predicate OneParentEach(c: Config) {
    forall n | n in c.nodes :: n != c.entry ==> InDegree(c.edges, n) == 1
  }

  /** The rule of its kind. */
  ghost predicate Fits(c: Config) {
    match c.kind
    case Single => |c.nodes| == 1 && c.edges == []
    case Sequential => AllReached(c) && |c.edges| == |c.nodes| - 1 && !Cyclic(Adjacency(c))
    case Tree => AllReached(c) && !Cyclic(Adjacency(c)) && OneParentEach(c)
    case Graph => AllReached(c) && (Cyclic(Adjacency(c)) ==> c.hasTermination)
  }

  /** What each error stands for. */
  ghost predicate Deserves(c: Config, e: Error) {
    match e
    case Unreachable(lost) => c.kind != Single && lost != {} &&
      forall n :: n in lost <==> n in c.nodes && !Reaches(Adjacency(c), c.entry, n)
    case SingleNodeCount(n) => c.kind == Single && n == |c.nodes| != 1
    case SingleEdgeCount(n) => c.kind == Single && n == |c.edges| != 0
    case SequentialEdgeCount(m, n) => c.kind == Sequential && m == |c.edges| && n == |c.nodes| && m != n - 1
    case SequentialCycle => c.kind == Sequential && Cyclic(Adjacency(c))
    case TreeCycle => c.kind == Tree && Cyclic(Adjacency(c))
    case TreeParents(n, d) => c.kind == Tree && n in c.nodes && n != c.entry && d == InDegree(c.edges, n) != 1
    case UnboundedGraphCycle => c.kind == Graph && Cyclic(Adjacency(c)) && !c.hasTermination
  }

  lemma {:induction false} ParentErrorsMean(c: Config, keys: seq<Node>)
    ensures forall e :: e in ParentErrors(c, keys) <==>
              e.TreeParents? && e.node in keys && e.node != c.entry && e.degree == InDegree(c.edges, e.node) != 1
    ensures ParentErrors(c, keys) == [] <==> forall n | n in keys :: n != c.entry ==> InDegree(c.edges, n) == 1
    decreases |keys|
  {
    if keys != [] {
      var front, last := keys[..|keys| - 1], keys[|keys| - 1];
      assert keys == front + [last];
      ParentErrorsMean(c, front);
    }
  }

  lemma ReachMeans(c: Config)
    ensures ReachVerdict(c) == [] <==> c.kind == Single || AllReached(c)
    ensures forall e: Error :: e in ReachVerdict(c) <==> e.Unreachable? && Deserves(c, e)
  {
    if c.kind != Single {
      forall n | n in c.nodes && !Reaches(Adjacency(c), c.entry, n) ensures n in Lost(c) {}
      forall e: Error | e.Unreachable? && Deserves(c, e) ensures e in ReachVerdict(c) { assert e.lost == Lost(c); }
    }
  }

  lemma KindMeans(c: Config)
    ensures (c.kind == Single || AllReached(c)) && KindVerdict(c) == [] <==> Fits(c)
  {
    ParentErrorsMean(c, Unique(c.nodes));
  }

  lemma KindHolds(c: Config, e: Error)
    ensures e in KindVerdict(c) <==> !e.Unreachable? && Deserves(c, e)
  {
    var cyclic := Cyclic(Adjacency(c));
    match c.kind
    case Tree =>
      ParentErrorsMean(c, Unique(c.nodes));
      assert KindVerdict(c) == (if cyclic then [TreeCycle] else []) + ParentErrors(c, Unique(c.nodes));
    case _ =>
  }

  /** The verdict is empty exactly when the configuration meets the rule of its kind, and holds
      exactly the errors that it deserves. */
  lemma VerdictMeans(c: Config)
    ensures Verdict(c) == [] <==> Fits(c)
    ensures forall e :: e in Verdict(c) <==> Deserves(c, e)
  {
    ReachMeans(c);
    KindMeans(c);
    assert Verdict(c) == [] <==> ReachVerdict(c) == [] && KindVerdict(c) == [];
    forall e ensures e in Verdict(c) <==> Deserves(c, e) { KindHolds(c, e); }
  }

  lemma {:induction false} ClosedUnderSteps(g: Graphs.Graph, s: set<Node>, p: seq<Node>)
    requires IsWalk(g, p) && p[0] in s
    requires forall n, m | n in s && m in Succs(g, n) :: m in s
    ensures p[|p| - 1] in s
    decreases |p|
  {
    if |p| > 1 {
      assert Step(g, p[0], p[1]);
      var q := p[1..];
      forall i | 0 <= i < |q| - 1 ensures Step(g, q[i], q[i + 1]) { assert Step(g, p[i + 1], p[i + 2]); }
      ClosedUnderSteps(g, s, q);
    }
  }

  /** The search state: `queued` lists, once each, the nodes visited so far. */
  ghost predicate Frontier(g: Graphs.Graph, start: Node, visited: set<Node>, queued: seq<Node>) {
    && NoDup(queued) && (forall n :: n in queued <==> n in visited)
    && (forall n | n in visited :: Reaches(g, start, n))
  }

  lemma FrontierGrows(g: Graphs.Graph, start: Node, visited: set<Node>, queued: seq<Node>, n: Node, m: Node)
    requires Frontier(g, start, visited, queued)
    requires n in visited && Step(g, n, m) && m !in visited
    ensures Frontier(g, start, visited + {m}, queued + [m])
  {
    var p :| Connects(g, p, start, n);
    Extend(g, p, start, n, m);
  }

  /** `_get_reachable_nodes`. `queued` is everything ever appended to the queue. */
  method ReachableNodes(start: Node, g: Graphs.Graph) returns (visited: set<Node>, ghost queued: seq<Node>)
    ensures forall n :: n in visited <==> Reaches(g, start, n)
    ensures NoDup(queued) && forall n :: n in queued <==> n in visited
  {
    visited := {start};
    var queue := [start];
    queued := [start];
    ghost var served: set<Node> := {};
    ghost var all := Nodes(g) + {start};
    assert Connects(g, [start], start, start);
    while queue != []
      invariant |queue| <= |queued| && queue == queued[|queued| - |queue|..]
      invariant Frontier(g, start, visited, queued)
      invariant forall n | n in visited :: n in served || n in queue
      invariant forall n, m | n in served && m in Succs(g, n) :: m in visited
      invariant start in visited && visited <= all
      decreases all - visited, |queue|
    {
      var current := queue[0];
      queue := queue[1..];
      assert current in queued;
      visited, queue, queued := EnqueueNew(g, start, current, visited, queue, queued);
      served := served + {current};
    }
    forall n | Reaches(g, start, n) ensures n in visited {
      var p :| Connects(g, p, start, n);
      ClosedUnderSteps(g, visited, p);
    }
  }

  /** The inner loop: visit and queue each neighbour not seen before. */
  method EnqueueNew(g: Graphs.Graph, start: Node, current: Node,
      visited: set<Node>, queue: seq<Node>, ghost queued: seq<Node>)
    returns (visited': set<Node>, queue': seq<Node>, ghost queued': seq<Node>)
    requires Frontier(g, start, visited, queued) && current in visited
    requires |queue| <= |queued| && queue == queued[|queued| - |queue|..]
    ensures Frontier(g, start, visited', queued')
    ensures |queue'| <= |queued'| && queue' == queued'[|queued'| - |queue'|..]
    ensures queue <= queue' && visited' == visited + set m | m in Succs(g, current)
    ensures forall n | n in visited' :: n in visited || n in queue'
    ensures visited' == visited ==> queue' == queue
  {
    visited', queue', queued' := visited, queue, queued;
    var succs := Succs(g, current);
    for i := 0 to |succs|
      invariant Frontier(g, start, visited', queued')
      invariant |queue'| <= |queued'| && queue' == queued'[|queued'| - |queue'|..]
      invariant queue <= queue' && visited' == visited + set m | m in succs[..i]
      invariant forall n | n in visited' :: n in visited || n in queue'
      invariant visited' == visited ==> queue' == queue
    {
      var neighbor := succs[i];
      assert succs[..i + 1] == succs[..i] + [neighbor];
      if neighbor !in visited' {
        FrontierGrows(g, start, visited', queued', current, neighbor);
        visited' := visited' + {neighbor};
        queue' := queue' + [neighbor];
        queued' := queued' + [neighbor];
      }
    }
    assert succs[..|succs|] == succs;
  }

  /** The variables that `_has_cycle`'s inner `dfs` closes over. It keeps no path; the
      ghost argument is the search of which these two sets are a part. */
  class CycleCheck {
    const g: Graphs.Graph
    var visited: set<Node>
    var recStack: set<Node>

    constructor (g: Graphs.Graph)
      ensures this.g == g && visited == {} && recStack == {}
    {
      this.g := g;
      visited, recStack := {}, {};
    }

    ghost predicate Tracks(s: Search)
      reads this
    {
      visited == s.visited && recStack == s.recStack
    }

    method Dfs(node: Node, ghost s: Search) returns (found: bool, ghost r: Search)
      requires Synced(s) && Tracks(s) && node in Nodes(g) && node !in visited
      modifies this
      ensures (found, r) == Visit(g, node, s) && Tracks(r)
      decreases Nodes(g) - s.visited
    {
      ghost var goal := VisitTurn(g, node, s);
      r := Enter(s, node);
      visited := visited + {node};
      recStack := recStack + {node};
      var succs := Succs(g, node);
      for i := 0 to |succs|
        invariant Tracks(r) && Enter(s, node).visited <= r.visited && Ahead(g, node, i, r, goal)
      {
        ScanTurn(g, node, i, r, goal);
        if succs[i] !in visited {
          found, r := Dfs(succs[i], r);
          if found { return; }
        } else if succs[i] in recStack {
          found, r := true, goal.1;
          return;
        }
      }
      ScanEnds(g, node, r, goal);
      recStack := recStack - {node};
      found, r := false, Leave(r, node);
    }
  }

  /** `_has_cycle`: decides whether the graph has a closed walk. */
  method HasCycle(keys: seq<Node>, g: Graphs.Graph) returns (b: bool)
    requires Enumerates(keys, g)
    ensures b <==> Cyclic(g)
  {
    SearchDecides(g, keys);
    var check := new CycleCheck(g);
    ghost var s := FRESH;
    for i := 0 to |keys|
      invariant check.g == g && Synced(s) && check.Tracks(s) && s.cycles == []
      invariant SearchFrom(g, keys, FRESH) == SearchFrom(g, keys[i..], s)
    {
      assert keys[i..][0] == keys[i] && keys[i..][1..] == keys[i + 1..];
      if keys[i] !in check.visited {
        var found: bool;
        found, s := check.Dfs(keys[i], s);
        if found { return true; }
      }
    }
    return false;
  }

  lemma {:induction false} Enumeration(s: set<Node>) returns (keys: seq<Node>)
    ensures forall n :: n in keys <==> n in s
    decreases s
  {
    keys := [];
    if s != {} {
      var n :| n in s;
      var rest := Enumeration(s - {n});
      keys := [n] + rest;
    }
  }

  lemma AcyclicIffOrdered(g: Graphs.Graph)
    ensures !Cyclic(g) <==> exists order :: TopologicalOrder(g, order)
  {
    var keys := Enumeration(g.Keys);
    SearchDecides(g, keys);
  }

  method BuildAdjacency(c: Config) returns (g: Graphs.Graph)
    requires WellFormed(c)
    ensures g == Adjacency(c)
  {
    g := map n | n in c.nodes :: [];
    for k := 0 to |c.edges|
      invariant forall n :: n in g <==> n in c.nodes
      invariant forall n | n in g :: g[n] == Targets(c.edges[..k], n)
    {
      var e := c.edges[k];
      assert e in c.edges && c.edges[..k + 1][..k] == c.edges[..k];
      g := g[e.fromNode := g[e.fromNode] + [e.toNode]];
    }
    assert c.edges[..|c.edges|] == c.edges;
  }

  method CountParents(c: Config) returns (degrees: map<Node, nat>)
    requires WellFormed(c)
    ensures degrees == map n | n in c.nodes :: InDegree(c.edges, n)
  {
    degrees := map n | n in c.nodes :: 0;
    for k := 0 to |c.edges|
      invariant forall n :: n in degrees <==> n in c.nodes
      invariant forall n | n in degrees :: degrees[n] == InDegree(c.edges[..k], n)
    {
      var e := c.edges[k];
      assert e in c.edges && c.edges[..k + 1][..k] == c.edges[..k];
      degrees := degrees[e.toNode := degrees[e.toNode] + 1];
    }
    assert c.edges[..|c.edges|] == c.edges;
  }

  method CheckParents(c: Config) returns (errors: seq<Error>)
    requires WellFormed(c)
    ensures errors == ParentErrors(c, Unique(c.nodes))
  {
    var degrees := CountParents(c);
    var keys := Unique(c.nodes);
    errors := [];
    for i := 0 to |keys|
      invariant errors == ParentErrors(c, keys[..i])
    {
      var node := keys[i];
      assert node in c.nodes && keys[..i + 1][..i] == keys[..i];
      if node != c.entry && degrees[node] != 1 {
        errors := errors + [TreeParents(node, degrees[node])];
      }
    }
    assert keys[..|keys|] == keys;
  }

  method CheckReachable(c: Config, g: Graphs.Graph) returns (errors: seq<Error>)
    requires WellFormed(c) && g == Adjacency(c)
    ensures errors == ReachVerdict(c)
  {
    errors := [];
    if c.kind != Single {
      var reachable, _ := ReachableNodes(c.entry, g);
      var unreachable := g.Keys - reachable;
      assert unreachable == Lost(c);
      if unreachable != {} { errors := [Unreachable(unreachable)]; }
    }
  }

  method CheckKind(c: Config, g: Graphs.Graph) returns (errors: seq<Error>)
    requires WellFormed(c) && g == Adjacency(c)
    ensures errors == KindVerdict(c)
  {
    errors := [];
    var keys := Unique(c.nodes);
    match c.kind
    case Single =>
      if |c.nodes| != 1 { errors := errors + [SingleNodeCount(|c.nodes|)]; }
      if |c.edges| > 0 { errors := errors + [SingleEdgeCount(|c.edges|)]; }
    case Sequential =>
      if |c.edges| != |c.nodes| - 1 { errors := errors + [SequentialEdgeCount(|c.edges|, |c.nodes|)]; }
      var cyclic := HasCycle(keys, g);
      if cyclic { errors := errors + [SequentialCycle]; }
    case Tree =>
      var cyclic := HasCycle(keys, g);
      if cyclic { errors := errors + [TreeCycle]; }
      var parents := CheckParents(c);
      errors := errors + parents;
    case Graph =>
      var cyclic := HasCycle(keys, g);
      if cyclic && !c.hasTermination { errors := errors + [UnboundedGraphCycle]; }
  }

  /** `validate_topology`: no error exactly when the rule of its kind is met. */
  method ValidateTopology(c: Config) returns (errors: seq<Error>)
    requires WellFormed(c)
    ensures errors == Verdict(c)
    ensures errors == [] <==> Fits(c)
    ensures forall e :: e in errors <==> Deserves(c, e)
  {
    var g := BuildAdjacency(c);
    errors := CheckReachable(c, g);
    var more := CheckKind(c, g);
    errors := errors + more;
    VerdictMeans(c);
  }
}
