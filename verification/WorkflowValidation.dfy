/** The visual builder's `detect_cycles` and `validate_workflow`, over connection lists with
    parallel edges and self-loops. */
module WorkflowValidation {
  import opened Graphs
  import opened DepthFirst

  datatype Connection = Connection(fromNode: Node, toNode: Node, kind: string)

  const SEQUENTIAL := "sequential"
  const PARALLEL := "parallel"

  /** Some sequential connection leads from `a` to `b`. */
  predicate SequentialStep(conns: seq<Connection>, a: Node, b: Node) {
    Connection(a, b, SEQUENTIAL) in conns
  }

  /** Adjacency lists of the sequential connections, and their keys in insertion order. */
  function SequentialGraph(conns: seq<Connection>): Graph {
    if conns == [] then map[]
    else
      var g, last := SequentialGraph(conns[..|conns| - 1]), conns[|conns| - 1];
      if last.kind == SEQUENTIAL then g[last.fromNode := Succs(g, last.fromNode) + [last.toNode]] else g
  }

  function KeyOrder(conns: seq<Connection>): seq<Node> {
    if conns == [] then []
    else
      var keys, last := KeyOrder(conns[..|conns| - 1]), conns[|conns| - 1];
      if last.kind == SEQUENTIAL && last.fromNode !in keys then keys + [last.fromNode] else keys
  }

  lemma {:induction false} GraphIsSequentialPart(conns: seq<Connection>)
    ensures Enumerates(KeyOrder(conns), SequentialGraph(conns))
    ensures forall a, b :: Step(SequentialGraph(conns), a, b) <==> SequentialStep(conns, a, b)
    decreases |conns|
  {
    if conns != [] {
      var front, last := conns[..|conns| - 1], conns[|conns| - 1];
      assert conns == front + [last];
      GraphIsSequentialPart(front);
      var g, h := SequentialGraph(front), SequentialGraph(conns);
      forall a, b ensures Step(h, a, b) <==> SequentialStep(conns, a, b) {
        assert Step(g, a, b) <==> SequentialStep(front, a, b);
        if last.kind == SEQUENTIAL && a == last.fromNode {
          assert Succs(h, a) == Succs(g, a) + [last.toNode];
        } else {
          assert Succs(h, a) == Succs(g, a);
        }
      }
    }
  }

  /** The variables that `detect_cycles`'s inner `dfs` closes over. */
  class CycleDetector {
    const graph: Graph
    var visited: set<Node>
    var recStack: set<Node>
    var path: seq<Node>
    var cycles: seq<seq<Node>>

    constructor (graph: Graph)
      ensures this.graph == graph && State() == FRESH
    {
      this.graph := graph;
      visited, recStack, path, cycles := {}, {}, [], [];
    }

    function State(): Search
      reads this
    {
      Search(visited, recStack, path, cycles)
    }

    method Dfs(node: Node) returns (found: bool)
      requires Synced(State()) && node in Nodes(graph) && node !in visited
      modifies this
      ensures (found, State()) == Visit(graph, node, old(State()))
      decreases Nodes(graph) - visited
    {
      ghost var goal := VisitTurn(graph, node, State());
      ghost var inside, s := Enter(State(), node), Enter(State(), node);
      visited := visited + {node};
      recStack := recStack + {node};
      path := path + [node];
      var succs := Succs(graph, node);
      for i := 0 to |succs|
        invariant State() == s && inside.visited <= s.visited && Ahead(graph, node, i, s, goal)
      {
        var neighbor := succs[i];
        ScanTurn(graph, node, i, s, goal);
        if neighbor !in visited {
          s := Visit(graph, neighbor, s).1;
          found := Dfs(neighbor);
          if found { return; }
        } else if neighbor in recStack {
          var start := IndexOf(path, neighbor);
          cycles := cycles + [path[start..] + [neighbor]];
          return true;
        }
      }
      ScanEnds(graph, node, s, goal);
      path := path[..|path| - 1];
      recStack := recStack - {node};
      return false;
    }
  }

  function Reports(conns: seq<Connection>): seq<seq<Node>> {
    GraphIsSequentialPart(conns);
    SearchFrom(SequentialGraph(conns), KeyOrder(conns), FRESH).cycles
  }

  /** `detect_cycles` reports nothing exactly when the sequential connections have no
      closed walk, and its first report is a simple cycle of them. */
  method DetectCycles(conns: seq<Connection>) returns (cycles: seq<seq<Node>>)
    ensures cycles == [] <==> !Cyclic(SequentialGraph(conns))
    ensures cycles != [] ==> SimpleCycle(SequentialGraph(conns), cycles[0])
    ensures cycles == Reports(conns)
  {
    var graph: Graph := map[];
    var keys: seq<Node> := [];
    for i := 0 to |conns|
      invariant graph == SequentialGraph(conns[..i]) && keys == KeyOrder(conns[..i])
    {
      var conn := conns[i];
      assert conns[..i + 1][..i] == conns[..i];
      GraphIsSequentialPart(conns[..i]);
      if conn.kind == SEQUENTIAL {
        if conn.fromNode !in graph {
          graph := graph[conn.fromNode := []];
          keys := keys + [conn.fromNode];
        }
        graph := graph[conn.fromNode := graph[conn.fromNode] + [conn.toNode]];
      }
    }
    assert conns[..|conns|] == conns;
    GraphIsSequentialPart(conns);
    var detector := new CycleDetector(graph);
    for i := 0 to |keys|
      invariant detector.graph == graph && Synced(detector.State())
      invariant SearchFrom(graph, keys, FRESH) == SearchFrom(graph, keys[i..], detector.State())
    {
      assert keys[i..][0] == keys[i] && keys[i..][1..] == keys[i + 1..];
      if keys[i] !in detector.visited {
        var _ := detector.Dfs(keys[i]);
      }
    }
    SearchDecides(graph, keys);
    return detector.cycles;
  }

  // The whole validator

  datatype NodeRef = NodeRef(id: Node, agentId: string)

  datatype ValidationError =
    | MissingAgent(node: Node, agentId: string)
    | MissingFromNode(index: nat, node: Node)
    | MissingToNode(index: nat, node: Node)
    | InvalidKind(index: nat, kind: string)
    | CycleDetected(cycle: seq<Node>)

  predicate ConnectionOk(ids: set<Node>, c: Connection) {
    c.fromNode in ids && c.toNode in ids && c.kind in {SEQUENTIAL, PARALLEL}
  }

  /** The errors of the nodes, in node order. */
  function AgentErrors(nodes: seq<NodeRef>, agents: set<string>): seq<ValidationError> {
    if nodes == [] then []
    else
      var last := nodes[|nodes| - 1];
      AgentErrors(nodes[..|nodes| - 1], agents) +
      if last.agentId in agents then [] else [MissingAgent(last.id, last.agentId)]
  }

  lemma {:induction false} AgentErrorsMean(nodes: seq<NodeRef>, agents: set<string>)
    ensures forall e :: e in AgentErrors(nodes, agents) <==>
              e.MissingAgent? && e.agentId !in agents && NodeRef(e.node, e.agentId) in nodes
    decreases |nodes|
  {
    if nodes != [] {
      AgentErrorsMean(nodes[..|nodes| - 1], agents);
      assert nodes == nodes[..|nodes| - 1] + [nodes[|nodes| - 1]];
    }
  }

  method ValidateAgentReferences(nodes: seq<NodeRef>, agents: set<string>) returns (errors: seq<ValidationError>)
    ensures errors == AgentErrors(nodes, agents)
  {
    errors := [];
    for i := 0 to |nodes|
      invariant errors == AgentErrors(nodes[..i], agents)
    {
      var node := nodes[i];
      assert nodes[..i + 1][..i] == nodes[..i];
      if node.agentId !in agents { errors := errors + [MissingAgent(node.id, node.agentId)]; }
    }
    assert nodes[..|nodes|] == nodes;
  }

  /** What is wrong with the connection at index `i`. */
  ghost predicate Blames(e: ValidationError, ids: set<Node>, conns: seq<Connection>, i: nat) {
    i < |conns| && match e
      case MissingFromNode(k, n) => k == i && conns[i].fromNode == n && n !in ids
      case MissingToNode(k, n) => k == i && conns[i].toNode == n && n !in ids
      case InvalidKind(k, t) => k == i && conns[i].kind == t && t !in {SEQUENTIAL, PARALLEL}
      case _ => false
  }

  /** The errors of the connection at index `i`: ends first, then the type. */
  function Faults(ids: set<Node>, c: Connection, i: nat): seq<ValidationError> {
    (if c.fromNode in ids then [] else [MissingFromNode(i, c.fromNode)]) +
    (if c.toNode in ids then [] else [MissingToNode(i, c.toNode)]) +
    (if c.kind in {SEQUENTIAL, PARALLEL} then [] else [InvalidKind(i, c.kind)])
  }

  function ConnectionErrors(ids: set<Node>, conns: seq<Connection>): seq<ValidationError> {
    if conns == [] then []
    else
      var i := |conns| - 1;
      ConnectionErrors(ids, conns[..i]) + Faults(ids, conns[i], i)
  }

  lemma {:induction false} ConnectionErrorsMean(ids: set<Node>, conns: seq<Connection>)
    ensures forall e :: e in ConnectionErrors(ids, conns) <==> exists i :: Blames(e, ids, conns, i)
    decreases |conns|
  {
    if conns != [] {
      var n := |conns| - 1;
      var front := conns[..n];
      ConnectionErrorsMean(ids, front);
      forall e ensures e in ConnectionErrors(ids, conns) <==> exists i :: Blames(e, ids, conns, i) {
        FaultsMean(e, ids, conns, n);
        assert forall i | 0 <= i < n :: Blames(e, ids, conns, i) <==> Blames(e, ids, front, i);
        assert e in ConnectionErrors(ids, conns) <==>
               e in ConnectionErrors(ids, front) || e in Faults(ids, conns[n], n);
      }
    }
  }

  lemma FaultsMean(e: ValidationError, ids: set<Node>, conns: seq<Connection>, i: nat)
    requires i < |conns|
    ensures e in Faults(ids, conns[i], i) <==> Blames(e, ids, conns, i)
  {
  }

  method ValidateConnections(ids: set<Node>, conns: seq<Connection>) returns (errors: seq<ValidationError>)
    ensures errors == ConnectionErrors(ids, conns)
  {
    errors := [];
    for i := 0 to |conns|
      invariant errors == ConnectionErrors(ids, conns[..i])
    {
      var conn := conns[i];
      assert conns[..i + 1][..i] == conns[..i];
      ghost var before := errors;
      if conn.fromNode !in ids { errors := errors + [MissingFromNode(i, conn.fromNode)]; }
      if conn.toNode !in ids { errors := errors + [MissingToNode(i, conn.toNode)]; }
      if conn.kind !in {SEQUENTIAL, PARALLEL} { errors := errors + [InvalidKind(i, conn.kind)]; }
      assert errors == before + Faults(ids, conn, i);
    }
    assert conns[..|conns|] == conns;
  }

  method CycleErrors(cycles: seq<seq<Node>>) returns (errors: seq<ValidationError>)
    ensures |errors| == |cycles| && forall i | 0 <= i < |cycles| :: errors[i] == CycleDetected(cycles[i])
  {
    errors := [];
    for i := 0 to |cycles|
      invariant |errors| == i && forall j | 0 <= j < i :: errors[j] == CycleDetected(cycles[j])
    {
      errors := errors + [CycleDetected(cycles[i])];
    }
  }

  method DisconnectedNodes(ids: set<Node>, conns: seq<Connection>) returns (disconnected: set<Node>)
    ensures forall id :: id in disconnected <==>
              id in ids && forall c <- conns :: c.fromNode != id && c.toNode != id
  {
    var connected: set<Node> := {};
    for i := 0 to |conns|
      invariant forall id :: id in connected <==>
                  exists k | 0 <= k < i :: id == conns[k].fromNode || id == conns[k].toNode
    {
      connected := connected + {conns[i].fromNode, conns[i].toNode};
    }
    disconnected := ids - connected;
  }

  function Ids(nodes: seq<NodeRef>): set<Node> {
    set n | n in nodes :: n.id
  }

  ghost predicate AgentsResolve(nodes: seq<NodeRef>, agents: set<string>) {
    forall n <- nodes :: n.agentId in agents
  }

  ghost predicate ConnectionsResolve(nodes: seq<NodeRef>, conns: seq<Connection>) {
    forall c <- conns :: ConnectionOk(Ids(nodes), c)
  }

  function Detected(cycles: seq<seq<Node>>): seq<ValidationError> {
    seq(|cycles|, i requires 0 <= i < |cycles| => CycleDetected(cycles[i]))
  }

  /** The report on a workflow with the given cycles, in order: agents, connections, cycles. */
  function ReportWith(nodes: seq<NodeRef>, conns: seq<Connection>, agents: set<string>, cycles: seq<seq<Node>>):
    seq<ValidationError>
  {
    AgentErrors(nodes, agents) + (ConnectionErrors(Ids(nodes), conns) + Detected(cycles))
  }

  function Report(nodes: seq<NodeRef>, conns: seq<Connection>, agents: set<string>): seq<ValidationError> {
    ReportWith(nodes, conns, agents, Reports(conns))
  }

  /** What each error in the report stands for. */
  ghost predicate Deserved(e: ValidationError, nodes: seq<NodeRef>, conns: seq<Connection>, agents: set<string>,
                           cycles: seq<seq<Node>>) {
    match e
    case MissingAgent(node, agentId) => NodeRef(node, agentId) in nodes && agentId !in agents
    case CycleDetected(cycle) => cycle in cycles
    case _ => exists i :: Blames(e, Ids(nodes), conns, i)
  }

  lemma DetectedMean(cycles: seq<seq<Node>>)
    ensures forall e :: e in Detected(cycles) <==> e.CycleDetected? && e.cycle in cycles
  {
    var errors := Detected(cycles);
    forall c | c in cycles ensures CycleDetected(c) in errors {
      var i :| 0 <= i < |cycles| && cycles[i] == c;
      assert errors[i] == CycleDetected(c);
    }
  }

  /** A report holds exactly the errors that are deserved. */
  lemma ReportIsDeserved(nodes: seq<NodeRef>, conns: seq<Connection>, agents: set<string>, cycles: seq<seq<Node>>)
    ensures forall e :: e in ReportWith(nodes, conns, agents, cycles) <==> Deserved(e, nodes, conns, agents, cycles)
  {
    AgentErrorsMean(nodes, agents);
    ConnectionErrorsMean(Ids(nodes), conns);
    DetectedMean(cycles);
  }

  /** A workflow has no errors exactly when all its references resolve and its sequential
      part has no closed walk. */
  lemma EmptyReport(nodes: seq<NodeRef>, conns: seq<Connection>, agents: set<string>)
    ensures Report(nodes, conns, agents) == [] <==>
            AgentsResolve(nodes, agents) && ConnectionsResolve(nodes, conns) && !Cyclic(SequentialGraph(conns))
  {
    NoAgentErrors(nodes, agents);
    NoConnectionErrors(Ids(nodes), conns);
    GraphIsSequentialPart(conns);
    SearchDecides(SequentialGraph(conns), KeyOrder(conns));
    assert Detected(Reports(conns)) == [] <==> Reports(conns) == [];
  }

  lemma NoAgentErrors(nodes: seq<NodeRef>, agents: set<string>)
    ensures AgentErrors(nodes, agents) == [] <==> AgentsResolve(nodes, agents)
  {
    AgentErrorsMean(nodes, agents);
    var errors := AgentErrors(nodes, agents);
    if n :| n in nodes && n.agentId !in agents { assert MissingAgent(n.id, n.agentId) in errors; }
    if errors != [] { assert errors[0] in errors; }
  }

  lemma {:induction false} NoConnectionErrors(ids: set<Node>, conns: seq<Connection>)
    ensures ConnectionErrors(ids, conns) == [] <==> forall c <- conns :: ConnectionOk(ids, c)
    decreases |conns|
  {
    if conns != [] {
      var n := |conns| - 1;
      NoConnectionErrors(ids, conns[..n]);
      assert conns == conns[..n] + [conns[n]];
      assert Faults(ids, conns[n], n) == [] <==> ConnectionOk(ids, conns[n]);
    }
  }

  /** `validate_workflow`; disconnected nodes only warn. */
  method ValidateWorkflow(nodes: seq<NodeRef>, conns: seq<Connection>, agents: set<string>)
    returns (isValid: bool, errors: seq<ValidationError>, disconnected: set<Node>)
    ensures errors == Report(nodes, conns, agents)
    ensures isValid <==>
              AgentsResolve(nodes, agents) && ConnectionsResolve(nodes, conns) && !Cyclic(SequentialGraph(conns))
    ensures forall id :: id in disconnected <==>
              id in Ids(nodes) && forall c <- conns :: c.fromNode != id && c.toNode != id
  {
    var missing := ValidateAgentReferences(nodes, agents);
    var wrong := ValidateConnections(Ids(nodes), conns);
    var cycles := DetectCycles(conns);
    var cyclic := CycleErrors(cycles);
    assert cyclic == Detected(cycles);
    errors := missing + (wrong + cyclic);
    isValid := |errors| == 0;
    EmptyReport(nodes, conns, agents);
    disconnected := DisconnectedNodes(Ids(nodes), conns);
  }
}
