/** The converse of `AnyOrder`: a graph that is not mutual has an order of its connections in
    which `detect_cycles` reports a list that is no cycle. The order puts a few connections
    first, so that the search runs round two rings and then steps back onto them. */
module ReportOrders {
  import opened Graphs
  import opened DepthFirst
  import opened WorkflowValidation
  import opened LaterReports
  import opened AnyOrder

  // A search that follows first neighbours

  /** Where a chain goes on after its node at `i`. */
  function After(q: seq<Node>, next: Node, i: nat): Node
    requires i < |q|
  {
    if i + 1 < |q| then q[i + 1] else next
  }

  /** The first neighbour of each node of the chain is the node after it. */
  ghost predicate Leads(g: Graph, q: seq<Node>, next: Node) {
    forall i | 0 <= i < |q| :: Succs(g, q[i]) != [] && Succs(g, q[i])[0] == After(q, next, i)
  }

  /** The search after it has run along a chain and hit `next`. */
  function Chased(s: Search, q: seq<Node>, next: Node): Search
    requires next in s.path + q
  {
    Search(s.visited + Elems(q), s.recStack + Elems(q), s.path + q, s.cycles + [Loop(s.path + q, next)])
  }

  ghost predicate Unseen(q: seq<Node>, s: Search) {
    NoDup(q) && forall n <- q :: n !in s.visited
  }

  lemma FirstHits(g: Graph, node: Node, s: Search)
    requires node in Nodes(g) && node !in s.visited && Synced(s)
    requires Succs(g, node) != [] && Succs(g, node)[0] in Enter(s, node).path
    ensures Visit(g, node, s) == (true, Chased(s, [node], Succs(g, node)[0]))
  {
    var goal := VisitTurn(g, node, s);
    ScanTurn(g, node, 0, Enter(s, node), goal);
    assert Elems([node]) == {node};
  }

  lemma FirstPasses(g: Graph, node: Node, s: Search)
    requires node in Nodes(g) && node !in s.visited && Synced(s) && Succs(g, node) != []
    requires var m := Succs(g, node)[0]; m in Nodes(g) && m !in Enter(s, node).visited && Visit(g, m, Enter(s, node)).0
    ensures Visit(g, node, s) == Visit(g, Succs(g, node)[0], Enter(s, node))
  {
    var goal := VisitTurn(g, node, s);
    ScanTurn(g, node, 0, Enter(s, node), goal);
  }

  lemma ChasedOn(s: Search, q: seq<Node>, next: Node)
    requires |q| > 1 && next in s.path + q && Synced(s) && q[0] !in s.visited
    ensures next in Enter(s, q[0]).path + q[1..] && Chased(Enter(s, q[0]), q[1..], next) == Chased(s, q, next)
  {
    assert Enter(s, q[0]).path + q[1..] == s.path + q;
    assert Elems(q) == {q[0]} + Elems(q[1..]);
  }

  lemma UnseenOn(s: Search, q: seq<Node>)
    requires |q| > 1 && Synced(s) && Unseen(q, s)
    ensures q[0] !in s.visited && Unseen(q[1..], Enter(s, q[0]))
  {
    assert q[0] in q;
    forall n | n in q[1..] ensures n !in Enter(s, q[0]).visited {
      var j :| 0 <= j < |q[1..]| && q[1..][j] == n;
      assert q[j + 1] == n && q[j + 1] in q && q[0] != q[j + 1];
    }
  }

  lemma {:induction false} FollowChain(g: Graph, q: seq<Node>, next: Node, s: Search)
    requires q != [] && Unseen(q, s) && Synced(s) && Leads(g, q, next) && next in s.path + q
    requires forall n <- q :: n in Nodes(g)
    ensures q[0] in Nodes(g) && q[0] !in s.visited && Visit(g, q[0], s) == (true, Chased(s, q, next))
    ensures Synced(Chased(s, q, next))
    decreases |q|
  {
    assert q[0] in q && After(q, next, 0) == Succs(g, q[0])[0];
    if |q| == 1 {
      assert q == [q[0]];
      FirstHits(g, q[0], s);
    } else {
      LeadsOn(g, q, next);
      UnseenOn(s, q);
      ChasedOn(s, q, next);
      assert forall n <- q[1..] :: n in q;
      FollowChain(g, q[1..], next, Enter(s, q[0]));
      FirstPasses(g, q[0], s);
    }
  }

  lemma LeadsOn(g: Graph, q: seq<Node>, next: Node)
    requires |q| > 1 && Leads(g, q, next) && NoDup(q)
    ensures Leads(g, q[1..], next) && NoDup(q[1..])
  {
    forall i | 0 <= i < |q[1..]|
      ensures Succs(g, q[1..][i]) != [] && Succs(g, q[1..][i])[0] == After(q[1..], next, i)
    {
      assert Succs(g, q[i + 1])[0] == After(q, next, i + 1);
    }
  }

  lemma {:induction false} SkipVisited(g: Graph, a: seq<Node>, keys: seq<Node>, s: Search)
    requires (forall k <- a + keys :: k in g) && Synced(s) && forall n <- a :: n in s.visited
    ensures SearchFrom(g, a + keys, s) == SearchFrom(g, keys, s)
    decreases |a|
  {
    if a == [] {
      assert a + keys == keys;
    } else {
      assert (a + keys)[1..] == a[1..] + keys && (a + keys)[0] == a[0];
      SkipVisited(g, a[1..], keys, s);
    }
  }

  /** The outer loop over the nodes of a chain. */
  lemma StageRun(g: Graph, q: seq<Node>, next: Node, keys: seq<Node>, s: Search)
    requires q != [] && Unseen(q, s) && Synced(s) && Leads(g, q, next) && next in s.path + q
    requires forall k <- q + keys :: k in g
    ensures Synced(Chased(s, q, next))
    ensures SearchFrom(g, q + keys, s) == SearchFrom(g, keys, Chased(s, q, next))
  {
    KeysOfTail(g, q, keys);
    FollowChain(g, q, next, s);
    VisitFirst(g, q[0], q[1..] + keys, s);
    SkipVisited(g, q[1..], keys, Chased(s, q, next));
  }

  lemma InParts(a: seq<Node>, b: seq<Node>, n: Node)
    ensures n in a + b <==> n in a || n in b
  {
  }

  lemma KeysOfTail(g: Graph, q: seq<Node>, keys: seq<Node>)
    requires q != [] && forall k <- q + keys :: k in g
    ensures q[0] in g && (forall k <- q[1..] + keys :: k in g) && (forall n <- q :: n in Nodes(g))
    ensures q + keys == [q[0]] + (q[1..] + keys) && forall n <- q[1..] :: n in Elems(q)
  {
    forall k | k in q[1..] + keys ensures k in g { InParts(q[1..], keys, k); InParts(q, keys, k); }
    forall n | n in q ensures n in Nodes(g) { InParts(q, keys, n); }
    assert q[0] in q;
    InParts(q, keys, q[0]);
  }

  lemma VisitFirst(g: Graph, key: Node, keys: seq<Node>, s: Search)
    requires key in g && (forall k <- keys :: k in g) && key !in s.visited && Synced(s)
    ensures SearchFrom(g, [key] + keys, s) == SearchFrom(g, keys, Visit(g, key, s).1)
  {
    assert ([key] + keys)[1..] == keys;
  }

  // Connections in front

  function Froms(front: seq<Connection>): seq<Node> {
    seq(|front|, i requires 0 <= i < |front| => front[i].fromNode)
  }

  lemma {:induction false} AppendKeeps(a: seq<Connection>, b: seq<Connection>)
    ensures KeyOrder(a) <= KeyOrder(a + b)
    ensures forall n :: Succs(SequentialGraph(a), n) <= Succs(SequentialGraph(a + b), n)
    decreases |b|
  {
    if b == [] {
      assert a + b == a;
    } else {
      var m := |b| - 1;
      assert (a + b)[..|a + b| - 1] == a + b[..m] && (a + b)[|a + b| - 1] == b[m];
      AppendKeeps(a, b[..m]);
    }
  }

  lemma NewFrom(front: seq<Connection>, m: nat)
    requires m < |front| && NoDup(Froms(front))
    ensures front[m].fromNode !in Froms(front[..m])
  {
    forall i | 0 <= i < m ensures Froms(front[..m])[i] != front[m].fromNode {
      assert Froms(front)[i] != Froms(front)[m];
    }
  }

  ghost predicate Fanned(front: seq<Connection>) {
    NoDup(Froms(front)) && forall c <- front :: c.kind == SEQUENTIAL
  }

  lemma FannedFront(front: seq<Connection>, m: nat)
    requires Fanned(front) && m <= |front|
    ensures Fanned(front[..m]) && Froms(front[..m]) == Froms(front)[..m]
  {
    assert forall c <- front[..m] :: c in front;
    assert Froms(front[..m]) == Froms(front)[..m];
    forall i, j | 0 <= i < j < m ensures Froms(front)[..m][i] != Froms(front)[..m][j] {
      assert Froms(front)[i] != Froms(front)[j];
    }
  }

  /** Connections from distinct nodes make a graph of single edges, with keys in their order. */
  lemma {:induction false} FrontKeys(front: seq<Connection>)
    requires Fanned(front)
    ensures KeyOrder(front) == Froms(front)
    decreases |front|
  {
    if front != [] {
      var m := |front| - 1;
      assert front[m] in front;
      FannedFront(front, m);
      FrontKeys(front[..m]);
      NewFrom(front, m);
    }
  }

  lemma {:induction false} FrontSuccs(front: seq<Connection>, i: nat)
    requires Fanned(front) && i < |front|
    ensures Succs(SequentialGraph(front), front[i].fromNode) == [front[i].toNode]
    decreases |front|
  {
    var m := |front| - 1;
    assert front[m] in front;
    FannedFront(front, m);
    if i < m {
      FrontSuccs(front[..m], i);
      assert Froms(front)[i] != Froms(front)[m];
    } else {
      FrontKeys(front[..m]);
      NewFrom(front, m);
      GraphIsSequentialPart(front[..m]);
    }
  }

  lemma FrontLeads(front: seq<Connection>, rest: seq<Connection>)
    requires Fanned(front)
    ensures Froms(front) <= KeyOrder(front + rest)
    ensures forall i | 0 <= i < |front| :: var next := Succs(SequentialGraph(front + rest), front[i].fromNode);
              next != [] && next[0] == front[i].toNode
  {
    FrontKeys(front);
    AppendKeeps(front, rest);
    forall i | 0 <= i < |front|
      ensures var next := Succs(SequentialGraph(front + rest), front[i].fromNode);
        next != [] && next[0] == front[i].toNode
    {
      FrontSuccs(front, i);
      assert Succs(SequentialGraph(front), front[i].fromNode) <=
             Succs(SequentialGraph(front + rest), front[i].fromNode);
    }
  }

  /** Distinct connections of a list can be put in front of the others. */
  lemma {:induction false} MoveToFront(conns: seq<Connection>, front: seq<Connection>) returns (rest: seq<Connection>)
    requires NoDup(front) && forall c <- front :: c in conns
    ensures multiset(front + rest) == multiset(conns)
    decreases |front|
  {
    if front == [] {
      rest := conns;
      assert front + rest == conns;
    } else {
      assert front[0] in front;
      var i :| 0 <= i < |conns| && conns[i] == front[0];
      var others := conns[..i] + conns[i + 1..];
      assert conns == conns[..i] + ([conns[i]] + conns[i + 1..]);
      forall c | c in front[1..] ensures c in others {
        var j :| 0 <= j < |front[1..]| && front[1..][j] == c;
        assert front[0] != front[j + 1] && front[j + 1] in front && c in conns;
      }
      rest := MoveToFront(others, front[1..]);
      assert front + rest == [front[0]] + (front[1..] + rest);
    }
  }

  // Two rings and a step back

  /** The edges of a ring, or none. */
  function Edges(q: seq<Node>): seq<Connection> {
    seq(|q|, i requires 0 <= i < |q| => Connection(q[i], After(q, q[0], i), SEQUENTIAL))
  }

  function FrontOf(q1: seq<Node>, q2: seq<Node>, r: Node, v: Node): seq<Connection> {
    Edges(q1) + Edges(q2) + [Connection(r, v, SEQUENTIAL)]
  }

  ghost predicate Rings(g: Graph, q1: seq<Node>, q2: seq<Node>, r: Node, v: Node) {
    Ring(g, q1) && (q2 == [] || Ring(g, q2)) && NoDup(q1 + q2 + [r]) && v in q1 && Step(g, r, v)
  }

  lemma EdgesExist(conns: seq<Connection>, q: seq<Node>)
    requires q == [] || Ring(SequentialGraph(conns), q)
    ensures forall c <- Edges(q) :: c in conns && c.kind == SEQUENTIAL
  {
    GraphIsSequentialPart(conns);
    forall c | c in Edges(q) ensures c in conns && c.kind == SEQUENTIAL {
      var i :| 0 <= i < |q| && Edges(q)[i] == c;
      assert Step(SequentialGraph(conns), q[i], After(q, q[0], i));
      assert SequentialStep(conns, c.fromNode, c.toNode);
    }
  }

  lemma FrontIsFanned(conns: seq<Connection>, q1: seq<Node>, q2: seq<Node>, r: Node, v: Node)
    requires Rings(SequentialGraph(conns), q1, q2, r, v)
    ensures var front := FrontOf(q1, q2, r, v);
      Fanned(front) && Froms(front) == q1 + q2 + [r] && NoDup(front) && forall c <- front :: c in conns
  {
    var front := FrontOf(q1, q2, r, v);
    assert Froms(front) == q1 + q2 + [r];
    EdgesExist(conns, q1);
    EdgesExist(conns, q2);
    GraphIsSequentialPart(conns);
    assert SequentialStep(conns, r, v);
    forall i, j | 0 <= i < j < |front| ensures front[i] != front[j] {
      assert Froms(front)[i] != Froms(front)[j];
    }
  }

  /** What the front makes of the first neighbours. */
  ghost predicate LeadsAll(h: Graph, q1: seq<Node>, q2: seq<Node>, r: Node, v: Node)
    requires q1 != []
  {
    Leads(h, q1, q1[0]) && (q2 != [] ==> Leads(h, q2, q2[0])) && Leads(h, [r], v)
  }

  lemma FrontLeadsAll(q1: seq<Node>, q2: seq<Node>, r: Node, v: Node, rest: seq<Connection>)
    requires q1 != [] && Fanned(FrontOf(q1, q2, r, v))
    ensures LeadsAll(SequentialGraph(FrontOf(q1, q2, r, v) + rest), q1, q2, r, v)
  {
    var front := FrontOf(q1, q2, r, v);
    var h := SequentialGraph(front + rest);
    FrontLeads(front, rest);
    forall i | 0 <= i < |q1| ensures Succs(h, q1[i]) != [] && Succs(h, q1[i])[0] == After(q1, q1[0], i) {
      assert front[i] == Edges(q1)[i];
    }
    forall i | 0 <= i < |q2| ensures Succs(h, q2[i]) != [] && Succs(h, q2[i])[0] == After(q2, q2[0], i) {
      assert front[|q1| + i] == Edges(q2)[i];
    }
    assert front[|q1| + |q2|] == Connection(r, v, SEQUENTIAL);
  }

  lemma RingStage(h: Graph, q: seq<Node>, keys: seq<Node>, s: Search) returns (r: Search)
    requires q != [] && Unseen(q, s) && Synced(s) && Leads(h, q, q[0]) && forall k <- q + keys :: k in h
    ensures Synced(r) && r.path == s.path + q && r.visited == s.visited + Elems(q)
    ensures SearchFrom(h, q + keys, s) == SearchFrom(h, keys, r)
  {
    assert q[0] in s.path + q;
    StageRun(h, q, q[0], keys, s);
    r := Chased(s, q, q[0]);
  }

  /** From `r` back onto the path. */
  lemma LastStage(h: Graph, r: Node, v: Node, more: seq<Node>, s: Search)
    requires Synced(s) && r !in s.visited && Leads(h, [r], v) && v in s.path && forall k <- [r] + more :: k in h
    ensures v in s.path + [r] && Loop(s.path + [r], v) in SearchFrom(h, [r] + more, s).cycles
  {
    assert v in s.path + [r] && Unseen([r], s);
    assert forall k <- more :: k in [r] + more;
    StageRun(h, [r], v, more, s);
    var t := Chased(s, [r], v);
    assert t.cycles[|s.cycles|] == Loop(s.path + [r], v) && t.cycles <= SearchFrom(h, more, t).cycles;
  }

  lemma Apart(a: seq<Node>, b: seq<Node>)
    requires NoDup(a + b)
    ensures NoDup(a) && NoDup(b) && forall n <- b :: n !in a
  {
    var c := a + b;
    forall i, j | 0 <= i < j < |a| ensures a[i] != a[j] { assert c[i] != c[j]; }
    forall i, j | 0 <= i < j < |b| ensures b[i] != b[j] { assert c[|a| + i] != c[|a| + j]; }
    forall i, j | 0 <= i < |a| && 0 <= j < |b| ensures a[i] != b[j] { assert c[i] != c[|a| + j]; }
  }

  lemma RingStages(h: Graph, q1: seq<Node>, q2: seq<Node>, keys: seq<Node>) returns (s: Search)
    requires q1 != [] && NoDup(q1 + q2) && Leads(h, q1, q1[0]) && (q2 != [] ==> Leads(h, q2, q2[0]))
    requires forall k <- q1 + (q2 + keys) :: k in h
    ensures Synced(s) && s.path == q1 + q2 && s.visited == Elems(q1) + Elems(q2)
    ensures SearchFrom(h, q1 + (q2 + keys), FRESH) == SearchFrom(h, keys, s)
  {
    Apart(q1, q2);
    assert forall k <- q2 + keys :: k in q1 + (q2 + keys);
    s := RingStage(h, q1, q2 + keys, FRESH);
    assert s.path == q1;
    if q2 != [] {
      s := RingStage(h, q2, keys, s);
    } else {
      assert q2 + keys == keys && q1 + q2 == q1;
    }
  }

  /** The search goes round the first ring, round the second, and from `r` back onto the first. */
  lemma FrontRun(h: Graph, q1: seq<Node>, q2: seq<Node>, r: Node, v: Node, more: seq<Node>)
    requires q1 != [] && NoDup(q1 + q2 + [r]) && v in q1 && LeadsAll(h, q1, q2, r, v)
    requires forall k <- q1 + (q2 + ([r] + more)) :: k in h
    ensures v in q1 + q2 + [r] && Loop(q1 + q2 + [r], v) in SearchFrom(h, q1 + (q2 + ([r] + more)), FRESH).cycles
  {
    Apart(q1 + q2, [r]);
    var s := RingStages(h, q1, q2, [r] + more);
    assert forall k <- [r] + more :: k in q1 + (q2 + ([r] + more));
    assert r in [r];
    assert r !in q1 && r !in q2 by { assert forall n <- q1 + q2 :: n != r; InParts(q1, q2, r); }
    LastStage(h, r, v, more, s);
  }

  /** A loop through the last step of a path, if it is a walk, makes that step an edge. */
  lemma LoopSteps(h: Graph, p: seq<Node>, r: Node, v: Node)
    requires v in p && NoDup(p + [r]) && IsWalk(h, Loop(p + [r], v))
    ensures Step(h, p[|p| - 1], r)
  {
    var k, c := IndexOf(p + [r], v), Loop(p + [r], v);
    Apart(p, [r]);
    PrefixIndex(p, p + [r], v);
    assert c[|p| - 1 - k] == p[|p| - 1] && c[|p| - k] == r;
    assert Step(h, c[|p| - 1 - k], c[|p| - 1 - k + 1]);
  }

  lemma OrderReports(other: seq<Connection>, q1: seq<Node>, q2: seq<Node>, r: Node, v: Node, more: seq<Node>)
    requires q1 != [] && v in q1 && NoDup(q1 + q2 + [r]) && LeadsAll(SequentialGraph(other), q1, q2, r, v)
    requires KeyOrder(other) == q1 + (q2 + ([r] + more))
    ensures v in q1 + q2 + [r] && Loop(q1 + q2 + [r], v) in Reports(other)
  {
    GraphIsSequentialPart(other);
    FrontRun(SequentialGraph(other), q1, q2, r, v, more);
  }

  lemma KeysInFront(q1: seq<Node>, q2: seq<Node>, r: Node, keys: seq<Node>) returns (more: seq<Node>)
    requires q1 + q2 + [r] <= keys
    ensures keys == q1 + (q2 + ([r] + more))
  {
    more := keys[|q1 + q2 + [r]|..];
    assert keys == (q1 + q2 + [r]) + more;
  }

  /** The end of the path leads to `r`. */
  ghost predicate EndLeads(g: Graph, p: seq<Node>, r: Node) {
    p != [] && Step(g, p[|p| - 1], r)
  }

  lemma GoodReport(conns: seq<Connection>, other: seq<Connection>, p: seq<Node>, r: Node, v: Node)
    requires GoodInEveryOrder(conns) && multiset(other) == multiset(conns)
    requires v in p && NoDup(p + [r]) && v in p + [r] && Loop(p + [r], v) in Reports(other)
    ensures EndLeads(SequentialGraph(conns), p, r)
  {
    var c := Loop(p + [r], v);
    assert SimpleCycle(SequentialGraph(other), c);
    LoopSteps(SequentialGraph(other), p, r, v);
    ReorderedSteps(other, conns);
  }

  /** An order of the connections that starts with the two rings and the step back. */
  lemma Arrange(conns: seq<Connection>, q1: seq<Node>, q2: seq<Node>, r: Node, v: Node)
    returns (other: seq<Connection>, more: seq<Node>)
    requires Rings(SequentialGraph(conns), q1, q2, r, v)
    ensures multiset(other) == multiset(conns) && q1 != [] && LeadsAll(SequentialGraph(other), q1, q2, r, v)
    ensures KeyOrder(other) == q1 + (q2 + ([r] + more))
  {
    FrontIsFanned(conns, q1, q2, r, v);
    var rest := MoveToFront(conns, FrontOf(q1, q2, r, v));
    other := FrontOf(q1, q2, r, v) + rest;
    FrontLeads(FrontOf(q1, q2, r, v), rest);
    more := KeysInFront(q1, q2, r, KeyOrder(other));
    FrontLeadsAll(q1, q2, r, v, rest);
  }

  /** If every order is good, whoever leads onto a ring is led to from the end of any ring laid
      on top of it, or of the ring itself. */
  lemma LastAnswers(conns: seq<Connection>, q1: seq<Node>, q2: seq<Node>, r: Node, v: Node)
    requires GoodInEveryOrder(conns) && Rings(SequentialGraph(conns), q1, q2, r, v)
    ensures EndLeads(SequentialGraph(conns), q1 + q2, r)
  {
    var other, more := Arrange(conns, q1, q2, r, v);
    OrderReports(other, q1, q2, r, v, more);
    InParts(q1, q2, v);
    GoodReport(conns, other, q1 + q2, r, v);
  }

  // From all orders to mutuality

  lemma RotateTo(g: Graph, q: seq<Node>, w: Node) returns (e: seq<Node>)
    requires Ring(g, q) && w in q
    ensures Ring(g, e) && e[|e| - 1] == w && forall n :: n in e <==> n in q
  {
    var i: nat :| i < |q| && q[i] == w;
    e := q[i + 1..] + q[..i + 1];
    var m := |q| - i - 1;
    assert q == q[..i + 1] + q[i + 1..];
    forall j | 0 <= j < |e| ensures e[j] == if j < m then q[i + 1 + j] else q[j - m] {
    }
    RotatedIsRing(g, q, e, m);
  }

  lemma RotatedIsRing(g: Graph, q: seq<Node>, e: seq<Node>, m: nat)
    requires Ring(g, q) && |e| == |q| && m < |q|
    requires forall j | 0 <= j < |e| :: e[j] == if j < m then q[|q| - m + j] else q[j - m]
    ensures Ring(g, e)
  {
    forall j | 0 <= j < |e| - 1 ensures Step(g, e[j], e[j + 1]) {
      if j + 1 < m {
        assert Step(g, q[|q| - m + j], q[|q| - m + j + 1]);
      } else if j >= m {
        assert Step(g, q[j - m], q[j - m + 1]);
      }
    }
    if m > 0 { assert Step(g, q[|q| - m - 1], q[|q| - m]); }
    forall i, j | 0 <= i < j < |e| ensures e[i] != e[j] {
      assert q[if i < m then |q| - m + i else i - m] != q[if j < m then |q| - m + j else j - m];
    }
  }

  lemma Distinct(a: seq<Node>, b: seq<Node>)
    requires NoDup(a) && NoDup(b) && forall n <- b :: n !in a
    ensures NoDup(a + b)
  {
    forall i, j | 0 <= i < j < |a + b| ensures (a + b)[i] != (a + b)[j] {
      if i < |a| <= j { assert b[j - |a|] in b && a[i] in a; }
    }
  }

  lemma RingEndAnswers(conns: seq<Connection>, e: seq<Node>, r: Node, v: Node)
    requires GoodInEveryOrder(conns) && Ring(SequentialGraph(conns), e) && v in e && r !in e
    requires Step(SequentialGraph(conns), r, v)
    ensures EndLeads(SequentialGraph(conns), e, r)
  {
    OneRing(SequentialGraph(conns), e, r, v);
    LastAnswers(conns, e, [], r, v);
  }

  /** Whoever leads onto a ring is led to by all of it. */
  lemma RingAnswers(conns: seq<Connection>, d: seq<Node>, r: Node, v: Node, u: Node)
    requires GoodInEveryOrder(conns) && Ring(SequentialGraph(conns), d) && v in d && u in d && r !in d
    requires Step(SequentialGraph(conns), r, v)
    ensures Step(SequentialGraph(conns), u, r)
  {
    var e := RotateTo(SequentialGraph(conns), d, u);
    RingEndAnswers(conns, e, r, v);
  }

  lemma OneRing(g: Graph, e: seq<Node>, r: Node, v: Node)
    requires Ring(g, e) && v in e && r !in e && Step(g, r, v)
    ensures e + [] == e && Rings(g, e, [], r, v)
  {
    assert e + [] == e && NoDup([r]);
    Distinct(e, [r]);
  }

  /** And by every ring apart from it. */
  lemma OtherAnswers(conns: seq<Connection>, d: seq<Node>, q: seq<Node>, r: Node, v: Node, u: Node)
    requires GoodInEveryOrder(conns) && Ring(SequentialGraph(conns), d) && v in d && r !in d
    requires Ring(SequentialGraph(conns), q) && u in q && r !in q && (forall n <- q :: n !in d)
    requires Step(SequentialGraph(conns), r, v)
    ensures Step(SequentialGraph(conns), u, r)
  {
    var e := RotateTo(SequentialGraph(conns), q, u);
    Distinct(d, e);
    InParts(d, e, r);
    assert NoDup([r]);
    Distinct(d + e, [r]);
    LastAnswers(conns, d, e, r, v);
  }

  /** `v` and `w` are on one ring that `r` is not on. */
  ghost predicate Joined(g: Graph, v: Node, w: Node, r: Node) {
    exists d :: Ring(g, d) && v in d && w in d && r !in d
  }

  /** A node that leads to a joined one is joined itself: by the ring it leads onto, or by a ring
      through it. */
  lemma JoinBack(conns: seq<Connection>, v: Node, w: Node, x: Node, r: Node)
    requires GoodInEveryOrder(conns) && Joined(SequentialGraph(conns), v, x, r)
    requires Step(SequentialGraph(conns), w, x) && w != r
    ensures Joined(SequentialGraph(conns), v, w, r)
  {
    var g := SequentialGraph(conns);
    var d :| Ring(g, d) && v in d && x in d && r !in d;
    if w !in d {
      RingAnswers(conns, d, w, x, v);
      var e := RotateTo(g, d, v);
      var j: nat :| j < |e| && e[j] == x;
      RingThrough(g, e, j, w);
      var f := [w] + e[j..];
      assert forall n <- f :: n == w || n in e;
      assert f[|f| - 1] == v && v in f && w in f && r !in f;
    }
  }

  lemma RingThrough(g: Graph, e: seq<Node>, j: nat, w: Node)
    requires Ring(g, e) && j < |e| && w !in e && Step(g, w, e[j]) && Step(g, e[|e| - 1], w)
    ensures Ring(g, [w] + e[j..])
  {
    var f := [w] + e[j..];
    forall i | 0 <= i < |f| - 1 ensures Step(g, f[i], f[i + 1]) {
      if i > 0 { assert Step(g, e[j + i - 1], e[j + i]); }
    }
    forall a, b | 0 <= a < b < |f| ensures f[a] != f[b] {
      assert f[b] == e[j + b - 1] && f[b] in e;
      if a > 0 { assert e[j + a - 1] != e[j + b - 1]; }
    }
  }

  lemma {:induction false} JoinAlong(conns: seq<Connection>, q: seq<Node>, i: nat, v: Node, r: Node)
    requires GoodInEveryOrder(conns) && IsWalk(SequentialGraph(conns), q) && r !in q && i < |q|
    requires Joined(SequentialGraph(conns), v, q[|q| - 1], r)
    ensures Joined(SequentialGraph(conns), v, q[i], r)
    decreases |q| - i
  {
    if i < |q| - 1 {
      JoinAlong(conns, q, i + 1, v, r);
      assert Step(SequentialGraph(conns), q[i], q[i + 1]) && q[i] in q;
      JoinBack(conns, v, q[i], q[i + 1], r);
    }
  }

  /** A ring that meets the one led onto. */
  lemma MeetingAnswers(conns: seq<Connection>, d: seq<Node>, q: seq<Node>, y: Node, r: Node, v: Node, u: Node)
    requires GoodInEveryOrder(conns) && Ring(SequentialGraph(conns), d) && v in d && r !in d
    requires Ring(SequentialGraph(conns), q) && u in q && r !in q && y in q && y in d
    requires Step(SequentialGraph(conns), r, v)
    ensures Step(SequentialGraph(conns), u, r)
  {
    var e := RotateTo(SequentialGraph(conns), q, y);
    var i: nat :| i < |e| && e[i] == u;
    JoinAlong(conns, e, i, v, r);
    var f :| Ring(SequentialGraph(conns), f) && v in f && u in f && r !in f;
    RingAnswers(conns, f, r, v, u);
  }

  lemma GoodIsMutual(conns: seq<Connection>)
    requires GoodInEveryOrder(conns)
    ensures Mutual(SequentialGraph(conns))
  {
    var g := SequentialGraph(conns);
    forall r | Touches(g, r) ensures LedToByCycles(g, r) {
      var v :| Step(g, r, v) && OnCycle(g, v, r);
      var d :| Ring(g, d) && v in d && r !in d;
      forall u | OnCycle(g, u, r) ensures Step(g, u, r) {
        var q :| Ring(g, q) && u in q && r !in q;
        if y :| y in q && y in d {
          MeetingAnswers(conns, d, q, y, r, v, u);
        } else {
          OtherAnswers(conns, d, q, r, v, u);
        }
      }
    }
  }

  /** Every report is a simple cycle in every order of the connections exactly when the
      sequential graph is mutual. */
  lemma GoodInEveryOrderIffMutual(conns: seq<Connection>)
    ensures GoodInEveryOrder(conns) <==> Mutual(SequentialGraph(conns))
  {
    if GoodInEveryOrder(conns) { GoodIsMutual(conns); }
    if Mutual(SequentialGraph(conns)) {
      forall other, c | multiset(other) == multiset(conns) && c in Reports(other)
        ensures SimpleCycle(SequentialGraph(other), c)
      {
        ReorderedSteps(conns, other);
        SameMutual(SequentialGraph(conns), SequentialGraph(other));
        MutualReportsCycles(other);
      }
    }
  }
}
