/** Which sequential graphs make every report of `detect_cycles` a simple cycle whatever the order
    of the connections: those in which a node that leads onto a cycle it is not on is led to
    by every node of every cycle it is not on. */
module AnyOrder {
  import opened Graphs
  import opened DepthFirst
  import opened WorkflowValidation
  import opened LaterReports

  /** The nodes of a simple cycle, in order. */
  ghost predicate Ring(g: Graph, q: seq<Node>) {
    IsWalk(g, q) && NoDup(q) && Step(g, q[|q| - 1], q[0])
  }

  lemma RingIsSimpleCycle(g: Graph, q: seq<Node>)
    requires q != []
    ensures Ring(g, q) <==> SimpleCycle(g, q + [q[0]])
  {
    var c := q + [q[0]];
    if Ring(g, q) {
      forall i | 0 <= i < |c| - 1 ensures Step(g, c[i], c[i + 1]) {
        if i < |q| - 1 { assert Step(g, q[i], q[i + 1]); }
      }
      forall i, j | 0 <= i < j < |c[1..]| ensures c[1..][i] != c[1..][j] {
        if j == |q| - 1 { assert c[1..][j] == q[0] && c[1..][i] == q[i + 1]; }
      }
    }
    if SimpleCycle(g, c) {
      forall i | 0 <= i < |q| - 1 ensures Step(g, q[i], q[i + 1]) { assert Step(g, c[i], c[i + 1]); }
      assert Step(g, c[|q| - 1], c[|q|]);
      forall i, j | 0 <= i < j < |q| ensures q[i] != q[j] {
        assert c[1..][j - 1] == q[j] && c[1..][if i == 0 then |q| - 1 else i - 1] == q[i];
      }
    }
  }

  /** `v` is on a cycle that `r` is not on. */
  ghost predicate OnCycle(g: Graph, v: Node, r: Node) {
    exists q :: Ring(g, q) && v in q && r !in q
  }

  /** `r` leads onto a cycle that it is not on. */
  ghost predicate Touches(g: Graph, r: Node) {
    exists v :: Step(g, r, v) && OnCycle(g, v, r)
  }

  /** Whoever leads onto a cycle is led to from all cycles, its own apart. */
  ghost predicate Mutual(g: Graph) {
    forall r | Touches(g, r) :: LedToByCycles(g, r)
  }

  ghost predicate LedToByCycles(g: Graph, r: Node) {
    forall u | OnCycle(g, u, r) :: Step(g, u, r)
  }

  ghost predicate GoodInEveryOrder(conns: seq<Connection>) {
    forall other, c | multiset(other) == multiset(conns) && c in Reports(other) ::
      SimpleCycle(SequentialGraph(other), c)
  }

  // Enough: the stale path stays honest

  /** Each of its nodes is on a cycle within the path. */
  ghost predicate Looped(g: Graph, p: seq<Node>) {
    forall v <- p :: Within(g, v, p)
  }

  ghost predicate Within(g: Graph, v: Node, p: seq<Node>) {
    exists q :: Ring(g, q) && v in q && forall n <- q :: n in p
  }

  /** Where the path steps along no edge, it was looped before the step. */
  ghost predicate Jointed(g: Graph, p: seq<Node>) {
    forall t | 0 < t < |p| :: Step(g, p[t - 1], p[t]) || Looped(g, p[..t])
  }

  lemma TwoRing(g: Graph, a: Node, b: Node)
    requires a != b && Step(g, a, b) && Step(g, b, a)
    ensures Ring(g, [a, b]) && forall r | r != a && r != b :: OnCycle(g, a, r) && OnCycle(g, b, r)
  {
    assert Ring(g, [a, b]);
    assert a in [a, b] && b in [a, b];
  }

  lemma Answer(g: Graph, r: Node, v: Node, u: Node)
    requires Mutual(g) && Step(g, r, v) && OnCycle(g, v, r) && OnCycle(g, u, r)
    ensures Touches(g, r) && Step(g, u, r)
  {
    assert LedToByCycles(g, r);
  }

  /** Back along a walk whose end is on cycles that its nodes are not on: each of them is led
      to from its successor. */
  lemma {:induction false} BackFrom(g: Graph, p: seq<Node>, i: nat, top: nat)
    requires Mutual(g) && NoDup(p) && i < top < |p|
    requires forall j | i <= j < top :: Step(g, p[j], p[j + 1])
    requires forall j | i <= j < top :: OnCycle(g, p[top], p[j])
    ensures Touches(g, p[i]) && Step(g, p[i + 1], p[i])
    decreases top - i
  {
    if i + 1 < top {
      BackFrom(g, p, i + 1, top);
      BackStep(g, p[i], p[i + 1], p[i + 2]);
    } else {
      Answer(g, p[i], p[top], p[top]);
    }
  }

  lemma BackStep(g: Graph, a: Node, b: Node, c: Node)
    requires Mutual(g) && a != b && b != c && c != a && Step(g, a, b) && Step(g, b, c) && Step(g, c, b)
    ensures Touches(g, a) && Step(g, b, a)
  {
    TwoRing(g, b, c);
    Answer(g, a, b, b);
  }

  /** Where the back-steps begin: the node at which the hit closes, or the end of the path when
      it closes on the stale part. */
  function Top(base: seq<Node>, p: seq<Node>, first: Node): (top: nat)
    requires first in p
    ensures top < |p|
  {
    if first in base then |p| - 1 else IndexOf(p, first)
  }

  /** A hit on the stale path: its last node and the node it hits lead to each other. */
  lemma HitAnswered(g: Graph, base: seq<Node>, root: Node, p: seq<Node>, report: seq<Node>)
    requires Mutual(g) && Looped(g, base) && Lands(g, base, root, p, report) && report[0] in base
    ensures p[|p| - 1] != report[0] && Step(g, report[0], p[|p| - 1]) && Touches(g, p[|p| - 1])
  {
    var x, first := p[|p| - 1], report[0];
    PrefixIndex(base, p, x);
    Answer(g, x, first, first);
  }

  /** The new part of the path closes a ring by itself, if it does not hit the stale part. */
  lemma NewRing(g: Graph, base: seq<Node>, root: Node, p: seq<Node>, report: seq<Node>)
    requires Lands(g, base, root, p, report) && report[0] !in base
    ensures |base| <= IndexOf(p, report[0]) && Ring(g, p[IndexOf(p, report[0])..])
  {
    PrefixIndex(base, p, report[0]);
    var k := IndexOf(p, report[0]);
    var q := p[k..];
    forall i | 0 <= i < |q| - 1 ensures Step(g, q[i], q[i + 1]) { StepsOfTail(g, base, root, p, k + i + 1); }
  }

  lemma TopOnCycle(g: Graph, base: seq<Node>, root: Node, p: seq<Node>, report: seq<Node>, j: nat)
    requires Mutual(g) && Looped(g, base) && Lands(g, base, root, p, report)
    requires |base| <= j < Top(base, p, report[0])
    ensures OnCycle(g, p[Top(base, p, report[0])], p[j])
  {
    var top := Top(base, p, report[0]);
    if report[0] in base {
      HitAnswered(g, base, root, p, report);
      PrefixIndex(base, p, p[j]);
      TwoRing(g, p[top], report[0]);
    } else {
      NewRing(g, base, root, p, report);
      assert p[top..][0] == p[top] && p[j] !in p[top..];
    }
  }

  /** Every new node before the top leads and is led to. */
  lemma NewAnswered(g: Graph, base: seq<Node>, root: Node, p: seq<Node>, report: seq<Node>, i: nat)
    requires Mutual(g) && Looped(g, base) && Lands(g, base, root, p, report)
    requires |base| <= i < Top(base, p, report[0])
    ensures Touches(g, p[i]) && Step(g, p[i], p[i + 1]) && Step(g, p[i + 1], p[i])
  {
    var top := Top(base, p, report[0]);
    forall j | i <= j < top ensures Step(g, p[j], p[j + 1]) && OnCycle(g, p[top], p[j]) {
      StepsOfTail(g, base, root, p, j + 1);
      TopOnCycle(g, base, root, p, report, j);
    }
    BackFrom(g, p, i, top);
  }

  /** The path left behind by a hit is looped if the path it started on was. */
  lemma LoopedGrows(g: Graph, base: seq<Node>, root: Node, p: seq<Node>, report: seq<Node>)
    requires Mutual(g) && Looped(g, base) && Lands(g, base, root, p, report)
    ensures Looped(g, p)
  {
    forall v | v in p ensures Within(g, v, p) {
      var i: nat :| i < |p| && p[i] == v;
      if i < |base| {
        assert base[i] in base && Within(g, v, base);
      } else {
        NewIsWithin(g, base, root, p, report, i);
      }
    }
  }

  lemma NewIsWithin(g: Graph, base: seq<Node>, root: Node, p: seq<Node>, report: seq<Node>, i: nat)
    requires Mutual(g) && Looped(g, base) && Lands(g, base, root, p, report) && |base| <= i < |p|
    ensures Within(g, p[i], p)
  {
    var top := Top(base, p, report[0]);
    if i < top {
      NewAnswered(g, base, root, p, report, i);
      TwoRing(g, p[i], p[i + 1]);
      PairWithin(g, p[i], p[i + 1], p);
    } else if report[0] in base {
      HitAnswered(g, base, root, p, report);
      TwoRing(g, p[i], report[0]);
      PairWithin(g, p[i], report[0], p);
    } else {
      NewRing(g, base, root, p, report);
    }
  }

  lemma PairWithin(g: Graph, a: Node, b: Node, p: seq<Node>)
    requires Ring(g, [a, b]) && a in p && b in p
    ensures Within(g, a, p)
  {
    assert a in [a, b] && forall n <- [a, b] :: n in p;
  }

  lemma JointedGrows(g: Graph, base: seq<Node>, root: Node, p: seq<Node>)
    requires Looped(g, base) && Jointed(g, base) && Continues(g, base, root, p)
    ensures Jointed(g, p)
  {
    forall t | 0 < t < |p| ensures Step(g, p[t - 1], p[t]) || Looped(g, p[..t]) {
      if t < |base| {
        assert p[..t] == base[..t] && p[t - 1] == base[t - 1] && p[t] == base[t];
      } else if t == |base| {
        assert p[..t] == base;
      } else {
        StepsOfTail(g, base, root, p, t);
      }
    }
  }

  /** A joint above the node that is hit is an edge after all. */
  lemma JointIsStep(g: Graph, base: seq<Node>, root: Node, p: seq<Node>, report: seq<Node>, t: nat)
    requires Mutual(g) && Looped(g, base) && Jointed(g, base) && Lands(g, base, root, p, report)
    requires report[0] in base && IndexOf(base, report[0]) < t < |base|
    ensures Step(g, base[t - 1], base[t])
  {
    if !Step(g, base[t - 1], base[t]) {
      var x, k := p[|p| - 1], IndexOf(base, report[0]);
      HitAnswered(g, base, root, p, report);
      PrefixIndex(base, p, x);
      assert base[t] == p[t] && base[k] == p[k] && base[t - 1] == p[t - 1];
      LoopedJoint(g, base, t, x, report[0]);
    }
  }

  /** `x` lies above the path and leads to `first` and back; the joint lies between the two. */
  lemma LoopedJoint(g: Graph, base: seq<Node>, t: nat, x: Node, first: Node)
    requires Mutual(g) && Looped(g, base) && 0 < t < |base| && Looped(g, base[..t]) && x !in base
    requires base[t] !in base[..t] && base[t] != first
    requires Step(g, x, first) && Step(g, first, x) && x != first && Touches(g, x)
    ensures Step(g, base[t - 1], base[t])
  {
    var b, front := base[t], base[..t];
    assert b in base && front[t - 1] in front;
    assert LedToByCycles(g, x) && Step(g, b, x);
    TwoRing(g, x, first);
    Answer(g, b, x, front[t - 1]);
  }

  lemma MutualHit(g: Graph, base: seq<Node>, root: Node, p: seq<Node>, report: seq<Node>)
    requires Mutual(g) && Looped(g, base) && Jointed(g, base) && Lands(g, base, root, p, report)
    ensures Honest(g, Hit(base, root, report))
  {
    if report[0] in base {
      var k := IndexOf(base, report[0]);
      RootIsLedTo(g, base, root, p, report);
      forall t | k < t < |base| ensures Step(g, base[t - 1], base[t]) { JointIsStep(g, base, root, p, report, t); }
      JoinIsWalk(g, base, k, root);
    }
  }

  lemma JoinIsWalk(g: Graph, base: seq<Node>, k: nat, root: Node)
    requires k < |base| && Step(g, base[|base| - 1], root)
    requires forall t | k < t < |base| :: Step(g, base[t - 1], base[t])
    ensures IsWalk(g, base[k..] + [root])
  {
    var join := base[k..] + [root];
    forall i | 0 <= i < |join| - 1 ensures Step(g, join[i], join[i + 1]) {
      if k + i + 1 < |base| { assert Step(g, base[k + i + 1 - 1], base[k + i + 1]); }
    }
  }

  lemma RootIsLedTo(g: Graph, base: seq<Node>, root: Node, p: seq<Node>, report: seq<Node>)
    requires Mutual(g) && Looped(g, base) && Lands(g, base, root, p, report) && report[0] in base
    ensures Step(g, base[|base| - 1], root)
  {
    var m := |base|;
    HitAnswered(g, base, root, p, report);
    if m < |p| - 1 { NewAnswered(g, base, root, p, report, m); }
    PrefixIndex(base, p, root);
    assert p[m] == root && base[m - 1] in base;
  }

  lemma MutualVisit(g: Graph, root: Node, s: Search)
    requires root in Nodes(g) && root !in s.visited && Synced(s)
    requires Mutual(g) && Looped(g, s.path) && Jointed(g, s.path)
    ensures var (found, r) := Visit(g, root, s);
      && Looped(g, r.path) && Jointed(g, r.path)
      && (found ==> |r.cycles| > |s.cycles| && SimpleCycle(g, r.cycles[|s.cycles|]))
  {
    var (found, r) := Visit(g, root, s);
    if found {
      var report := r.cycles[|s.cycles|];
      VisitLands(g, root, s, s.path, root);
      LoopedGrows(g, s.path, root, r.path, report);
      JointedGrows(g, s.path, root, r.path);
      MutualHit(g, s.path, root, r.path, report);
      LandsIff(g, Hit(s.path, root, report), r.path);
    }
  }

  lemma {:induction false} MutualHits(g: Graph, keys: seq<Node>, s: Search)
    requires (forall k <- keys :: k in g) && Synced(s)
    requires Mutual(g) && Looped(g, s.path) && Jointed(g, s.path)
    ensures forall h <- Hits(g, keys, s) :: SimpleCycle(g, h.report)
    decreases |keys|
  {
    if keys != [] {
      if keys[0] in s.visited {
        MutualHits(g, keys[1..], s);
      } else {
        MutualVisit(g, keys[0], s);
        MutualHits(g, keys[1..], Visit(g, keys[0], s).1);
      }
    }
  }

  lemma MutualReportsCycles(conns: seq<Connection>)
    requires Mutual(SequentialGraph(conns))
    ensures forall c <- Reports(conns) :: SimpleCycle(SequentialGraph(conns), c)
  {
    GraphIsSequentialPart(conns);
    MutualHits(SequentialGraph(conns), KeyOrder(conns), FRESH);
    ReportsAreHits(conns);
  }

  // The graph does not depend on the order

  ghost predicate SameSteps(g: Graph, h: Graph) {
    forall a, b :: Step(g, a, b) <==> Step(h, a, b)
  }

  lemma ReorderedSteps(a: seq<Connection>, b: seq<Connection>)
    requires multiset(a) == multiset(b)
    ensures SameSteps(SequentialGraph(a), SequentialGraph(b))
  {
    GraphIsSequentialPart(a);
    GraphIsSequentialPart(b);
    forall x, y ensures SequentialStep(a, x, y) <==> SequentialStep(b, x, y) {
      var c := Connection(x, y, SEQUENTIAL);
      assert c in a <==> c in multiset(a);
      assert c in b <==> c in multiset(b);
    }
  }

  lemma SameMutual(g: Graph, h: Graph)
    requires SameSteps(g, h) && Mutual(g)
    ensures Mutual(h)
  {
    forall v, r ensures OnCycle(g, v, r) <==> OnCycle(h, v, r) {
    }
    forall r | Touches(h, r) ensures LedToByCycles(h, r) {
      var v :| Step(h, r, v) && OnCycle(h, v, r);
      assert Step(g, r, v) && OnCycle(g, v, r);
      assert Touches(g, r) && LedToByCycles(g, r);
    }
  }
}
