/** Directed graphs as the analyses see them: block addresses and successor sets. */
module Graph {
  /** A basic block by its start address, or a component by its number. */
  datatype Node = Node(id: int)

  /** Successors outside `nodes` are ignored, and a missing entry means no successor. */
  datatype Graph = Graph(nodes: set<Node>, adj: map<Node, set<Node>>)

  function Succ(g: Graph, u: Node): (vs: set<Node>) {
    if u in g.adj then g.adj[u] * g.nodes else {}
  }

  predicate Edge(g: Graph, u: Node, v: Node) {
    u in g.nodes && v in Succ(g, u)
  }

  // -------------------------------------------------------------------- paths

  ghost predicate IsPath(g: Graph, p: seq<Node>) {
    && p != [] && p[0] in g.nodes
    && forall i :: 0 <= i < |p| - 1 ==> Edge(g, p[i], p[i + 1])
  }

  ghost predicate PathFrom(g: Graph, u: Node, v: Node, p: seq<Node>) {
    IsPath(g, p) && p[0] == u && p[|p| - 1] == v
  }

  /** There is a path, possibly of no edge, from `u` to `v`. */
  ghost predicate Reach(g: Graph, u: Node, v: Node) {
    exists p: seq<Node> :: PathFrom(g, u, v, p)
  }

  ghost predicate Mutual(g: Graph, u: Node, v: Node) { Reach(g, u, v) && Reach(g, v, u) }

  lemma PathNodes(g: Graph, p: seq<Node>, i: nat)
    requires IsPath(g, p) && i < |p|
    ensures p[i] in g.nodes
  {
    if i > 0 { assert Edge(g, p[i - 1], p[i]); }
  }

  lemma ReachNodes(g: Graph, u: Node, v: Node)
    requires Reach(g, u, v)
    ensures u in g.nodes && v in g.nodes
  {
    var p: seq<Node> :| PathFrom(g, u, v, p);
    PathNodes(g, p, |p| - 1);
  }

  lemma ReachRefl(g: Graph, u: Node)
    requires u in g.nodes
    ensures Reach(g, u, u)
  {
    assert PathFrom(g, u, u, [u]);
  }

  lemma ReachEdge(g: Graph, u: Node, v: Node)
    requires Edge(g, u, v)
    ensures Reach(g, u, v)
  {
    assert PathFrom(g, u, v, [u, v]);
  }

  lemma PathJoin(g: Graph, u: Node, v: Node, w: Node, p: seq<Node>, q: seq<Node>)
    requires PathFrom(g, u, v, p) && PathFrom(g, v, w, q)
    ensures PathFrom(g, u, w, p + q[1..])
  {
    var r := p + q[1..];
    forall i | 0 <= i < |r| - 1 ensures Edge(g, r[i], r[i + 1]) {
      if i < |p| - 1 {
        assert r[i] == p[i] && r[i + 1] == p[i + 1];
      } else {
        assert r[i] == q[i - |p| + 1] && r[i + 1] == q[i - |p| + 2];
      }
    }
  }

  lemma ReachTrans(g: Graph, u: Node, v: Node, w: Node)
    requires Reach(g, u, v) && Reach(g, v, w)
    ensures Reach(g, u, w)
  {
    var p: seq<Node> :| PathFrom(g, u, v, p);
    var q: seq<Node> :| PathFrom(g, v, w, q);
    PathJoin(g, u, v, w, p, q);
  }

  lemma ReachSnoc(g: Graph, u: Node, v: Node, w: Node)
    requires Reach(g, u, v) && Edge(g, v, w)
    ensures Reach(g, u, w)
  {
    ReachEdge(g, v, w);
    ReachTrans(g, u, v, w);
  }

  lemma ReachCons(g: Graph, u: Node, v: Node, w: Node)
    requires Edge(g, u, v) && Reach(g, v, w)
    ensures Reach(g, u, w)
  {
    ReachEdge(g, u, v);
    ReachTrans(g, u, v, w);
  }

  lemma MutualTrans(g: Graph, u: Node, v: Node, w: Node)
    requires Mutual(g, u, v) && Mutual(g, v, w)
    ensures Mutual(g, u, w)
  {
    ReachTrans(g, u, v, w);
    ReachTrans(g, w, v, u);
  }

  /** Cutting a path anywhere shows both halves are reachable. */
  lemma PathSplit(g: Graph, u: Node, v: Node, p: seq<Node>, i: nat)
    requires PathFrom(g, u, v, p) && i < |p|
    ensures Reach(g, u, p[i]) && Reach(g, p[i], v)
  {
    PathNodes(g, p, i);
    assert PathFrom(g, u, p[i], p[..i + 1]);
    assert PathFrom(g, p[i], v, p[i..]);
  }

  /** A path that leaves a set of nodes does so along some edge. */
  lemma Crossing(g: Graph, inside: set<Node>, u: Node, v: Node) returns (x: Node, y: Node)
    requires Reach(g, u, v) && u in inside && v !in inside
    ensures x in inside && y !in inside && Edge(g, x, y) && Reach(g, u, x) && Reach(g, y, v)
  {
    var p: seq<Node> :| PathFrom(g, u, v, p);
    var i := 0;
    while p[i + 1] in inside
      invariant 0 <= i < |p| - 1 && p[i] in inside
      decreases |p| - i
    {
      i := i + 1;
    }
    x, y := p[i], p[i + 1];
    PathSplit(g, u, v, p, i);
    PathSplit(g, u, v, p, i + 1);
  }

  /** A set closed under edges contains all it reaches. */
  lemma ReachClosed(g: Graph, closed: set<Node>, u: Node, v: Node)
    requires Reach(g, u, v) && u in closed
    requires forall x, y :: x in closed && Edge(g, x, y) ==> y in closed
    ensures v in closed
  {
    if v !in closed {
      var x, y := Crossing(g, closed, u, v);
      assert false;
    }
  }

  /** What is reachable over at least one edge. */
  ghost predicate Beyond(g: Graph, c: Node, d: Node) {
    exists x :: Edge(g, c, x) && Reach(g, x, d)
  }

  lemma BeyondOrSelf(g: Graph, c: Node, d: Node)
    requires c in g.nodes
    ensures Reach(g, c, d) <==> d == c || Beyond(g, c, d)
  {
    if Reach(g, c, d) && d != c {
      var p: seq<Node> :| PathFrom(g, c, d, p);
      assert Edge(g, p[0], p[1]);
      PathSplit(g, c, d, p, 1);
    }
    if Beyond(g, c, d) {
      var x :| Edge(g, c, x) && Reach(g, x, d);
      ReachCons(g, c, x, d);
    }
    if d == c { ReachRefl(g, c); }
  }

  lemma BeyondStep(g: Graph, c: Node, x: Node)
    requires Beyond(g, c, x)
    ensures forall y :: Edge(g, x, y) ==> Beyond(g, c, y)
  {
    forall y | Edge(g, x, y) ensures Beyond(g, c, y) {
      var z :| Edge(g, c, z) && Reach(g, z, x);
      ReachSnoc(g, z, x, y);
    }
  }

  // ---------------------------------------------------------- reversed graphs

  ghost predicate IsReverse(g: Graph, r: Graph) {
    r.nodes == g.nodes && forall u, v :: Edge(r, u, v) <==> Edge(g, v, u)
  }

  lemma {:induction false} PathReverse(g: Graph, r: Graph, u: Node, v: Node, p: seq<Node>)
    requires IsReverse(g, r) && PathFrom(g, u, v, p)
    ensures Reach(r, v, u)
    decreases |p|
  {
    if |p| == 1 {
      ReachRefl(r, u);
    } else {
      assert Edge(g, p[|p| - 2], v);
      assert PathFrom(g, u, p[|p| - 2], p[..|p| - 1]);
      PathReverse(g, r, u, p[|p| - 2], p[..|p| - 1]);
      assert Edge(r, v, p[|p| - 2]);
      ReachCons(r, v, p[|p| - 2], u);
    }
  }

  lemma ReachReverse(g: Graph, r: Graph, u: Node, v: Node)
    requires IsReverse(g, r)
    ensures Reach(g, u, v) <==> Reach(r, v, u)
  {
    if Reach(g, u, v) {
      var p: seq<Node> :| PathFrom(g, u, v, p);
      PathReverse(g, r, u, v, p);
    }
    if Reach(r, v, u) {
      var p: seq<Node> :| PathFrom(r, v, u, p);
      PathReverse(r, g, v, u, p);
    }
  }
}
