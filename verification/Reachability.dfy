/** Descendant and ancestor counts of blocks, taken over the condensation. */
module Reachability {
  import opened Base
  import opened Graph
  import opened Scc

  // ------------------------------------------------------------- specification

  ghost function Descendants(g: Graph, b: Node): (vs: set<Node>) {
    set v | v in g.nodes && v != b && Reach(g, b, v)
  }

  ghost function Ancestors(g: Graph, b: Node): (vs: set<Node>) {
    set v | v in g.nodes && v != b && Reach(g, v, b)
  }

  // ------------------------------------------------------------- condensation

  /** `m` numbers each block with the component it is in. */
  ghost predicate Numbering(g: Graph, sccs: seq<set<Node>>, m: map<Node, Node>) {
    && m.Keys == g.nodes
    && forall v :: v in m ==> 0 <= m[v].id < |sccs| && v in sccs[m[v].id]
  }

  /** Some edge of `g` runs from component `c` to component `d`. */
  ghost predicate Linked(g: Graph, m: map<Node, Node>, c: Node, d: Node) {
    exists u, v :: Edge(g, u, v) && u in m && v in m && m[u] == c && m[v] == d
  }

  /** The components and the edges between different ones. */
  ghost predicate Condensation(g: Graph, sccs: seq<set<Node>>, m: map<Node, Node>, dag: Graph) {
    && (forall c :: c in dag.nodes <==> 0 <= c.id < |sccs|)
    && (forall c, d :: Edge(dag, c, d) <==> c != d && Linked(g, m, c, d))
  }

  lemma NumberUnique(g: Graph, sccs: seq<set<Node>>, m: map<Node, Node>, v: Node, i: nat)
    requires IsSccList(g, sccs) && Numbering(g, sccs, m) && i < |sccs| && v in g.nodes
    ensures v in sccs[i] <==> m[v] == Node(i)
  {
    hide IsScc;
    hide HasEdge;
    assert m[v].id != i ==> sccs[i] !! sccs[m[v].id];
  }

  lemma SameNumberMutual(g: Graph, sccs: seq<set<Node>>, m: map<Node, Node>, u: Node, v: Node)
    requires IsSccList(g, sccs) && Numbering(g, sccs, m) && u in g.nodes && v in g.nodes
    ensures m[u] == m[v] <==> Mutual(g, u, v)
  {
    hide HasEdge;
    hide Mutual;
    NumberUnique(g, sccs, m, v, m[u].id);
    assert IsScc(g, sccs[m[u].id]);
  }

  /** A path between blocks is a path between their components. */
  lemma {:induction false} PathDown(g: Graph, sccs: seq<set<Node>>, m: map<Node, Node>, dag: Graph, u: Node, v: Node, p: seq<Node>)
    requires Numbering(g, sccs, m) && Condensation(g, sccs, m, dag)
    requires PathFrom(g, u, v, p)
    ensures u in m && v in m && Reach(dag, m[u], m[v])
    decreases |p|
  {
    hide Reach;
    PathNodes(g, p, |p| - 1);
    if |p| == 1 {
      ReachRefl(dag, m[u]);
    } else {
      var w := p[|p| - 2];
      assert Edge(g, w, v);
      assert PathFrom(g, u, w, p[..|p| - 1]);
      PathDown(g, sccs, m, dag, u, w, p[..|p| - 1]);
      if m[w] != m[v] {
        assert Edge(dag, m[w], m[v]);
        ReachSnoc(dag, m[u], m[w], m[v]);
      }
    }
  }

  /** A path between components is matched by paths between all their blocks. */
  lemma {:induction false} PathUp(g: Graph, sccs: seq<set<Node>>, m: map<Node, Node>, dag: Graph, u: Node, v: Node, p: seq<Node>)
    requires IsSccList(g, sccs) && Numbering(g, sccs, m) && Condensation(g, sccs, m, dag)
    requires u in g.nodes && v in g.nodes && PathFrom(dag, m[u], m[v], p)
    ensures Reach(g, u, v)
    decreases |p|
  {
    hide IsSccList;
    hide Reach;
    if |p| == 1 {
      SameNumberMutual(g, sccs, m, u, v);
    } else {
      var c := p[|p| - 2];
      assert Edge(dag, c, m[v]);
      assert Linked(g, m, c, m[v]);
      var x, y :| Edge(g, x, y) && x in m && y in m && m[x] == c && m[y] == m[v];
      assert PathFrom(dag, m[u], m[x], p[..|p| - 1]);
      PathUp(g, sccs, m, dag, u, x, p[..|p| - 1]);
      SameNumberMutual(g, sccs, m, y, v);
      ReachSnoc(g, u, x, y);
      ReachTrans(g, u, y, v);
    }
  }

  /** Reachability between blocks is reachability between their components. */
  lemma ReachCondensed(g: Graph, sccs: seq<set<Node>>, m: map<Node, Node>, dag: Graph, u: Node, v: Node)
    requires IsSccList(g, sccs) && Numbering(g, sccs, m) && Condensation(g, sccs, m, dag)
    requires u in g.nodes && v in g.nodes
    ensures Reach(g, u, v) <==> Reach(dag, m[u], m[v])
  {
    hide IsSccList;
    hide Condensation;
    if Reach(g, u, v) {
      var p: seq<Node> :| PathFrom(g, u, v, p);
      PathDown(g, sccs, m, dag, u, v, p);
    }
    if Reach(dag, m[u], m[v]) {
      var p: seq<Node> :| PathFrom(dag, m[u], m[v], p);
      PathUp(g, sccs, m, dag, u, v, p);
    }
  }

  // ---------------------------------------------------------- counting over the dag

  /** The blocks whose component is among `ids`. */
  ghost function BlocksOf(m: map<Node, Node>, ids: set<Node>): (vs: set<Node>) {
    set v | v in m && m[v] in ids
  }

  lemma BlocksOfAdd(m: map<Node, Node>, ids: set<Node>, c: Node)
    requires c !in ids
    ensures |BlocksOf(m, ids + {c})| == |BlocksOf(m, ids)| + |BlocksOf(m, {c})|
  {
    assert BlocksOf(m, ids + {c}) == BlocksOf(m, ids) + BlocksOf(m, {c});
    assert BlocksOf(m, ids) !! BlocksOf(m, {c});
  }

  ghost predicate Acyclic(dag: Graph) { forall c :: c in dag.nodes ==> !Beyond(dag, c, c) }

  /** The queue search of _compute_reachable_sizes_on_dag. */
  method FindBeyond(dag: Graph, c: Node) returns (visited: set<Node>)
    requires c in dag.nodes
    ensures visited <= dag.nodes && forall d :: d in visited <==> Beyond(dag, c, d)
  {
    hide Beyond;
    visited := Succ(dag, c);
    var queue := Enumerate(visited);
    BeyondFirst(dag, c);
    while queue != []
      invariant Succ(dag, c) <= visited <= dag.nodes && forall d :: d in visited ==> Beyond(dag, c, d)
      invariant forall x :: x in queue ==> x in visited
      invariant forall x, y :: x in visited && x !in queue && Edge(dag, x, y) ==> y in visited
      decreases dag.nodes - visited, |queue|
    {
      var x, later := queue[0], queue[1..];
      assert queue == [x] + later;
      var found := Succ(dag, x) - visited;
      BeyondStep(dag, c, x);
      var more := Enumerate(found);
      forall d | d in visited + found ensures Beyond(dag, c, d) {
        if d in found { assert Edge(dag, x, d); }
      }
      queue := later + more;
      visited := visited + found;
    }
    BeyondLast(dag, c, visited);
  }

  lemma BeyondFirst(dag: Graph, c: Node)
    ensures forall d :: Edge(dag, c, d) ==> Beyond(dag, c, d)
  {
    forall d | Edge(dag, c, d) ensures Beyond(dag, c, d) { ReachRefl(dag, d); }
  }

  lemma BeyondLast(dag: Graph, c: Node, visited: set<Node>)
    requires Succ(dag, c) <= visited && forall x, y :: x in visited && Edge(dag, x, y) ==> y in visited
    ensures forall d :: Beyond(dag, c, d) ==> d in visited
  {
    forall d | Beyond(dag, c, d) ensures d in visited {
      var x :| Edge(dag, c, x) && Reach(dag, x, d);
      ReachClosed(dag, visited, x, d);
    }
  }

  ghost predicate Sizes(m: map<Node, Node>, ids: set<Node>, sizes: map<Node, nat>) {
    sizes.Keys == ids && forall c :: c in ids ==> sizes[c] == |BlocksOf(m, {c})|
  }

  /** The components reachable from `c`, itself included. */
  ghost function Downstream(dag: Graph, c: Node): (ids: set<Node>) {
    set d | d in dag.nodes && Reach(dag, c, d)
  }

  method SumSizes(sizes: map<Node, nat>, ids: set<Node>, ghost m: map<Node, Node>) returns (total: nat)
    requires ids <= sizes.Keys && forall c :: c in sizes ==> sizes[c] == |BlocksOf(m, {c})|
    ensures total == |BlocksOf(m, ids)|
  {
    total := 0;
    var rest := ids;
    assert BlocksOf(m, {}) == {};
    assert ids - rest == {};
    while rest != {}
      invariant rest <= ids && total == |BlocksOf(m, ids - rest)|
      decreases rest
    {
      var c := Pick(rest);
      BlocksOfAdd(m, ids - rest, c);
      assert ids - (rest - {c}) == ids - rest + {c};
      rest := rest - {c};
      total := total + sizes[c];
    }
    assert ids - rest == ids;
  }

  /** _compute_reachable_sizes_on_dag */
  method ReachableSizes(dag: Graph, sizes: map<Node, nat>, ghost m: map<Node, Node>) returns (reachable: map<Node, int>)
    requires Acyclic(dag) && Sizes(m, dag.nodes, sizes)
    ensures reachable.Keys == dag.nodes
    ensures forall c :: c in dag.nodes ==> reachable[c] == |BlocksOf(m, Downstream(dag, c))| - 1
  {
    hide Reach;
    hide Beyond;
    reachable := map[];
    var rest := dag.nodes;
    while rest != {}
      invariant rest <= dag.nodes && reachable.Keys == dag.nodes - rest
      invariant forall c :: c in reachable ==> reachable[c] == |BlocksOf(m, Downstream(dag, c))| - 1
      decreases rest
    {
      var c := Pick(rest);
      var visited := FindBeyond(dag, c);
      var total := SumSizes(sizes, visited, m);
      DownstreamSplit(dag, c, visited);
      BlocksOfAdd(m, visited, c);
      var count: int := total;
      reachable := reachable[c := count + sizes[c] - 1];
      rest := rest - {c};
    }
  }

  lemma DownstreamSplit(dag: Graph, c: Node, visited: set<Node>)
    requires c in dag.nodes && visited <= dag.nodes && (forall d :: d in visited <==> Beyond(dag, c, d)) && Acyclic(dag)
    ensures c !in visited && Downstream(dag, c) == visited + {c}
  {
    hide Reach;
    hide Beyond;
    forall d ensures d in Downstream(dag, c) <==> d in visited + {c} { BeyondOrSelf(dag, c, d); }
  }

  /** node_to_scc and scc_sizes. */
  method NumberComponents(g: Graph, sccs: seq<set<Node>>) returns (m: map<Node, Node>, sizes: map<Node, nat>, ids: set<Node>)
    requires IsSccList(g, sccs)
    ensures Numbering(g, sccs, m) && Sizes(m, ids, sizes) && forall c :: c in ids <==> 0 <= c.id < |sccs|
  {
    hide IsSccList;
    m, sizes, ids := map[], map[], {};
    var i := 0;
    while i < |sccs|
      invariant 0 <= i <= |sccs|
      invariant forall v :: v in m <==> exists k :: 0 <= k < i && v in sccs[k]
      invariant forall v :: v in m ==> 0 <= m[v].id < i && v in sccs[m[v].id]
      invariant sizes.Keys == ids && forall c :: c in ids <==> 0 <= c.id < i
      invariant forall c :: c in ids ==> sizes[c] == |sccs[c.id]|
    {
      sizes := sizes[Node(i) := |sccs[i]|];
      ids := ids + {Node(i)};
      m := m + map v | v in sccs[i] :: Node(i);
      i := i + 1;
    }
    NumberingDone(g, sccs, m, ids);
  }

  lemma SccFacts(g: Graph, sccs: seq<set<Node>>)
    requires IsSccList(g, sccs)
    ensures Disjoint(sccs) && (forall v :: v in g.nodes ==> Covers(sccs, v))
    ensures forall i :: 0 <= i < |sccs| ==> sccs[i] <= g.nodes
  {
    hide HasEdge;
    hide Mutual;
    forall i | 0 <= i < |sccs| ensures sccs[i] <= g.nodes { assert IsScc(g, sccs[i]); }
  }

  lemma NumberingDone(g: Graph, sccs: seq<set<Node>>, m: map<Node, Node>, ids: set<Node>)
    requires IsSccList(g, sccs) && forall c :: c in ids <==> 0 <= c.id < |sccs|
    requires forall v :: v in m <==> exists k :: 0 <= k < |sccs| && v in sccs[k]
    requires forall v :: v in m ==> 0 <= m[v].id < |sccs| && v in sccs[m[v].id]
    ensures Numbering(g, sccs, m)
    ensures forall c :: c in ids ==> BlocksOf(m, {c}) == sccs[c.id]
  {
    hide IsSccList;
    SccFacts(g, sccs);
    NumbersAll(g, sccs, m);
    forall c | c in ids ensures BlocksOf(m, {c}) == sccs[c.id] { BlocksOfOne(g, sccs, m, c); }
  }

  lemma NumbersAll(g: Graph, sccs: seq<set<Node>>, m: map<Node, Node>)
    requires (forall v :: v in g.nodes ==> Covers(sccs, v)) && forall i :: 0 <= i < |sccs| ==> sccs[i] <= g.nodes
    requires forall v :: v in m <==> exists k :: 0 <= k < |sccs| && v in sccs[k]
    ensures m.Keys == g.nodes
  {
    forall v ensures v in m.Keys <==> v in g.nodes {
      if v in m {
        var k :| 0 <= k < |sccs| && v in sccs[k];
      }
      if v in g.nodes {
        assert Covers(sccs, v);
        var k :| 0 <= k < |sccs| && v in sccs[k];
      }
    }
  }

  lemma BlocksOfOne(g: Graph, sccs: seq<set<Node>>, m: map<Node, Node>, c: Node)
    requires IsSccList(g, sccs) && Numbering(g, sccs, m) && 0 <= c.id < |sccs|
    ensures BlocksOf(m, {c}) == sccs[c.id]
  {
    hide IsSccList;
    SccFacts(g, sccs);
    forall v ensures v in BlocksOf(m, {c}) <==> v in sccs[c.id] {
      if v in g.nodes { NumberUnique(g, sccs, m, v, c.id); }
    }
  }

  /** Some block of `vs` is numbered `d`. */
  ghost predicate Hits(m: map<Node, Node>, vs: set<Node>, d: Node) {
    exists v :: v in vs && v in m && m[v] == d
  }

  ghost predicate LinkedFrom(g: Graph, m: map<Node, Node>, us: set<Node>, c: Node, d: Node) {
    exists u :: u in us && u in m && m[u] == c && Hits(m, Succ(g, u), d)
  }

  /** The component successors found once the edges out of `us` were seen. */
  ghost predicate LinksOf(g: Graph, m: map<Node, Node>, us: set<Node>, ids: set<Node>, adj: map<Node, set<Node>>) {
    && adj.Keys == ids
    && forall c, d :: c in adj ==> (d in adj[c] <==> c != d && LinkedFrom(g, m, us, c, d))
  }

  lemma HitsAdd(m: map<Node, Node>, vs: set<Node>, v: Node, d: Node)
    ensures Hits(m, vs + {v}, d) <==> Hits(m, vs, d) || (v in m && m[v] == d)
  {
    if Hits(m, vs, d) {
      var x :| x in vs && x in m && m[x] == d;
      assert x in vs + {v};
    }
    assert v in vs + {v};
  }

  lemma LinkedFromAdd(g: Graph, m: map<Node, Node>, us: set<Node>, u: Node, c: Node, d: Node)
    requires u in m
    ensures LinkedFrom(g, m, us + {u}, c, d) <==> LinkedFrom(g, m, us, c, d) || (c == m[u] && Hits(m, Succ(g, u), d))
  {
    hide Hits, Succ;
    if LinkedFrom(g, m, us, c, d) {
      var x :| x in us && x in m && m[x] == c && Hits(m, Succ(g, x), d);
      assert x in us + {u};
    }
    assert u in us + {u};
  }

  /** `adj` is `adj0` with the component of `u` linked to the other components that the blocks in `seen` are in. */
  ghost predicate Grown(m: map<Node, Node>, u: Node, seen: set<Node>, adj0: map<Node, set<Node>>, adj: map<Node, set<Node>>)
    requires u in m
  {
    && adj.Keys == adj0.Keys
    && forall c, d :: c in adj ==> LinkGrown(m, m[u], seen, adj0[c], adj[c], c, d)
  }

  ghost predicate LinkGrown(m: map<Node, Node>, from: Node, seen: set<Node>, before: set<Node>, now: set<Node>, c: Node, d: Node) {
    d in now <==> d in before || (c == from && c != d && Hits(m, seen, d))
  }

  lemma GrownStep(m: map<Node, Node>, u: Node, seen: set<Node>, adj0: map<Node, set<Node>>, adj: map<Node, set<Node>>, v: Node)
    requires u in m && v in m && Grown(m, u, seen, adj0, adj) && m[u] in adj
    ensures Grown(m, u, seen + {v}, adj0, if m[u] != m[v] then adj[m[u] := adj[m[u]] + {m[v]}] else adj)
  {
    hide Hits;
    var adj' := if m[u] != m[v] then adj[m[u] := adj[m[u]] + {m[v]}] else adj;
    forall c, d | c in adj' ensures LinkGrown(m, m[u], seen + {v}, adj0[c], adj'[c], c, d) {
      assert LinkGrown(m, m[u], seen, adj0[c], adj[c], c, d);
      HitsAdd(m, seen, v, d);
    }
  }

  method LinkSuccessors(g: Graph, m: map<Node, Node>, u: Node, adj0: map<Node, set<Node>>) returns (adj: map<Node, set<Node>>)
    requires g.nodes <= m.Keys && u in m && m[u] in adj0
    ensures Grown(m, u, Succ(g, u), adj0, adj)
  {
    adj := adj0;
    var vs := Succ(g, u);
    ghost var seen: set<Node> := {};
    while vs != {}
      invariant vs <= Succ(g, u) && seen == Succ(g, u) - vs && m[u] in adj && Grown(m, u, seen, adj0, adj)
      decreases vs
    {
      hide Grown;
      var v := Pick(vs);
      GrownStep(m, u, seen, adj0, adj, v);
      vs := vs - {v};
      seen := seen + {v};
      if m[u] != m[v] { adj := adj[m[u] := adj[m[u]] + {m[v]}]; }
    }
    assert seen == Succ(g, u);
  }

  lemma LinksStep(g: Graph, m: map<Node, Node>, us: set<Node>, ids: set<Node>, adj: map<Node, set<Node>>, u: Node,
                  next: map<Node, set<Node>>)
    requires u in m && LinksOf(g, m, us, ids, adj) && Grown(m, u, Succ(g, u), adj, next)
    ensures LinksOf(g, m, us + {u}, ids, next)
  {
    forall c, d | c in next ensures d in next[c] <==> c != d && LinkedFrom(g, m, us + {u}, c, d) {
      LinkedFromAdd(g, m, us, u, c, d);
      assert d in adj[c] <==> c != d && LinkedFrom(g, m, us, c, d);
      assert LinkGrown(m, m[u], Succ(g, u), adj[c], next[c], c, d);
    }
  }

  /** scc_dag_fwd */
  method BuildDag(g: Graph, m: map<Node, Node>, ids: set<Node>, ghost sccs: seq<set<Node>>) returns (dag: Graph)
    requires Numbering(g, sccs, m) && forall c :: c in ids <==> 0 <= c.id < |sccs|
    ensures dag.nodes == ids && Condensation(g, sccs, m, dag)
  {
    hide LinkedFrom, Grown, Succ;
    var adj: map<Node, set<Node>> := map c | c in ids :: {};
    var us := g.nodes;
    ghost var seen: set<Node> := {};
    LinkedFromNone(g, m);
    while us != {}
      invariant us <= g.nodes && seen == g.nodes - us && LinksOf(g, m, seen, ids, adj)
      decreases us
    {
      var u := Pick(us);
      var next := LinkSuccessors(g, m, u, adj);
      LinksStep(g, m, seen, ids, adj, u, next);
      us, seen, adj := us - {u}, seen + {u}, next;
    }
    assert seen == g.nodes;
    dag := Graph(ids, adj);
    LinksComplete(g, m, ids, sccs, adj);
  }

  lemma LinkedFromNone(g: Graph, m: map<Node, Node>)
    ensures forall c, d :: !LinkedFrom(g, m, {}, c, d)
  {
  }

  lemma LinksComplete(g: Graph, m: map<Node, Node>, ids: set<Node>, sccs: seq<set<Node>>, adj: map<Node, set<Node>>)
    requires Numbering(g, sccs, m) && (forall c :: c in ids <==> 0 <= c.id < |sccs|) && LinksOf(g, m, g.nodes, ids, adj)
    ensures Condensation(g, sccs, m, Graph(ids, adj))
  {
    forall c, d ensures LinkedFrom(g, m, g.nodes, c, d) <==> Linked(g, m, c, d) {
      if Linked(g, m, c, d) {
        var u, v :| Edge(g, u, v) && u in m && v in m && m[u] == c && m[v] == d;
        assert Hits(m, Succ(g, u), d);
      }
      if LinkedFrom(g, m, g.nodes, c, d) {
        var u :| u in g.nodes && u in m && m[u] == c && Hits(m, Succ(g, u), d);
        var v :| v in Succ(g, u) && v in m && m[v] == d;
        assert Edge(g, u, v);
      }
    }
    hide LinkedFrom;
    forall c, d ensures Edge(Graph(ids, adj), c, d) <==> c != d && Linked(g, m, c, d) {
      if Linked(g, m, c, d) { assert c in ids && d in ids; }
    }
  }

  // -------------------------------------------------------------- the two features

  lemma DagForward(g: Graph, sccs: seq<set<Node>>, m: map<Node, Node>, dag: Graph, c: Node, d: Node)
    requires IsSccList(g, sccs) && Numbering(g, sccs, m) && Condensation(g, sccs, m, dag) && Edge(dag, c, d)
    ensures c.id < d.id
  {
    hide IsScc;
    assert Linked(g, m, c, d);
    var u, v :| Edge(g, u, v) && u in m && v in m && m[u] == c && m[v] == d;
    assert HasEdge(g, sccs[c.id], sccs[d.id]);
  }

  lemma {:induction false} PathForward(dag: Graph, p: seq<Node>)
    requires IsPath(dag, p) && forall c, d :: Edge(dag, c, d) ==> c.id < d.id
    ensures p[0].id <= p[|p| - 1].id
    decreases |p|
  {
    if |p| > 1 {
      assert Edge(dag, p[|p| - 2], p[|p| - 1]);
      PathForward(dag, p[..|p| - 1]);
    }
  }

  lemma DagAcyclic(g: Graph, sccs: seq<set<Node>>, m: map<Node, Node>, dag: Graph)
    requires IsSccList(g, sccs) && Numbering(g, sccs, m) && Condensation(g, sccs, m, dag)
    ensures Acyclic(dag)
  {
    hide IsSccList;
    hide Condensation;
    forall c, d | Edge(dag, c, d) ensures c.id < d.id { DagForward(g, sccs, m, dag, c, d); }
    forall c | c in dag.nodes ensures !Beyond(dag, c, c) {
      if Beyond(dag, c, c) {
        var x :| Edge(dag, c, x) && Reach(dag, x, c);
        var p: seq<Node> :| PathFrom(dag, x, c, p);
        PathForward(dag, p);
        assert false;
      }
    }
  }

  /** Turning all edges around creates no cycle. */
  lemma ReverseAcyclic(dag: Graph, rev: Graph)
    requires IsReverse(dag, rev) && Acyclic(dag)
    ensures Acyclic(rev)
  {
    forall c | c in rev.nodes ensures !Beyond(rev, c, c) {
      if Beyond(rev, c, c) {
        var x :| Edge(rev, c, x) && Reach(rev, x, c);
        ReachReverse(dag, rev, c, x);
        assert Edge(dag, x, c) && Reach(dag, c, x);
        if c == x {
          ReachRefl(dag, c);
        } else {
          BeyondOrSelf(dag, c, x);
          BeyondStep(dag, c, x);
        }
        assert false;
      }
    }
  }

  lemma DescendantsCounted(g: Graph, sccs: seq<set<Node>>, m: map<Node, Node>, dag: Graph, b: Node)
    requires IsSccList(g, sccs) && Numbering(g, sccs, m) && Condensation(g, sccs, m, dag) && b in g.nodes
    ensures |Descendants(g, b)| == |BlocksOf(m, Downstream(dag, m[b]))| - 1
  {
    hide IsSccList;
    hide Condensation;
    hide Reach;
    forall v | v in g.nodes ensures v in BlocksOf(m, Downstream(dag, m[b])) <==> Reach(g, b, v) {
      ReachCondensed(g, sccs, m, dag, b, v);
      CondensationNodes(g, sccs, m, dag, v);
    }
    ReachRefl(g, b);
    assert BlocksOf(m, Downstream(dag, m[b])) == Descendants(g, b) + {b};
  }

  lemma CondensationNodes(g: Graph, sccs: seq<set<Node>>, m: map<Node, Node>, dag: Graph, v: Node)
    requires Numbering(g, sccs, m) && Condensation(g, sccs, m, dag) && v in g.nodes
    ensures m[v] in dag.nodes
  {
  }

  lemma AncestorsCounted(g: Graph, sccs: seq<set<Node>>, m: map<Node, Node>, dag: Graph, rev: Graph, b: Node)
    requires IsSccList(g, sccs) && Numbering(g, sccs, m) && Condensation(g, sccs, m, dag) && b in g.nodes
    requires IsReverse(dag, rev)
    ensures |Ancestors(g, b)| == |BlocksOf(m, Downstream(rev, m[b]))| - 1
  {
    hide IsSccList;
    hide Condensation;
    hide Reach;
    hide IsReverse;
    assert rev.nodes == dag.nodes by { ReverseNodes(dag, rev); }
    forall v | v in g.nodes ensures v in BlocksOf(m, Downstream(rev, m[b])) <==> Reach(g, v, b) {
      ReachCondensed(g, sccs, m, dag, v, b);
      ReachReverse(dag, rev, m[v], m[b]);
      CondensationNodes(g, sccs, m, dag, v);
    }
    ReachRefl(g, b);
    assert BlocksOf(m, Downstream(rev, m[b])) == Ancestors(g, b) + {b};
  }

  lemma ReverseNodes(g: Graph, r: Graph)
    requires IsReverse(g, r)
    ensures r.nodes == g.nodes
  {
  }

  lemma OtherBlocks(g: Graph, b: Node)
    ensures Descendants(g, b) == set v | v in g.nodes && v != b && Reach(g, b, v)
    ensures Ancestors(g, b) == set v | v in g.nodes && v != b && Reach(g, v, b)
  {
  }

  /** compute_static_reachability_features: the counts are those of the other blocks that the block
      reaches, and that reach it, by CFG paths. */
  method ComputeStaticReachability(g: Graph) returns (descendants: map<Node, int>, ancestors: map<Node, int>)
    ensures descendants.Keys == g.nodes && ancestors.Keys == g.nodes
    ensures forall b :: b in g.nodes ==> descendants[b] == |set v | v in g.nodes && v != b && Reach(g, b, v)|
    ensures forall b :: b in g.nodes ==> ancestors[b] == |set v | v in g.nodes && v != b && Reach(g, v, b)|
  {
    hide IsSccList;
    hide Condensation;
    hide Acyclic;
    hide IsReverse;
    hide Descendants;
    hide Ancestors;
    hide BlocksOf;
    hide Downstream;
    hide Reach;
    var sccs := ComputeSccs(g);
    var m, sizes, ids := NumberComponents(g, sccs);
    var dag := BuildDag(g, m, ids, sccs);
    var rev := Reverse(dag);
    ReverseNodes(dag, rev);
    DagAcyclic(g, sccs, m, dag);
    ReverseAcyclic(dag, rev);
    var down := ReachableSizes(dag, sizes, m);
    var up := ReachableSizes(rev, sizes, m);
    forall b | b in g.nodes ensures m[b] in dag.nodes { CondensationNodes(g, sccs, m, dag, b); }
    descendants := map b | b in g.nodes :: down[m[b]];
    ancestors := map b | b in g.nodes :: up[m[b]];
    forall b | b in g.nodes
      ensures descendants[b] == |set v | v in g.nodes && v != b && Reach(g, b, v)|
      ensures ancestors[b] == |set v | v in g.nodes && v != b && Reach(g, v, b)|
    {
      DescendantsCounted(g, sccs, m, dag, b);
      AncestorsCounted(g, sccs, m, dag, rev, b);
      OtherBlocks(g, b);
    }
  }
}
