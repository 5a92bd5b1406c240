/** Adjacency in block numbers, built from the successor sets of the control-flow graph. */
module Adjacency {
  import opened Base
  import opened Graph

  type Succs = map<Node, set<Node>>

  datatype Arc = Arc(from: Node, to: Node)

  predicate Has(adj: Succs, i: Node, k: Node) { i in adj && k in adj[i] }

  function AddArc(adj: Succs, i: Node, k: Node): (r: Succs)
    ensures forall x, y :: Has(r, x, y) <==> Has(adj, x, y) || (x == i && y == k)
  {
    adj[i := (if i in adj then adj[i] else {}) + {k}]
  }

  /** The arc joins two different numbered blocks, `i` and `k` by number. */
  ghost predicate Joins(index: map<Node, Node>, e: Arc, i: Node, k: Node) {
    e.from in index && e.to in index && e.from != e.to && index[e.from] == i && index[e.to] == k
  }

  ghost predicate Shows(index: map<Node, Node>, arcs: set<Arc>, i: Node, k: Node) {
    exists e :: e in arcs && Joins(index, e, i, k)
  }

  /** The adjacency has exactly the given arcs, each also backwards when `undirected`. */
  ghost predicate Reflects(index: map<Node, Node>, arcs: set<Arc>, undirected: bool, adj: Succs) {
    forall i, k :: Has(adj, i, k) <==> Shows(index, arcs, i, k) || (undirected && Shows(index, arcs, k, i))
  }

  ghost function Arcs(cfg: Succs, from: set<Node>): (arcs: set<Arc>) {
    set a, b | a in from && a in cfg && b in cfg[a] :: Arc(a, b)
  }

  lemma ShowsMore(index: map<Node, Node>, arcs: set<Arc>, e: Arc, i: Node, k: Node)
    ensures Shows(index, arcs + {e}, i, k) <==> Shows(index, arcs, i, k) || Joins(index, e, i, k)
  {
    hide Joins;
    if Shows(index, arcs, i, k) {
      var x :| x in arcs && Joins(index, x, i, k);
      assert x in arcs + {e};
    }
    assert e in arcs + {e};
  }

  lemma ReflectsMore(index: map<Node, Node>, arcs: set<Arc>, undirected: bool, adj: Succs, e: Arc, adj': Succs)
    requires Reflects(index, arcs, undirected, adj)
    requires forall i, k :: Has(adj', i, k) <==>
                            Has(adj, i, k) || Joins(index, e, i, k) || (undirected && Joins(index, e, k, i))
    ensures Reflects(index, arcs + {e}, undirected, adj')
  {
    hide Joins, Has, Shows;
    forall i, k ensures Shows(index, arcs + {e}, i, k) <==> Shows(index, arcs, i, k) || Joins(index, e, i, k) {
      ShowsMore(index, arcs, e, i, k);
    }
  }

  /** Arcs out of a block without a number show nothing. */
  lemma ReflectsUnnumbered(cfg: Succs, index: map<Node, Node>, from: set<Node>, undirected: bool, adj: Succs, a: Node)
    requires Reflects(index, Arcs(cfg, from), undirected, adj) && a !in index
    ensures Reflects(index, Arcs(cfg, from + {a}), undirected, adj)
  {
    hide Has;
    forall i, k ensures Shows(index, Arcs(cfg, from + {a}), i, k) <==> Shows(index, Arcs(cfg, from), i, k) {
      if Shows(index, Arcs(cfg, from + {a}), i, k) {
        var e :| e in Arcs(cfg, from + {a}) && Joins(index, e, i, k);
        assert e in Arcs(cfg, from);
      }
      if Shows(index, Arcs(cfg, from), i, k) {
        var e :| e in Arcs(cfg, from) && Joins(index, e, i, k);
        assert e in Arcs(cfg, from + {a});
      }
    }
  }

  method ScanBlock(cfg: Succs, index: map<Node, Node>, undirected: bool, ghost from: set<Node>, a: Node, adj0: Succs)
    returns (adj: Succs)
    requires a in cfg && a in index && Reflects(index, Arcs(cfg, from), undirected, adj0)
    ensures Reflects(index, Arcs(cfg, from + {a}), undirected, adj)
  {
    hide Reflects;
    adj := adj0;
    var rest := cfg[a];
    ghost var arcs := Arcs(cfg, from);
    while rest != {}
      invariant rest <= cfg[a] && Reflects(index, arcs, undirected, adj)
      invariant arcs <= Arcs(cfg, from + {a}) && Arcs(cfg, from) <= arcs
      invariant forall b :: b in cfg[a] - rest ==> Arc(a, b) in arcs
      decreases rest
    {
      var b := Pick(rest);
      var before := adj;
      if b in index && a != b {
        adj := AddArc(adj, index[a], index[b]);
        if undirected { adj := AddArc(adj, index[b], index[a]); }
      }
      ReflectsMore(index, arcs, undirected, before, Arc(a, b), adj);
      assert Arc(a, b) in Arcs(cfg, from + {a});
      arcs := arcs + {Arc(a, b)};
      rest := rest - {b};
    }
    assert arcs == Arcs(cfg, from + {a});
  }

  /** Edges of a block to itself and edges to unnumbered blocks are dropped, everything else is kept. */
  method BuildAdjacency(cfg: Succs, index: map<Node, Node>, undirected: bool) returns (adj: Succs)
    ensures Reflects(index, Arcs(cfg, cfg.Keys), undirected, adj)
  {
    hide Reflects, Arcs;
    adj := map[];
    var todo := cfg.Keys;
    ReflectsNone(cfg, index, undirected);
    assert cfg.Keys - todo == {};
    while todo != {}
      invariant todo <= cfg.Keys && Reflects(index, Arcs(cfg, cfg.Keys - todo), undirected, adj)
      decreases todo
    {
      var a := Pick(todo);
      if a in index {
        adj := ScanBlock(cfg, index, undirected, cfg.Keys - todo, a, adj);
      } else {
        ReflectsUnnumbered(cfg, index, cfg.Keys - todo, undirected, adj, a);
      }
      assert cfg.Keys - todo + {a} == cfg.Keys - (todo - {a});
      todo := todo - {a};
    }
    assert cfg.Keys - todo == cfg.Keys;
  }

  lemma ReflectsNone(cfg: Succs, index: map<Node, Node>, undirected: bool)
    ensures Reflects(index, Arcs(cfg, {}), undirected, map[])
  {
  }

  /** Walking in either direction, the undirected adjacency contains the directed one and is symmetric. */
  lemma UndirectedExtends(index: map<Node, Node>, arcs: set<Arc>, directed: Succs, both: Succs, i: Node, k: Node)
    requires Reflects(index, arcs, false, directed) && Reflects(index, arcs, true, both)
    ensures Has(both, i, k) <==> Has(directed, i, k) || Has(directed, k, i)
  {
  }

  /** With one number per block, no block is its own successor. */
  lemma NoSelfLoop(index: map<Node, Node>, arcs: set<Arc>, undirected: bool, adj: Succs, i: Node)
    requires Reflects(index, arcs, undirected, adj)
    requires forall a, b :: a in index && b in index && index[a] == index[b] ==> a == b
    ensures !Has(adj, i, i)
  {
    hide Has;
    forall e | e in arcs ensures !Joins(index, e, i, i) {}
  }
}
