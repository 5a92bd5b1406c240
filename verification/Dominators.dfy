/** Dominators of the blocks of one function, by iterating to a fixpoint. */
module Dominators {
  import opened Base
  import opened Graph

  ghost function PredSet(g: Graph, n: Node): (us: set<Node>) { set u | u in g.nodes && Edge(g, u, n) }

  /** Where paths may start: the chosen entry, and every block without predecessor. */
  ghost predicate Root(g: Graph, entry: Node, n: Node) {
    n in g.nodes && (n == entry || PredSet(g, n) == {})
  }

  ghost predicate RootPath(g: Graph, entry: Node, n: Node, p: seq<Node>) {
    IsPath(g, p) && Root(g, entry, p[0]) && p[|p| - 1] == n
  }

  /** `d` lies on every path from a root to `n`. */
  ghost predicate Dominates(g: Graph, entry: Node, d: Node, n: Node) {
    forall p: seq<Node> :: RootPath(g, entry, n, p) ==> d in p
  }

  ghost predicate Rooted(g: Graph, entry: Node, n: Node) {
    exists p: seq<Node> :: RootPath(g, entry, n, p)
  }

  type DomMap = map<Node, set<Node>>

  // ---------------------------------------------------------------- invariants

  ghost predicate Total(g: Graph, entry: Node, dom: DomMap) {
    && dom.Keys == g.nodes && entry in g.nodes && dom[entry] == {entry}
    && forall n :: n in dom ==> dom[n] <= g.nodes
  }

  /** What the dataflow equation asks of `n`. */
  ghost function NewDom(g: Graph, dom: DomMap, n: Node): (ds: set<Node>)
    requires dom.Keys == g.nodes
  {
    if PredSet(g, n) == {} then {n}
    else (set d | d in g.nodes && (forall p :: p in PredSet(g, n) ==> d in dom[p])) + {n}
  }

  /** No dominator has been lost. */
  ghost predicate Sound(g: Graph, entry: Node, dom: DomMap)
    requires Total(g, entry, dom)
  {
    forall n, d :: n in g.nodes && d in g.nodes && Dominates(g, entry, d, n) ==> d in dom[n]
  }

  /** Recomputing can only shrink. */
  ghost predicate Shrinking(g: Graph, entry: Node, dom: DomMap)
    requires Total(g, entry, dom)
  {
    forall n :: n in g.nodes && n != entry ==> NewDom(g, dom, n) <= dom[n]
  }

  ghost predicate DomInv(g: Graph, entry: Node, dom: DomMap) {
    Total(g, entry, dom) && Sound(g, entry, dom) && Shrinking(g, entry, dom)
  }

  lemma InitialDom(g: Graph, entry: Node, dom: DomMap)
    requires dom.Keys == g.nodes && entry in g.nodes && dom[entry] == {entry}
    requires forall n :: n in g.nodes && n != entry ==> dom[n] == g.nodes
    ensures DomInv(g, entry, dom)
  {
    forall d | d in g.nodes && Dominates(g, entry, d, entry) ensures d in dom[entry] {
      assert RootPath(g, entry, entry, [entry]);
    }
  }

  /** A dominator of `n` other than `n` dominates every predecessor of `n`. */
  lemma DominatesPred(g: Graph, entry: Node, d: Node, n: Node, u: Node)
    requires Dominates(g, entry, d, n) && d != n && Edge(g, u, n)
    ensures Dominates(g, entry, d, u)
  {
    forall p: seq<Node> | RootPath(g, entry, u, p) ensures d in p {
      var q := p + [n];
      forall i | 0 <= i < |q| - 1 ensures Edge(g, q[i], q[i + 1]) {
        if i < |p| - 1 { assert Edge(g, p[i], p[i + 1]); }
      }
      assert RootPath(g, entry, n, q);
      assert d in q;
    }
  }

  lemma NewDomSound(g: Graph, entry: Node, dom: DomMap, n: Node, d: Node)
    requires Total(g, entry, dom) && Sound(g, entry, dom)
    requires n in g.nodes && d in g.nodes && Dominates(g, entry, d, n)
    ensures d in NewDom(g, dom, n)
  {
    hide Dominates;
    if PredSet(g, n) == {} {
      RootDominatesItself(g, entry, n, d);
    } else if d != n {
      forall p | p in PredSet(g, n) ensures d in dom[p] { DominatesPred(g, entry, d, n, p); }
    }
  }

  lemma RootDominatesItself(g: Graph, entry: Node, n: Node, d: Node)
    requires Root(g, entry, n) && Dominates(g, entry, d, n)
    ensures d == n
  {
    assert RootPath(g, entry, n, [n]);
  }

  lemma NewDomMonotone(g: Graph, dom: DomMap, dom': DomMap, n: Node)
    requires dom.Keys == g.nodes == dom'.Keys && forall k :: k in dom ==> dom'[k] <= dom[k]
    ensures NewDom(g, dom', n) <= NewDom(g, dom, n)
  {
  }

  /** One update of the iteration. */
  lemma UpdateKeeps(g: Graph, entry: Node, dom: DomMap, n: Node)
    requires DomInv(g, entry, dom) && n in g.nodes && n != entry
    ensures DomInv(g, entry, dom[n := NewDom(g, dom, n)])
  {
    hide Dominates;
    var dom' := dom[n := NewDom(g, dom, n)];
    forall k | k in g.nodes && k != entry ensures NewDom(g, dom', k) <= dom'[k] {
      NewDomMonotone(g, dom, dom', k);
    }
    forall k, d | k in g.nodes && d in g.nodes && Dominates(g, entry, d, k) ensures d in dom'[k] {
      if k == n { NewDomSound(g, entry, dom, n, d); }
    }
  }

  /** At a fixpoint only blocks on the path remain. */
  lemma {:induction false} FixpointOnPath(g: Graph, entry: Node, dom: DomMap, p: seq<Node>, d: Node)
    requires Total(g, entry, dom) && (forall n :: n in g.nodes && n != entry ==> dom[n] == NewDom(g, dom, n))
    requires IsPath(g, p) && Root(g, entry, p[0]) && p[|p| - 1] in g.nodes && d in dom[p[|p| - 1]]
    ensures d in p
    decreases |p|
  {
    var n := p[|p| - 1];
    if n == entry {
      assert d == n;
    } else if |p| > 1 {
      var u := p[|p| - 2];
      assert Edge(g, u, n);
      assert u in PredSet(g, n);
      if d != n { FixpointOnPath(g, entry, dom, p[..|p| - 1], d); }
    }
  }

  lemma FixpointExact(g: Graph, entry: Node, dom: DomMap, n: Node, d: Node)
    requires DomInv(g, entry, dom) && (forall k :: k in g.nodes && k != entry ==> dom[k] == NewDom(g, dom, k))
    requires n in g.nodes && d in g.nodes
    ensures d in dom[n] <==> Dominates(g, entry, d, n)
  {
    if d in dom[n] {
      forall p: seq<Node> | RootPath(g, entry, n, p) ensures d in p { FixpointOnPath(g, entry, dom, p, d); }
    }
  }

  // ------------------------------------------------------------------ algorithm

  /** func_preds */
  method BuildPreds(g: Graph) returns (preds: map<Node, set<Node>>)
    ensures preds.Keys == g.nodes && forall n :: n in g.nodes ==> preds[n] == PredSet(g, n)
  {
    preds := map n | n in g.nodes :: {};
    var us := g.nodes;
    while us != {}
      invariant us <= g.nodes && preds.Keys == g.nodes
      invariant forall n, u :: n in preds ==> (u in preds[n] <==> u in g.nodes - us && Edge(g, u, n))
      decreases us
    {
      var u := Pick(us);
      ghost var preds0, us0 := preds, us;
      us := us - {u};
      preds := map n | n in g.nodes :: if n in Succ(g, u) then preds[n] + {u} else preds[n];
      forall n, w | n in preds ensures w in preds[n] <==> w in g.nodes - us && Edge(g, w, n) {
        assert w in preds0[n] <==> w in g.nodes - us0 && Edge(g, w, n);
      }
    }
    forall n | n in g.nodes ensures preds[n] == PredSet(g, n) {
      forall u ensures u in preds[n] <==> u in PredSet(g, n) {
        assert u in g.nodes - us <==> u in g.nodes;
      }
    }
  }

  /** entry_bb: any block without predecessor, or the lowest address if there is none. */
  method ChooseEntry(g: Graph, preds: map<Node, set<Node>>) returns (entry: Node)
    requires g.nodes != {} && preds.Keys == g.nodes && forall n :: n in g.nodes ==> preds[n] == PredSet(g, n)
    ensures entry in g.nodes
    ensures PredSet(g, entry) == {} || forall n :: n in g.nodes ==> PredSet(g, n) != {} && entry.id <= n.id
  {
    hide PredSet;
    var candidates := set n | n in g.nodes && preds[n] == {};
    if candidates != {} {
      entry := Pick(candidates);
    } else {
      forall n | n in g.nodes ensures PredSet(g, n) != {} { assert n !in candidates; }
      entry := Pick(g.nodes);
      var rest := g.nodes;
      while rest != {}
        invariant rest <= g.nodes && entry in g.nodes
        invariant forall n :: n in g.nodes - rest ==> entry.id <= n.id
        decreases rest
      {
        var n := Pick(rest);
        rest := rest - {n};
        if n.id < entry.id { entry := n; }
      }
    }
  }

  /** The intersection over the predecessors, plus the block itself. */
  method Recompute(g: Graph, preds: map<Node, set<Node>>, dom: DomMap, n: Node) returns (ds: set<Node>)
    requires n in g.nodes && dom.Keys == g.nodes == preds.Keys && (forall k :: k in g.nodes ==> preds[k] == PredSet(g, k))
    requires forall k :: k in dom ==> dom[k] <= g.nodes
    ensures ds == NewDom(g, dom, n)
  {
    if preds[n] == {} { return {n}; }
    var rest := preds[n];
    var p := Pick(rest);
    ds := dom[p];
    rest := rest - {p};
    while rest != {}
      invariant rest <= preds[n] && ds <= g.nodes
      invariant forall d :: d in ds <==> d in g.nodes && forall q :: q in preds[n] - rest ==> d in dom[q]
      decreases rest
    {
      var q := Pick(rest);
      ds := ds * dom[q];
      rest := rest - {q};
    }
    ds := ds + {n};
  }

  /** All (block, candidate dominator) pairs: what the iteration uses up. */
  ghost function Pairs(g: Graph, dom: DomMap): (ps: set<(Node, Node)>)
    requires dom.Keys == g.nodes
  {
    set n, d | n in g.nodes && d in dom[n] :: (n, d)
  }

  lemma PairsShrink(g: Graph, dom: DomMap, n: Node, ds: set<Node>)
    requires dom.Keys == g.nodes && n in g.nodes && ds <= dom[n] && ds != dom[n]
    ensures Pairs(g, dom[n := ds]) < Pairs(g, dom)
  {
    var dom' := dom[n := ds];
    forall x | x in Pairs(g, dom') ensures x in Pairs(g, dom) {
      assert x.0 in g.nodes && x.1 in dom'[x.0];
    }
    assert exists d :: d in dom[n] && d !in ds;
    var d :| d in dom[n] && d !in ds;
    assert (n, d) in Pairs(g, dom);
    assert (n, d) !in Pairs(g, dom');
  }

  /** One round over all blocks, in any order. */
  method Round(g: Graph, preds: map<Node, set<Node>>, entry: Node, dom0: DomMap) returns (dom: DomMap, changed: bool)
    requires DomInv(g, entry, dom0) && preds.Keys == g.nodes && forall n :: n in g.nodes ==> preds[n] == PredSet(g, n)
    ensures DomInv(g, entry, dom)
    ensures changed ==> Pairs(g, dom) < Pairs(g, dom0)
    ensures !changed ==> dom == dom0 && forall n :: n in g.nodes && n != entry ==> dom[n] == NewDom(g, dom, n)
  {
    hide Sound;
    hide Shrinking;
    hide NewDom;
    hide Pairs;
    dom, changed := dom0, false;
    var rest := g.nodes;
    while rest != {}
      invariant rest <= g.nodes && DomInv(g, entry, dom)
      invariant changed ==> Pairs(g, dom) < Pairs(g, dom0)
      invariant !changed ==> dom == dom0 && forall n :: n in g.nodes - rest && n != entry ==> dom[n] == NewDom(g, dom, n)
      decreases rest
    {
      var n := Pick(rest);
      rest := rest - {n};
      if n != entry {
        var ds := Recompute(g, preds, dom, n);
        ShrinkAt(g, entry, dom, n);
        if ds != dom[n] {
          PairsShrink(g, dom, n, ds);
          UpdateKeeps(g, entry, dom, n);
          dom := dom[n := ds];
          changed := true;
        }
      }
    }
  }

  lemma ShrinkAt(g: Graph, entry: Node, dom: DomMap, n: Node)
    requires DomInv(g, entry, dom) && n in g.nodes && n != entry
    ensures NewDom(g, dom, n) <= dom[n]
  {
  }

  /** The dominator computation of compute_loop_features: it halts, and finds exactly the blocks
      that lie on every path from a root. */
  method ComputeDominators(g: Graph, preds: map<Node, set<Node>>, entry: Node) returns (dom: DomMap)
    requires entry in g.nodes && preds.Keys == g.nodes && forall n :: n in g.nodes ==> preds[n] == PredSet(g, n)
    ensures dom.Keys == g.nodes && forall n :: n in dom ==> dom[n] <= g.nodes
    ensures forall n, d :: n in g.nodes && d in g.nodes ==> (d in dom[n] <==> Dominates(g, entry, d, n))
  {
    hide Dominates;
    hide Sound;
    hide Shrinking;
    dom := map n | n in g.nodes :: if n == entry then {entry} else g.nodes;
    InitialDom(g, entry, dom);
    var changed := true;
    while changed
      invariant DomInv(g, entry, dom)
      invariant !changed ==> forall n :: n in g.nodes && n != entry ==> dom[n] == NewDom(g, dom, n)
      decreases Pairs(g, dom), changed
    {
      dom, changed := Round(g, preds, entry, dom);
    }
    forall n, d | n in g.nodes && d in g.nodes ensures d in dom[n] <==> Dominates(g, entry, d, n) {
      FixpointExact(g, entry, dom, n, d);
    }
  }

  /** A block no root reaches is dominated by everything. */
  lemma UnrootedDominated(g: Graph, entry: Node, n: Node, d: Node)
    requires !Rooted(g, entry, n)
    ensures Dominates(g, entry, d, n)
  {
  }

  /** Which of several predecessor-free blocks is taken as entry does not matter. */
  lemma EntryIrrelevant(g: Graph, entry: Node, other: Node, d: Node, n: Node)
    requires entry in g.nodes && other in g.nodes && PredSet(g, entry) == {} && PredSet(g, other) == {}
    ensures Dominates(g, entry, d, n) <==> Dominates(g, other, d, n)
  {
    assert forall p: seq<Node> :: RootPath(g, entry, n, p) <==> RootPath(g, other, n, p);
  }
}
