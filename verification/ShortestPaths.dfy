/** Walks of a given length, distances, and how many shortest paths pass a node. */
module ShortestPaths {
  import opened Graph
  import opened FiniteSum
  import opened Dominators

  // -------------------------------------------------------- families of paths

  type Family = Node -> set<seq<Node>>

  /** Every path of the family of a node in `us`, continued to `w`. */
  ghost function Extend(us: set<Node>, fam: Family, w: Node): (ps: set<seq<Node>>) {
    set u, p | u in us && p in fam(u) :: p + [w]
  }

  ghost predicate EndsRight(us: set<Node>, fam: Family) {
    forall u, p :: u in us && p in fam(u) ==> p != [] && p[|p| - 1] == u
  }

  lemma {:induction false} AppendBijection(ps: set<seq<Node>>, w: Node, qs: set<seq<Node>>)
    requires forall q :: q in qs <==> exists p :: p in ps && q == p + [w]
    ensures |qs| == |ps|
    decreases ps
  {
    if ps == {} {
      assert qs == {};
    } else {
      var p :| p in ps;
      var q := p + [w];
      forall r ensures r in qs - {q} <==> exists p' :: p' in ps - {p} && r == p' + [w] {
        if r in qs - {q} {
          var p' :| p' in ps && r == p' + [w];
          assert p' in ps - {p};
        }
        if exists p' :: p' in ps - {p} && r == p' + [w] {
          var p' :| p' in ps - {p} && r == p' + [w];
          assert r[..|r| - 1] == p' && q[..|q| - 1] == p;
        }
      }
      AppendBijection(ps - {p}, w, qs - {q});
    }
  }

  lemma ExtendSplit(us: set<Node>, fam: Family, u: Node, w: Node)
    requires u in us && EndsRight(us, fam)
    ensures |Extend(us, fam, w)| == |Extend(us - {u}, fam, w)| + |fam(u)|
  {
    var a, b := Extend(us - {u}, fam, w), Extend({u}, fam, w);
    assert Extend(us, fam, w) == a + b;
    forall p | p in a ensures p !in b {
      var x, q :| x in us - {u} && q in fam(x) && p == q + [w];
      forall r | r in fam(u) ensures p != r + [w] {
        assert p[|p| - 2] == x && (r + [w])[|r| - 1] == u;
      }
    }
    assert a !! b;
    AppendBijection(fam(u), w, b);
  }

  /** Paths through different last-but-one nodes differ, so their numbers add up. */
  lemma {:induction false} CountExtend(us: set<Node>, fam: Family, w: Node)
    requires EndsRight(us, fam)
    ensures |Extend(us, fam, w)| as real == Sum(us, u => |fam(u)| as real)
    decreases us
  {
    if us == {} {
      assert Extend(us, fam, w) == {};
    } else {
      var u :| u in us;
      CountExtend(us - {u}, fam, w);
      SumPick(us, x => |fam(x)| as real, u);
      ExtendSplit(us, fam, u, w);
    }
  }

  // -------------------------------------------------------------------- walks

  /** All walks of `k` edges from `s` to `w`. */
  ghost function Walks(g: Graph, s: Node, k: nat, w: Node): (ps: set<seq<Node>>)
    decreases k
  {
    if k == 0 then (if w == s && s in g.nodes then {[s]} else {})
    else Extend(PredSet(g, w), u => Walks(g, s, k - 1, u), w)
  }

  lemma {:induction false} WalkShape(g: Graph, s: Node, k: nat, w: Node, p: seq<Node>)
    ensures p in Walks(g, s, k, w) <==> PathFrom(g, s, w, p) && |p| == k + 1
    decreases k
  {
    if k == 0 {
      if PathFrom(g, s, w, p) && |p| == 1 { assert p == [s]; }
    } else {
      if p in Walks(g, s, k, w) {
        assert p in Extend(PredSet(g, w), u => Walks(g, s, k - 1, u), w);
        var u, q :| u in PredSet(g, w) && q in Walks(g, s, k - 1, u) && p == q + [w];
        WalkShape(g, s, k - 1, u, q);
        forall i | 0 <= i < |p| - 1 ensures Edge(g, p[i], p[i + 1]) {
          if i < |q| - 1 { assert p[i] == q[i] && p[i + 1] == q[i + 1]; }
        }
      }
      if PathFrom(g, s, w, p) && |p| == k + 1 {
        var q, u := p[..k], p[k - 1];
        assert Edge(g, p[k - 1], p[k]);
        assert PathFrom(g, s, u, q);
        PathNodes(g, p, k - 1);
        WalkShape(g, s, k - 1, u, q);
        assert u in PredSet(g, w);
        assert p == q + [w];
      }
    }
  }

  // ---------------------------------------------------------------- distances

  type Dist = map<Node, nat>

  /** `d` holds the length of a shortest path from `s`, for exactly the nodes that have one. */
  ghost predicate IsDist(g: Graph, s: Node, d: Dist) {
    && s in d && s in g.nodes && d[s] == 0 && d.Keys <= g.nodes
    && (forall w :: w in d ==> Walks(g, s, d[w], w) != {})
    && (forall w, k: nat :: Walks(g, s, k, w) != {} ==> w in d && d[w] <= k)
  }

  /** The members of `Walks(g, s, d[t], t)` are the shortest paths from `s` to `t`. */
  lemma ShortestExact(g: Graph, s: Node, d: Dist, t: Node, p: seq<Node>)
    requires IsDist(g, s, d) && t in d
    ensures p in Walks(g, s, d[t], t) <==>
            PathFrom(g, s, t, p) && forall q: seq<Node> :: PathFrom(g, s, t, q) ==> |p| <= |q|
  {
    WalkShape(g, s, d[t], t, p);
    if PathFrom(g, s, t, p) && |p| == d[t] + 1 {
      forall q: seq<Node> | PathFrom(g, s, t, q) ensures |p| <= |q| {
        WalkShape(g, s, |q| - 1, t, q);
        assert q in Walks(g, s, |q| - 1, t);
      }
    }
    if PathFrom(g, s, t, p) && forall q: seq<Node> :: PathFrom(g, s, t, q) ==> |p| <= |q| {
      var q :| q in Walks(g, s, d[t], t);
      WalkShape(g, s, d[t], t, q);
      WalkShape(g, s, |p| - 1, t, p);
      assert p in Walks(g, s, |p| - 1, t);
    }
  }

  /** The edges shortest paths use. */
  ghost function DagPred(g: Graph, d: Dist, t: Node): (us: set<Node>) {
    set u | u in d && t in d && Edge(g, u, t) && d[u] + 1 == d[t]
  }

  ghost function DagSucc(g: Graph, d: Dist, v: Node): (ws: set<Node>) {
    set w | w in d && v in d && Edge(g, v, w) && d[v] + 1 == d[w]
  }

  /** The number of shortest paths to `w`. */
  ghost function Sigma(g: Graph, s: Node, d: Dist, w: Node): (r: real) {
    if w in d then |Walks(g, s, d[w], w)| as real else 0.0
  }

  lemma SigmaPositive(g: Graph, s: Node, d: Dist, w: Node)
    requires IsDist(g, s, d) && w in d
    ensures Sigma(g, s, d, w) >= 1.0
  {
  }

  /** The shortest paths to `t` that pass `v`. */
  ghost function Through(g: Graph, s: Node, k: nat, v: Node, t: Node): (ps: set<seq<Node>>) {
    set p | p in Walks(g, s, k, t) && v in p
  }

  ghost function Passing(g: Graph, s: Node, d: Dist, v: Node, t: Node): (r: real) {
    if t in d then |Through(g, s, d[t], v, t)| as real else 0.0
  }

  lemma WalkExtends(g: Graph, s: Node, k: nat, u: Node, t: Node)
    requires Walks(g, s, k, u) != {} && Edge(g, u, t)
    ensures Walks(g, s, k + 1, t) != {}
  {
    var p :| p in Walks(g, s, k, u);
    assert u in PredSet(g, t);
    assert p + [t] in Extend(PredSet(g, t), x => Walks(g, s, k, x), t);
  }

  /** Only predecessors one step closer have walks of the right length. */
  lemma PredGap(g: Graph, s: Node, d: Dist, u: Node, t: Node)
    requires IsDist(g, s, d) && t in d && d[t] > 0 && u in PredSet(g, t)
    ensures Walks(g, s, d[t] - 1, u) != {} <==> u in DagPred(g, d, t)
  {
    if Walks(g, s, d[t] - 1, u) != {} {
      assert u in d && d[u] <= d[t] - 1;
      WalkExtends(g, s, d[u], u, t);
    }
  }

  lemma DagPredSubset(g: Graph, d: Dist, t: Node)
    requires d.Keys <= g.nodes
    ensures DagPred(g, d, t) <= PredSet(g, t)
  {
  }

  /** Counting walks to `t` by their last edge, keeping only the edges shortest paths use. */
  lemma CountByLastEdge(g: Graph, s: Node, d: Dist, t: Node, fam: Family, f: Node -> real)
    requires IsDist(g, s, d) && t in d && d[t] > 0
    requires forall u :: u in PredSet(g, t) ==> fam(u) <= Walks(g, s, d[t] - 1, u)
    requires forall u :: u in DagPred(g, d, t) ==> f(u) == |fam(u)| as real
    ensures |Extend(PredSet(g, t), fam, t)| as real == Sum(DagPred(g, d, t), f)
  {
    var k := d[t] - 1;
    forall u, p | u in PredSet(g, t) && p in fam(u) ensures p != [] && p[|p| - 1] == u {
      WalkShape(g, s, k, u, p);
    }
    CountExtend(PredSet(g, t), fam, t);
    forall u | u in PredSet(g, t) && u !in DagPred(g, d, t) ensures |fam(u)| as real == 0.0 {
      PredGap(g, s, d, u, t);
      assert fam(u) == {};
    }
    DagPredSubset(g, d, t);
    SumSubset(PredSet(g, t), DagPred(g, d, t), u => |fam(u)| as real);
    SumSame(DagPred(g, d, t), u => |fam(u)| as real, f);
  }

  lemma SigmaRec(g: Graph, s: Node, d: Dist, t: Node)
    requires IsDist(g, s, d) && t in d && d[t] > 0
    ensures Sigma(g, s, d, t) == Sum(DagPred(g, d, t), u => Sigma(g, s, d, u))
  {
    CountByLastEdge(g, s, d, t, u => Walks(g, s, d[t] - 1, u), u => Sigma(g, s, d, u));
  }

  /** A shortest path to `t` passes `v` before its last edge or ends there. */
  lemma PassingRec(g: Graph, s: Node, d: Dist, v: Node, t: Node)
    requires IsDist(g, s, d) && t in d && d[t] > 0 && v != t
    ensures Passing(g, s, d, v, t) == Sum(DagPred(g, d, t), u => Passing(g, s, d, v, u))
  {
    var k := d[t] - 1;
    ThroughExtend(g, s, k, v, t);
    CountByLastEdge(g, s, d, t, u => Through(g, s, k, v, u), u => Passing(g, s, d, v, u));
  }

  lemma ThroughExtend(g: Graph, s: Node, k: nat, v: Node, t: Node)
    requires v != t
    ensures Through(g, s, k + 1, v, t) == Extend(PredSet(g, t), u => Through(g, s, k, v, u), t)
  {
    var whole, parts := Through(g, s, k + 1, v, t), Extend(PredSet(g, t), u => Through(g, s, k, v, u), t);
    forall p ensures p in whole <==> p in parts {
      if p in whole {
        assert p in Extend(PredSet(g, t), u => Walks(g, s, k, u), t);
        var u, q :| u in PredSet(g, t) && q in Walks(g, s, k, u) && p == q + [t];
        assert q in Through(g, s, k, v, u);
      }
      if p in parts {
        var u, q :| u in PredSet(g, t) && q in Through(g, s, k, v, u) && p == q + [t];
        assert p in Extend(PredSet(g, t), u => Walks(g, s, k, u), t);
      }
    }
  }

  lemma PassingSelf(g: Graph, s: Node, d: Dist, t: Node)
    requires t in d
    ensures Passing(g, s, d, t, t) == Sigma(g, s, d, t)
  {
    forall p | p in Walks(g, s, d[t], t) ensures t in p { WalkShape(g, s, d[t], t, p); }
    assert Through(g, s, d[t], t, t) == Walks(g, s, d[t], t);
  }

  /** A shortest path passes only nodes closer to `s` than its end. */
  lemma PassingCloser(g: Graph, s: Node, d: Dist, v: Node, t: Node)
    requires IsDist(g, s, d) && t in d && v != t && (v in d ==> d[t] <= d[v])
    ensures Passing(g, s, d, v, t) == 0.0
  {
    forall p | p in Walks(g, s, d[t], t) ensures v !in p {
      WalkShape(g, s, d[t], t, p);
      forall i | 0 <= i < |p| ensures p[i] != v {
        if p[i] == v {
          var q := p[..i + 1];
          assert PathFrom(g, s, v, q);
          WalkShape(g, s, i, v, q);
          assert false;
        }
      }
    }
    assert Through(g, s, d[t], v, t) == {};
  }
}
