/** The centrality feature: normalised betweenness over all or a sample of the blocks. */
module Centrality {
  import opened Base
  import opened Graph
  import opened FiniteSum
  import opened ShortestPaths
  import opened Dependency
  import opened Brandes

  // ------------------------------------------------------------- specification

  lemma DistUnique(g: Graph, s: Node, d: Dist, e: Dist)
    requires IsDist(g, s, d) && IsDist(g, s, e)
    ensures d == e
  {
    hide Walks;
    forall w ensures (w in d <==> w in e) && (w in d ==> d[w] == e[w]) {
      if w in d { assert Walks(g, s, d[w], w) != {}; }
      if w in e { assert Walks(g, s, e[w], w) != {}; }
    }
  }

  ghost function Distances(g: Graph, s: Node): (d: Dist) {
    if exists d: Dist :: IsDist(g, s, d) then var d: Dist :| IsDist(g, s, d); d else map[]
  }

  /** The share of the shortest paths from `s` to `t` that pass `w`. */
  ghost function PairFraction(g: Graph, s: Node, t: Node, w: Node): (r: real) {
    Fraction(g, s, Distances(g, s), w, t)
  }

  ghost function SourceTotal(g: Graph, s: Node, w: Node): (r: real) {
    Sum(g.nodes - {w}, t => PairFraction(g, s, t, w))
  }

  /** Betweenness of `w` over the given sources and all targets, `w` itself left out of both. */
  ghost function Betweenness(g: Graph, sources: set<Node>, w: Node): (r: real) {
    Sum(sources - {w}, s => SourceTotal(g, s, w))
  }

  function Scale(sampled: nat, n: nat): (r: real) {
    if 0 < sampled < n then n as real / sampled as real else 1.0
  }

  function Norm(sampled: nat, n: nat): (r: real)
    ensures r > 0.0
  {
    var raw := if n > 1 then (sampled - 1) as real * (n - 1) as real else 1.0;
    if raw <= 0.0 then 1.0 else raw
  }

  /** The value stored for a block with the given betweenness. */
  function Feature(total: real, sampled: nat, n: nat): (r: real) {
    total * Scale(sampled, n) / Norm(sampled, n)
  }

  // -------------------------------------------------------------------- proofs

  lemma DistancesAre(g: Graph, s: Node, d: Dist)
    requires IsDist(g, s, d)
    ensures Distances(g, s) == d
  {
    hide IsDist;
    DistUnique(g, s, d, Distances(g, s));
  }

  lemma FractionOutside(g: Graph, s: Node, d: Dist, w: Node, t: Node)
    requires IsDist(g, s, d) && t != w && (t !in d || w !in d)
    ensures Fraction(g, s, d, w, t) == 0.0
  {
    if t in d {
      PassingCloser(g, s, d, w, t);
    }
  }

  /** What one source adds is its sum over all targets, reachable or not. */
  lemma ContributionExact(g: Graph, s: Node, d: Dist, w: Node)
    requires IsDist(g, s, d) && w != s
    ensures Contribution(g, s, d, w) == SourceTotal(g, s, w)
  {
    hide Sum, Fraction, IsDist;
    DistancesAre(g, s, d);
    var f := t => Fraction(g, s, d, w, t);
    forall t | t in g.nodes - {w} && (t !in d || w !in d) ensures f(t) == 0.0 { FractionOutside(g, s, d, w, t); }
    if w in d {
      DistInside(g, s, d);
      SumSubset(g.nodes - {w}, d.Keys - {w}, f);
      SumSame(d.Keys - {w}, f, t => Fraction(g, s, d, w, t));
    } else {
      SumZero(g.nodes - {w}, f);
    }
    SumSame(g.nodes - {w}, f, t => PairFraction(g, s, t, w));
  }

  lemma DistInside(g: Graph, s: Node, d: Dist)
    requires IsDist(g, s, d)
    ensures d.Keys <= g.nodes
  {
    hide Walks;
  }

  /** A pair's share is a proportion. */
  lemma PairFractionBounds(g: Graph, s: Node, t: Node, w: Node)
    ensures 0.0 <= PairFraction(g, s, t, w) <= 1.0
  {
    hide Walks;
    var d := Distances(g, s);
    if t in d {
      var part, all := Through(g, s, d[t], w, t), Walks(g, s, d[t], t);
      SubsetSize(part, all);
      if |all| > 0 { assert 0.0 <= |part| as real / |all| as real <= 1.0; }
    }
  }

  lemma {:induction false} SubsetSize<T>(a: set<T>, b: set<T>)
    requires a <= b
    ensures |a| <= |b|
  {
    assert b == a + (b - a);
  }

  /** A path from a block to itself passes no other. */
  lemma PairFractionSelf(g: Graph, s: Node, w: Node)
    requires w != s
    ensures PairFraction(g, s, s, w) == 0.0
  {
    hide IsDist;
    var d := Distances(g, s);
    if IsDist(g, s, d) { PassingSelf(g, s, d, w); }
  }

  lemma PassingSelf(g: Graph, s: Node, d: Dist, w: Node)
    requires IsDist(g, s, d) && w != s
    ensures Passing(g, s, d, w, s) == 0.0
  {
    hide Walks;
    PassingCloser(g, s, d, w, s);
  }

  /** One source has a share of at most one for each block other than itself and `w`. */
  lemma SourceBounds(g: Graph, s: Node, w: Node)
    requires w in g.nodes && s in g.nodes && s != w
    ensures 0.0 <= SourceTotal(g, s, w) <= (|g.nodes| - 2) as real
  {
    hide Sum, PairFraction;
    var targets, f := g.nodes - {w} - {s}, t => PairFraction(g, s, t, w);
    PairFractionSelf(g, s, w);
    SumSubset(g.nodes - {w}, targets, f);
    forall t | t in targets ensures 0.0 <= PairFraction(g, s, t, w) <= 1.0 { PairFractionBounds(g, s, t, w); }
    SumBounds(targets, f, 1.0);
    assert |targets| == |g.nodes| - 2;
  }

  /** Taken over all blocks, the feature is at most (n - 2) / (n - 1), and zero for a function of one block. */
  lemma CentralityBounds(g: Graph, w: Node)
    requires w in g.nodes
    ensures var n := |g.nodes|; var r := Feature(Betweenness(g, g.nodes, w), n, n);
            0.0 <= r && if n == 1 then r == 0.0 else r <= (n - 2) as real / (n - 1) as real
  {
    hide Sum, SourceTotal;
    var others, n := g.nodes - {w}, |g.nodes|;
    assert |others| == n - 1;
    forall s | s in others ensures 0.0 <= SourceTotal(g, s, w) <= (n - 2) as real { SourceBounds(g, s, w); }
    SumBounds(others, s => SourceTotal(g, s, w), (n - 2) as real);
    if n > 1 { NormDivides(n, Betweenness(g, g.nodes, w)); }
  }

  lemma NormDivides(n: nat, x: real)
    requires n > 1 && 0.0 <= x <= (n - 1) as real * (n - 2) as real
    ensures 0.0 <= Feature(x, n, n) <= (n - 2) as real / (n - 1) as real
  {
    var a, b := (n - 1) as real, (n - 2) as real;
    Positive(a, a);
    Proportion(x, a, b, a * a);
  }

  lemma Positive(a: real, b: real)
    requires a > 0.0 && b > 0.0
    ensures a * b > 0.0
  {
  }

  lemma Proportion(x: real, a: real, b: real, m: real)
    requires a > 0.0 && m == a * a && m > 0.0 && 0.0 <= x <= a * b
    ensures 0.0 <= x / m <= b / a
  {
    NonNegative(x, m);
    var q := x / m;
    assert q * a * a == q * m == x;
    assert q * a <= b by { if q * a > b { Above(q * a, b, a); } }
    assert q <= b / a by { if q > b / a { Above(q, b / a, a); } }
  }

  lemma NonNegative(x: real, m: real)
    requires 0.0 <= x && m > 0.0
    ensures 0.0 <= x / m
  {
  }

  lemma Above(p: real, q: real, a: real)
    requires p > q && a > 0.0
    ensures p * a > q * a
  {
  }

  // ---------------------------------------------------------- distances exist

  ghost predicate HasWalk(g: Graph, s: Node, w: Node) { exists k: nat :: Walks(g, s, k, w) != {} }

  /** The least length of a walk, looked for from `j` on. */
  ghost function LeastFrom(g: Graph, s: Node, w: Node, j: nat, k: nat): (r: nat)
    requires j <= k && Walks(g, s, k, w) != {}
    ensures Walks(g, s, r, w) != {} && j <= r && forall i: nat :: j <= i < r ==> Walks(g, s, i, w) == {}
    decreases k - j
  {
    if Walks(g, s, j, w) != {} then j else LeastFrom(g, s, w, j + 1, k)
  }

  ghost function LeastWalk(g: Graph, s: Node, w: Node): (r: nat)
    requires HasWalk(g, s, w)
    ensures Walks(g, s, r, w) != {} && forall i: nat :: Walks(g, s, i, w) != {} ==> r <= i
  {
    var k: nat :| Walks(g, s, k, w) != {};
    LeastFrom(g, s, w, 0, k)
  }

  lemma WalkEnds(g: Graph, s: Node, k: nat, w: Node)
    requires Walks(g, s, k, w) != {}
    ensures w in g.nodes
  {
    var p :| p in Walks(g, s, k, w);
    WalkShape(g, s, k, w, p);
    PathNodes(g, p, |p| - 1);
  }

  lemma DistExists(g: Graph, s: Node) returns (d: Dist)
    requires s in g.nodes
    ensures IsDist(g, s, d)
  {
    assert Walks(g, s, 0, s) != {};
    hide Walks;
    d := map w | w in g.nodes && HasWalk(g, s, w) :: LeastWalk(g, s, w);
    forall w, k: nat | Walks(g, s, k, w) != {} ensures w in d && d[w] <= k {
      WalkEnds(g, s, k, w);
    }
  }

  // ---------------------------------------------------------- when the bound is met

  /** A path of least length. */
  ghost predicate ShortestPath(g: Graph, s: Node, t: Node, p: seq<Node>) {
    PathFrom(g, s, t, p) && forall q: seq<Node> :: PathFrom(g, s, t, q) ==> |p| <= |q|
  }

  /** There is a way from `s` to `t`, and all shortest ones pass `w`. */
  ghost predicate AllThrough(g: Graph, s: Node, t: Node, w: Node) {
    Reach(g, s, t) && forall p: seq<Node> :: ShortestPath(g, s, t, p) ==> w in p
  }

  lemma ThroughAll(g: Graph, s: Node, d: Dist, t: Node, w: Node)
    requires IsDist(g, s, d) && t in d
    ensures Through(g, s, d[t], w, t) == Walks(g, s, d[t], t) <==> forall p: seq<Node> :: ShortestPath(g, s, t, p) ==> w in p
  {
    hide Walks, IsDist, PathFrom;
    var all, part := Walks(g, s, d[t], t), Through(g, s, d[t], w, t);
    forall p: seq<Node> ensures p in all <==> ShortestPath(g, s, t, p) { ShortestExact(g, s, d, t, p); }
    if forall p: seq<Node> :: ShortestPath(g, s, t, p) ==> w in p {
      forall p | p in all ensures p in part { assert ShortestPath(g, s, t, p); }
    } else {
      var p: seq<Node> :| ShortestPath(g, s, t, p) && w !in p;
      assert p in all && p !in part;
    }
  }

  lemma DistReached(g: Graph, s: Node, d: Dist, t: Node)
    requires IsDist(g, s, d)
    ensures t in d <==> Reach(g, s, t)
  {
    hide Walks;
    if t in d {
      var p :| p in Walks(g, s, d[t], t);
      WalkShape(g, s, d[t], t, p);
    }
    if Reach(g, s, t) {
      var p: seq<Node> :| PathFrom(g, s, t, p);
      WalkShape(g, s, |p| - 1, t, p);
    }
  }

  lemma SameSize<T>(a: set<T>, b: set<T>)
    requires a <= b
    ensures |a| == |b| <==> a == b
  {
    assert b == a + (b - a);
  }

  lemma WholeQuotient(a: nat, b: nat)
    requires b > 0
    ensures a as real / b as real == 1.0 <==> a == b
  {
  }

  /** A pair counts fully exactly if all its shortest paths pass. */
  lemma PairFractionWhole(g: Graph, s: Node, d: Dist, t: Node, w: Node)
    requires IsDist(g, s, d)
    ensures PairFraction(g, s, t, w) == 1.0 <==> AllThrough(g, s, t, w)
  {
    DistancesAre(g, s, d);
    DistReached(g, s, d, t);
    if t in d {
      ThroughAll(g, s, d, t, w);
      assert Walks(g, s, d[t], t) != {};
      hide Walks, IsDist, ShortestPath;
      var part, all := Through(g, s, d[t], w, t), Walks(g, s, d[t], t);
      SameSize(part, all);
      WholeQuotient(|part|, |all|);
    }
  }

  /** Every ordered pair of other blocks has a path, and all its shortest ones pass `w`. */
  ghost predicate AllPairsThrough(g: Graph, w: Node) {
    forall s, t :: s in g.nodes && t in g.nodes && s != t && s != w && t != w ==> AllThrough(g, s, t, w)
  }

  /** The largest value is reached exactly then. */
  lemma CentralityMax(g: Graph, w: Node)
    requires w in g.nodes && |g.nodes| > 1
    ensures var n := |g.nodes|;
            Feature(Betweenness(g, g.nodes, w), n, n) == (n - 2) as real / (n - 1) as real <==> AllPairsThrough(g, w)
  {
    hide Betweenness, AllPairsThrough;
    BetweennessMax(g, w);
    MaxNorm(|g.nodes|, Betweenness(g, g.nodes, w));
  }

  lemma BetweennessMax(g: Graph, w: Node)
    requires w in g.nodes && |g.nodes| > 1
    ensures Betweenness(g, g.nodes, w) == Times(|g.nodes| - 1, (|g.nodes| - 2) as real) <==> AllPairsThrough(g, w)
  {
    hide Sum, SourceTotal, AllThrough, Times;
    var others, b := g.nodes - {w}, (|g.nodes| - 2) as real;
    forall s | s in others
      ensures SourceTotal(g, s, w) <= b
      ensures SourceTotal(g, s, w) == b <==> forall t :: t in others - {s} ==> AllThrough(g, s, t, w)
    {
      SourceBounds(g, s, w);
      SourceMax(g, s, w);
    }
    SumMax(others, s => SourceTotal(g, s, w), b);
    if forall s :: s in others ==> SourceTotal(g, s, w) == b {
      forall s, t | s in g.nodes && t in g.nodes && s != t && s != w && t != w ensures AllThrough(g, s, t, w) {
        assert s in others && t in others - {s};
      }
    } else {
      var s :| s in others && SourceTotal(g, s, w) != b;
      var t :| t in others - {s} && !AllThrough(g, s, t, w);
    }
  }

  lemma SourceMax(g: Graph, s: Node, w: Node)
    requires w in g.nodes && s in g.nodes && s != w
    ensures SourceTotal(g, s, w) == (|g.nodes| - 2) as real <==>
            forall t :: t in g.nodes - {w} - {s} ==> AllThrough(g, s, t, w)
  {
    hide Sum, PairFraction, AllThrough, IsDist;
    var targets, f := g.nodes - {w} - {s}, t => PairFraction(g, s, t, w);
    var d := DistExists(g, s);
    PairFractionSelf(g, s, w);
    SumSubset(g.nodes - {w}, targets, f);
    forall t | t in targets
      ensures 0.0 <= PairFraction(g, s, t, w) <= 1.0 && (PairFraction(g, s, t, w) == 1.0 <==> AllThrough(g, s, t, w))
    {
      PairFractionBounds(g, s, t, w);
      PairFractionWhole(g, s, d, t, w);
    }
    SumMax(targets, f, 1.0);
    assert |targets| == |g.nodes| - 2;
  }

  lemma MaxNorm(n: nat, x: real)
    requires n > 1
    ensures Feature(x, n, n) == (n - 2) as real / (n - 1) as real <==> x == Times(n - 1, (n - 2) as real)
  {
    var a, b := (n - 1) as real, (n - 2) as real;
    Positive(a, a);
    FeatureLaw(x, n, n);
    var y := Feature(x, n, n);
    hide Feature;
    assert b / a * a == b;
    if y == b / a { assert y * a * a == b * a; }
    if x == a * b { Cancel(y, b / a, a); }
  }

  lemma Cancel(y: real, z: real, a: real)
    requires a > 0.0 && y * a * a == z * a * a
    ensures y == z
  {
    if y > z {
      Above(y, z, a);
      Above(y * a, z * a, a);
    } else if z > y {
      Above(z, y, a);
      Above(z * a, y * a, a);
    }
  }

  /** A block all others are joined to, and to nothing else, reaches it. */
  lemma HubReachesMax(g: Graph, w: Node)
    requires w in g.nodes && |g.nodes| > 1
    requires forall s :: s in g.nodes && s != w ==> Succ(g, s) == {w} && s in Succ(g, w)
    ensures var n := |g.nodes|; Feature(Betweenness(g, g.nodes, w), n, n) == (n - 2) as real / (n - 1) as real
  {
    hide Betweenness, Feature;
    forall s, t | s in g.nodes && t in g.nodes && s != t && s != w && t != w ensures AllThrough(g, s, t, w) {
      assert Edge(g, s, w) && Edge(g, w, t);
      assert PathFrom(g, s, t, [s, w, t]);
      forall p: seq<Node> | ShortestPath(g, s, t, p) ensures w in p {
        assert Edge(g, p[0], p[1]);
        assert p[1] == w;
      }
    }
    CentralityMax(g, w);
  }

  // -------------------------------------------------------------- the feature

  /** What the stored value stands for: the betweenness over the sources, extrapolated to all `n` blocks
      when only some are sources, per source other than the block and per target other than it. */
  ghost predicate StandsFor(x: real, total: real, sampled: nat, n: nat) {
    if sampled > 1 then
      if sampled == n then x * ((n - 1) as real * (n - 1) as real) == total
      else x * sampled as real * ((sampled - 1) as real * (n - 1) as real) == n as real * total
    else if sampled == 1 && n > 1 then x == n as real * total
    else x == total
  }

  lemma FeatureLaw(total: real, sampled: nat, n: nat)
    requires sampled <= n
    ensures StandsFor(Feature(total, sampled, n), total, sampled, n)
  {
    if sampled > 1 {
      Positive((sampled - 1) as real, (n - 1) as real);
      if sampled < n { Undo(total, n as real, sampled as real, (sampled - 1) as real * (n - 1) as real); }
    }
  }

  lemma Undo(t: real, n: real, k: real, m: real)
    requires k > 0.0 && m > 0.0
    ensures t * (n / k) / m * k * m == n * t
  {
    var x := t * (n / k) / m;
    assert x * m == t * (n / k);
    assert n / k * k == n;
    assert x * k * m == x * m * k == t * (n / k) * k == t * (n / k * k);
  }

  ghost predicate Tallied(g: Graph, sources: set<Node>, tally: Counts) {
    forall w :: CountOf(tally, w) == Betweenness(g, sources, w)
  }

  lemma TallyOne(g: Graph, sources: set<Node>, s: Node, d: Dist, before: Counts, after: Counts)
    requires Tallied(g, sources, before) && s !in sources && IsDist(g, s, d)
    requires forall w :: CountOf(after, w) == CountOf(before, w) + Contribution(g, s, d, w)
    ensures Tallied(g, sources + {s}, after)
  {
    hide Sum, CountOf, IsDist, SourceTotal;
    forall w ensures CountOf(after, w) == Betweenness(g, sources + {s}, w) {
      if w == s {
        assert sources + {s} - {w} == sources - {w};
      } else {
        ContributionExact(g, s, d, w);
        assert sources + {s} - {w} == (sources - {w}) + {s};
        SumAdd(sources - {w}, x => SourceTotal(g, x, w), s);
      }
    }
  }

  method ComputeCentrality(g: Graph, sources: set<Node>) returns (c: Counts)
    requires sources <= g.nodes
    ensures c.Keys == g.nodes
    ensures forall w :: w in g.nodes ==> c[w] == Feature(Betweenness(g, sources, w), |sources|, |g.nodes|)
    ensures forall w :: w in g.nodes ==> StandsFor(c[w], Betweenness(g, sources, w), |sources|, |g.nodes|)
  {
    hide StandsFor, SearchResult, Contribution, Betweenness, CountOf, Feature;
    var tally: Counts := map[];
    var rest := sources;
    TallyNone(g);
    while rest != {}
      invariant rest <= sources && Tallied(g, sources - rest, tally)
      decreases rest
    {
      var s := Pick(rest);
      var order, d, sigma, p := Search(g, s);
      var next := Accumulate(g, s, order, d, sigma, p, tally);
      FoundDist(g, s, order, d, sigma, p);
      TallyOne(g, sources - rest, s, d, tally, next);
      assert sources - rest + {s} == sources - (rest - {s});
      tally, rest := next, rest - {s};
    }
    assert sources - rest == sources;
    assert Tallied(g, sources, tally);
    c := map w | w in g.nodes :: Feature(CountOf(tally, w), |sources|, |g.nodes|);
    SubsetSize(sources, g.nodes);
    forall w | w in g.nodes ensures StandsFor(c[w], Betweenness(g, sources, w), |sources|, |g.nodes|) {
      FeatureLaw(Betweenness(g, sources, w), |sources|, |g.nodes|);
    }
  }

  lemma TallyNone(g: Graph)
    ensures forall sources: set<Node> :: sources == {} ==> Tallied(g, sources, map[])
  {
    forall w ensures Betweenness(g, {}, w) == 0.0 { assert {} - {w} == {}; }
  }

  lemma FoundDist(g: Graph, s: Node, order: seq<Node>, d: Dist, sigma: Counts, p: Preds)
    requires SearchResult(g, s, order, d, sigma, p)
    ensures IsDist(g, s, d)
  {
  }
}
