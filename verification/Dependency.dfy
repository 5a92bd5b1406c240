/** Brandes' dependency recurrence: what one source contributes to a node's betweenness. */
module Dependency {
  import opened Graph
  import opened FiniteSum
  import opened ShortestPaths

  /** The sum over all targets of the fraction of shortest paths from `s` that pass `v` on the way. */
  ghost function DependencyOn(g: Graph, s: Node, d: Dist, v: Node): (r: real) {
    Sum(d.Keys - {v}, t => Fraction(g, s, d, v, t))
  }

  ghost function Fraction(g: Graph, s: Node, d: Dist, v: Node, t: Node): (r: real) {
    Quotient(Passing(g, s, d, v, t), Sigma(g, s, d, t))
  }

  ghost function Quotient(a: real, b: real): (r: real) { if b == 0.0 then 0.0 else a / b }

  /** Shortest paths to `t` through `v`, per shortest path to `v`. */
  ghost function Ratio(g: Graph, s: Node, d: Dist, v: Node, t: Node): (r: real) {
    Quotient(Passing(g, s, d, v, t), Sigma(g, s, d, v))
  }

  ghost function Is(a: Node, b: Node): (r: real) { if a == b then 1.0 else 0.0 }

  lemma SumIs(us: set<Node>, a: Node)
    ensures Sum(us, x => Is(x, a)) == if a in us then 1.0 else 0.0
  {
    if a in us {
      SumPick(us, x => Is(x, a), a);
      SumZero(us - {a}, x => Is(x, a));
    } else {
      SumZero(us, x => Is(x, a));
    }
  }

  lemma RatioSelf(g: Graph, s: Node, d: Dist, v: Node)
    requires IsDist(g, s, d) && v in d
    ensures Ratio(g, s, d, v, v) == 1.0
  {
    PassingSelf(g, s, d, v);
    SigmaPositive(g, s, d, v);
  }

  lemma RatioCloser(g: Graph, s: Node, d: Dist, v: Node, t: Node)
    requires IsDist(g, s, d) && t in d && v in d && v != t && d[t] <= d[v]
    ensures Ratio(g, s, d, v, t) == 0.0
  {
    PassingCloser(g, s, d, v, t);
    SigmaPositive(g, s, d, v);
  }

  /** Ratio by the last edge of the path to `t`. */
  lemma RatioRec(g: Graph, s: Node, d: Dist, v: Node, t: Node)
    requires IsDist(g, s, d) && v in d && t in d && d[t] > 0
    ensures Ratio(g, s, d, v, t) == Sum(DagPred(g, d, t), u => Ratio(g, s, d, v, u)) + Is(v, t)
  {
    if v == t {
      RatioSelf(g, s, d, v);
      RatioNone(g, s, d, t);
    } else {
      RatioSplit(g, s, d, v, t);
    }
  }

  lemma RatioNone(g: Graph, s: Node, d: Dist, t: Node)
    requires IsDist(g, s, d) && t in d
    ensures Sum(DagPred(g, d, t), u => Ratio(g, s, d, t, u)) == 0.0
  {
    hide Ratio, Sum;
    forall u | u in DagPred(g, d, t) ensures Ratio(g, s, d, t, u) == 0.0 { RatioCloser(g, s, d, t, u); }
    SumZero(DagPred(g, d, t), u => Ratio(g, s, d, t, u));
  }

  lemma RatioSplit(g: Graph, s: Node, d: Dist, v: Node, t: Node)
    requires IsDist(g, s, d) && v in d && t in d && d[t] > 0 && v != t
    ensures Ratio(g, s, d, v, t) == Sum(DagPred(g, d, t), u => Ratio(g, s, d, v, u))
  {
    hide Passing, Sigma, Sum, DagPred;
    PassingRec(g, s, d, v, t);
    SigmaPositive(g, s, d, v);
    var c := 1.0 / Sigma(g, s, d, v);
    forall u ensures Ratio(g, s, d, v, u) == c * Passing(g, s, d, v, u) {}
    SumScale(DagPred(g, d, t), c, u => Passing(g, s, d, v, u), u => Ratio(g, s, d, v, u));
  }

  /** The ratios of the nodes one step beyond `v`, summed. */
  ghost function Onward(g: Graph, s: Node, d: Dist, v: Node, t: Node): (r: real) {
    Sum(DagSucc(g, d, v), w => Ratio(g, s, d, w, t))
  }

  lemma OnwardRec(g: Graph, s: Node, d: Dist, v: Node, t: Node)
    requires IsDist(g, s, d) && v in d && t in d && d[t] > 0
    ensures Onward(g, s, d, v, t) ==
            Sum(DagPred(g, d, t), u => Onward(g, s, d, v, u)) + if t in DagSucc(g, d, v) then 1.0 else 0.0
  {
    var ws, us := DagSucc(g, d, v), DagPred(g, d, t);
    forall w | w in ws
      ensures Ratio(g, s, d, w, t) == Sum(us, u => Ratio(g, s, d, w, u)) + Is(w, t)
    {
      RatioRec(g, s, d, w, t);
    }
    SumPlus(ws, w => Sum(us, u => Ratio(g, s, d, w, u)), w => Is(w, t), w => Ratio(g, s, d, w, t));
    SumIs(ws, t);
    SumSwap(ws, us, (w, u) => Ratio(g, s, d, w, u));
    OnwardSwap(g, s, d, v, us);
  }

  lemma OnwardSwap(g: Graph, s: Node, d: Dist, v: Node, us: set<Node>)
    ensures Sum(DagSucc(g, d, v), w => Sum(us, u => Ratio(g, s, d, w, u))) == Sum(us, u => Onward(g, s, d, v, u))
  {
    var f := (w, u) => Ratio(g, s, d, w, u);
    var ws := DagSucc(g, d, v);
    SumSwap(ws, us, f);
    forall w | w in ws ensures Sum(us, u => f(w, u)) == Sum(us, u => Ratio(g, s, d, w, u)) {
      SumSame(us, u => f(w, u), u => Ratio(g, s, d, w, u));
    }
    SumSame(ws, w => Sum(us, u => f(w, u)), w => Sum(us, u => Ratio(g, s, d, w, u)));
    forall u | u in us ensures Sum(ws, w => f(w, u)) == Onward(g, s, d, v, u) {
      SumSame(ws, w => f(w, u), w => Ratio(g, s, d, w, u));
    }
    SumSame(us, u => Sum(ws, w => f(w, u)), u => Onward(g, s, d, v, u));
  }

  /** Every shortest path that goes on from `v` goes on through exactly one of its onward neighbours. */
  lemma {:induction false} OnwardIdentity(g: Graph, s: Node, d: Dist, v: Node, t: Node)
    requires IsDist(g, s, d) && v in d && t in d
    ensures Ratio(g, s, d, v, t) == Onward(g, s, d, v, t) + Is(t, v)
    decreases d[t]
  {
    if d[t] <= d[v] {
      OnwardZero(g, s, d, v, t);
      if v == t { RatioSelf(g, s, d, v); } else { RatioCloser(g, s, d, v, t); }
    } else {
      var us := DagPred(g, d, t);
      RatioRec(g, s, d, v, t);
      OnwardRec(g, s, d, v, t);
      forall u | u in us ensures Ratio(g, s, d, v, u) == Onward(g, s, d, v, u) + Is(u, v) {
        OnwardIdentity(g, s, d, v, u);
      }
      SumPlus(us, u => Onward(g, s, d, v, u), u => Is(u, v), u => Ratio(g, s, d, v, u));
      SumIs(us, v);
      assert v in us <==> t in DagSucc(g, d, v);
    }
  }

  lemma OnwardZero(g: Graph, s: Node, d: Dist, v: Node, t: Node)
    requires IsDist(g, s, d) && v in d && t in d && d[t] <= d[v]
    ensures Onward(g, s, d, v, t) == 0.0
  {
    forall w | w in DagSucc(g, d, v) ensures Ratio(g, s, d, w, t) == 0.0 { RatioCloser(g, s, d, w, t); }
    SumZero(DagSucc(g, d, v), w => Ratio(g, s, d, w, t));
  }

  // ------------------------------------------------------------ the recurrence

  /** One source's share at `v`, target by target: nothing for the target `v` itself. */
  ghost function Share(g: Graph, s: Node, d: Dist, v: Node, w: Node, t: Node): (r: real) {
    Quotient(Sigma(g, s, d, v), Sigma(g, s, d, t)) * Ratio(g, s, d, w, t)
  }

  lemma Cancel(a: real, b: real, x: real)
    requires a != 0.0 && b != 0.0
    ensures Quotient(a, b) * Quotient(x, a) == Quotient(x, b)
  {
    assert a / b * (x / a) == x / b;
  }

  lemma ScaleFraction(g: Graph, s: Node, d: Dist, v: Node, w: Node, t: Node)
    requires IsDist(g, s, d) && v in d && w in d && t in d
    ensures Share(g, s, d, v, w, t) ==
            Quotient(Sigma(g, s, d, v), Sigma(g, s, d, w)) * Fraction(g, s, d, w, t)
  {
    hide Sigma, Passing;
    SigmaPositive(g, s, d, v);
    SigmaPositive(g, s, d, w);
    SigmaPositive(g, s, d, t);
    var sv, sw, st, x := Sigma(g, s, d, v), Sigma(g, s, d, w), Sigma(g, s, d, t), Passing(g, s, d, w, t);
    assert sv / st * (x / sw) == sv / sw * (x / st);
  }

  /** Counting the target `w` itself adds one. */
  lemma WholeDependency(g: Graph, s: Node, d: Dist, w: Node)
    requires IsDist(g, s, d) && w in d
    ensures Sum(d.Keys, t => Fraction(g, s, d, w, t)) == 1.0 + DependencyOn(g, s, d, w)
  {
    hide Sigma, Passing, Sum;
    SumPick(d.Keys, t => Fraction(g, s, d, w, t), w);
    PassingSelf(g, s, d, w);
    SigmaPositive(g, s, d, w);
  }

  lemma OnwardShare(g: Graph, s: Node, d: Dist, v: Node, w: Node)
    requires IsDist(g, s, d) && v in d && w in d
    ensures Sum(d.Keys, t => Share(g, s, d, v, w, t)) ==
            Quotient(Sigma(g, s, d, v), Sigma(g, s, d, w)) * (1.0 + DependencyOn(g, s, d, w))
  {
    hide Sigma, Sum, Fraction, Share, DependencyOn, Quotient;
    WholeDependency(g, s, d, w);
    var c := Quotient(Sigma(g, s, d, v), Sigma(g, s, d, w));
    forall t | t in d.Keys ensures Share(g, s, d, v, w, t) == c * Fraction(g, s, d, w, t) {
      ScaleFraction(g, s, d, v, w, t);
    }
    SumScale(d.Keys, c, t => Fraction(g, s, d, w, t), t => Share(g, s, d, v, w, t));
  }

  /** For one target, the shares of the onward neighbours add up to the fraction passing `v`. */
  lemma ShareColumn(g: Graph, s: Node, d: Dist, v: Node, t: Node)
    requires IsDist(g, s, d) && v in d && t in d
    ensures Sum(DagSucc(g, d, v), w => Share(g, s, d, v, w, t)) == if t == v then 0.0 else Fraction(g, s, d, v, t)
  {
    hide Sigma, Sum, Passing, DagSucc;
    var c := Quotient(Sigma(g, s, d, v), Sigma(g, s, d, t));
    SumScale(DagSucc(g, d, v), c, w => Ratio(g, s, d, w, t), w => Share(g, s, d, v, w, t));
    OnwardIdentity(g, s, d, v, t);
    SigmaPositive(g, s, d, v);
    SigmaPositive(g, s, d, t);
    if t == v {
      RatioSelf(g, s, d, v);
    } else {
      Cancel(Sigma(g, s, d, v), Sigma(g, s, d, t), Passing(g, s, d, v, t));
    }
  }

  lemma ShareSwap(g: Graph, s: Node, d: Dist, v: Node)
    ensures Sum(DagSucc(g, d, v), w => Sum(d.Keys, t => Share(g, s, d, v, w, t))) ==
            Sum(d.Keys, t => Sum(DagSucc(g, d, v), w => Share(g, s, d, v, w, t)))
  {
    hide Sum, Share, DagSucc;
    var f := (w, t) => Share(g, s, d, v, w, t);
    var ws := DagSucc(g, d, v);
    SumSwap(ws, d.Keys, f);
    forall w | w in ws ensures Sum(d.Keys, t => f(w, t)) == Sum(d.Keys, t => Share(g, s, d, v, w, t)) {
      SumSame(d.Keys, t => f(w, t), t => Share(g, s, d, v, w, t));
    }
    SumSame(ws, w => Sum(d.Keys, t => f(w, t)), w => Sum(d.Keys, t => Share(g, s, d, v, w, t)));
    forall t | t in d.Keys ensures Sum(ws, w => f(w, t)) == Sum(ws, w => Share(g, s, d, v, w, t)) {
      SumSame(ws, w => f(w, t), w => Share(g, s, d, v, w, t));
    }
    SumSame(d.Keys, t => Sum(ws, w => f(w, t)), t => Sum(ws, w => Share(g, s, d, v, w, t)));
  }

  /** What an onward neighbour `w` passes back to `v`. */
  ghost function PassedBack(g: Graph, s: Node, d: Dist, v: Node, w: Node): (r: real) {
    Quotient(Sigma(g, s, d, v), Sigma(g, s, d, w)) * (1.0 + DependencyOn(g, s, d, w))
  }

  /** Brandes' recurrence: the dependency on `v` is gathered from its onward neighbours. */
  lemma DependencyRec(g: Graph, s: Node, d: Dist, v: Node)
    requires IsDist(g, s, d) && v in d
    ensures DependencyOn(g, s, d, v) == Sum(DagSucc(g, d, v), w => PassedBack(g, s, d, v, w))
  {
    hide Sum, Share, Fraction, Sigma, Quotient, IsDist;
    var ws := DagSucc(g, d, v);
    forall w | w in ws ensures PassedBack(g, s, d, v, w) == Sum(d.Keys, t => Share(g, s, d, v, w, t)) {
      OnwardShare(g, s, d, v, w);
    }
    SumSame(ws, w => PassedBack(g, s, d, v, w), w => Sum(d.Keys, t => Share(g, s, d, v, w, t)));
    ShareSwap(g, s, d, v);
    var column := t => Sum(ws, w => Share(g, s, d, v, w, t));
    forall t | t in d.Keys ensures column(t) == if t == v then 0.0 else Fraction(g, s, d, v, t) {
      ShareColumn(g, s, d, v, t);
    }
    SumPick(d.Keys, column, v);
    SumSame(d.Keys - {v}, column, t => Fraction(g, s, d, v, t));
  }
}
