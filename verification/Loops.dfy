/** Natural loops and the nesting depth of the blocks of one function. */
module Loops {
  import opened Base
  import opened Graph
  import opened Scc
  import opened Dominators

  // ------------------------------------------------------------- specification

  ghost predicate OnCycle(g: Graph, n: Node) { Beyond(g, n, n) }

  ghost predicate BackEdge(g: Graph, entry: Node, latch: Node, header: Node) {
    Edge(g, latch, header) && Dominates(g, entry, header, latch)
  }

  /** A path from `x` to `y` that does not touch `h`. */
  ghost predicate ReachAvoiding(g: Graph, x: Node, y: Node, h: Node) {
    exists p: seq<Node> :: PathFrom(g, x, y, p) && h !in p
  }

  /** The natural loop of a back edge: the header, and what reaches the latch without passing it. */
  ghost predicate InLoop(g: Graph, header: Node, latch: Node, x: Node) {
    x == header || (latch != header && ReachAvoiding(g, x, latch, header))
  }

  /** The loops of one header are merged. */
  ghost predicate InMergedLoop(g: Graph, entry: Node, header: Node, x: Node) {
    exists latch :: BackEdge(g, entry, latch, header) && InLoop(g, header, latch, x)
  }

  ghost function Headers(g: Graph, entry: Node, x: Node): (hs: set<Node>) {
    set h | h in g.nodes && InMergedLoop(g, entry, h, x)
  }

  // ------------------------------------------------------------ loops and cycles

  lemma RootPathJoin(g: Graph, entry: Node, x: Node, y: Node, p: seq<Node>, q: seq<Node>)
    requires RootPath(g, entry, x, p) && PathFrom(g, x, y, q)
    ensures RootPath(g, entry, y, p + q[1..])
  {
    PathJoin(g, p[0], x, y, p, q);
  }

  /** The header dominates its loop. */
  lemma LoopDominated(g: Graph, entry: Node, header: Node, latch: Node, x: Node)
    requires BackEdge(g, entry, latch, header) && InLoop(g, header, latch, x)
    ensures Dominates(g, entry, header, x)
  {
    if x != header {
      var q: seq<Node> :| PathFrom(g, x, latch, q) && header !in q;
      forall p: seq<Node> | RootPath(g, entry, x, p) ensures header in p {
        RootPathJoin(g, entry, x, latch, p, q);
        assert header in p + q[1..];
      }
    }
  }

  lemma AvoidingReaches(g: Graph, header: Node, latch: Node, x: Node)
    requires Edge(g, latch, header) && InLoop(g, header, latch, x) && x != header
    ensures Reach(g, x, latch) && Reach(g, x, header)
  {
    ReachSnoc(g, x, latch, header);
  }

  lemma DominatorReaches(g: Graph, entry: Node, d: Node, x: Node)
    requires Dominates(g, entry, d, x) && Rooted(g, entry, x)
    ensures Reach(g, d, x)
  {
    var p: seq<Node> :| RootPath(g, entry, x, p);
    var i :| 0 <= i < |p| && p[i] == d;
    PathSplit(g, p[0], x, p, i);
  }

  /** The path stays inside the natural loop. */
  ghost predicate InsideLoop(g: Graph, header: Node, latch: Node, p: seq<Node>) {
    forall i :: 0 <= i < |p| ==> InLoop(g, header, latch, p[i])
  }

  ghost predicate ReachInside(g: Graph, header: Node, latch: Node, x: Node, y: Node) {
    exists p: seq<Node> :: PathFrom(g, x, y, p) && InsideLoop(g, header, latch, p)
  }

  /** A node on the way to a loop block that does not pass the header is a loop block too. */
  lemma BeforeInLoop(g: Graph, header: Node, latch: Node, n: Node, x: Node, p: seq<Node>)
    requires PathFrom(g, n, x, p) && header !in p && InLoop(g, header, latch, x)
    ensures InLoop(g, header, latch, n)
  {
    assert x == p[|p| - 1];
    var q: seq<Node> :| PathFrom(g, x, latch, q) && header !in q;
    PathJoin(g, n, x, latch, p, q);
    assert header !in p + q[1..];
  }

  /** The way back: along the avoiding path to the latch and over the back edge. */
  lemma InsideBack(g: Graph, header: Node, latch: Node, x: Node)
    requires Edge(g, latch, header) && InLoop(g, header, latch, x)
    ensures ReachInside(g, header, latch, x, header)
  {
    if x == header {
      PathNodes(g, [latch, header], 1);
      assert PathFrom(g, x, header, [x]) && InsideLoop(g, header, latch, [x]);
    } else {
      var q: seq<Node> :| PathFrom(g, x, latch, q) && header !in q;
      var p := q + [header];
      forall i | 0 <= i < |p| - 1 ensures Edge(g, p[i], p[i + 1]) {
        if i < |q| - 1 { assert Edge(g, q[i], q[i + 1]); }
      }
      forall i | 0 <= i < |p| ensures InLoop(g, header, latch, p[i]) {
        if i < |q| {
          PathNodes(g, q, i);
          assert PathFrom(g, q[i], latch, q[i..]) && header !in q[i..];
        }
      }
      assert PathFrom(g, x, header, p);
    }
  }

  lemma LastPassing(p: seq<Node>, h: Node) returns (k: nat)
    requires h in p
    ensures k < |p| && p[k] == h && h !in p[k + 1..]
  {
    k := |p| - 1;
    while p[k] != h
      invariant k < |p| && h !in p[k + 1..] && h in p[..k + 1]
      decreases k
    {
      assert p[k..] == [p[k]] + p[k + 1..];
      assert p[..k + 1] == p[..k] + [p[k]];
      k := k - 1;
    }
  }

  /** The way out: what a root path does after its last visit to the header. */
  lemma InsideOut(g: Graph, entry: Node, header: Node, latch: Node, x: Node)
    requires BackEdge(g, entry, latch, header) && InLoop(g, header, latch, x) && Rooted(g, entry, x)
    ensures ReachInside(g, header, latch, header, x)
  {
    LoopDominated(g, entry, header, latch, x);
    var p: seq<Node> :| RootPath(g, entry, x, p);
    var k := LastPassing(p, header);
    var q := p[k..];
    PathNodes(g, p, k);
    assert PathFrom(g, header, x, q);
    forall i | 0 <= i < |q| ensures InLoop(g, header, latch, q[i]) {
      if i > 0 {
        var t := p[k + i..];
        PathNodes(g, p, k + i);
        assert t == p[k + 1..][i - 1..];
        assert PathFrom(g, q[i], x, t) && header !in t;
        BeforeInLoop(g, header, latch, q[i], x, t);
      }
    }
  }

  /** A natural loop is strongly connected within itself: any block of it leads to every block of it
      that a root reaches, along a path that never leaves the loop. */
  lemma LoopConnected(g: Graph, entry: Node, header: Node, latch: Node, x: Node, y: Node)
    requires BackEdge(g, entry, latch, header) && InLoop(g, header, latch, x) && InLoop(g, header, latch, y)
    requires Rooted(g, entry, y)
    ensures ReachInside(g, header, latch, x, y)
  {
    InsideBack(g, header, latch, x);
    InsideOut(g, entry, header, latch, y);
    var p: seq<Node> :| PathFrom(g, x, header, p) && InsideLoop(g, header, latch, p);
    var q: seq<Node> :| PathFrom(g, header, y, q) && InsideLoop(g, header, latch, q);
    PathJoin(g, x, header, y, p, q);
    assert InsideLoop(g, header, latch, p + q[1..]);
  }

  /** The same for the loops of one header taken together. */
  lemma MergedConnected(g: Graph, entry: Node, header: Node, x: Node, y: Node) returns (p: seq<Node>)
    requires InMergedLoop(g, entry, header, x) && InMergedLoop(g, entry, header, y) && Rooted(g, entry, y)
    ensures PathFrom(g, x, y, p) && forall i :: 0 <= i < |p| ==> InMergedLoop(g, entry, header, p[i])
  {
    hide InLoop;
    var l :| BackEdge(g, entry, l, header) && InLoop(g, header, l, x);
    var m :| BackEdge(g, entry, m, header) && InLoop(g, header, m, y);
    InsideBack(g, header, l, x);
    InsideOut(g, entry, header, m, y);
    var a: seq<Node> :| PathFrom(g, x, header, a) && InsideLoop(g, header, l, a);
    var b: seq<Node> :| PathFrom(g, header, y, b) && InsideLoop(g, header, m, b);
    PathJoin(g, x, header, y, a, b);
    p := a + b[1..];
    forall i | 0 <= i < |p| ensures InMergedLoop(g, entry, header, p[i]) {
      if i < |a| { assert InLoop(g, header, l, a[i]); } else { assert InLoop(g, header, m, b[i - |a| + 1]); }
    }
  }

  // ------------------------------------------------------------------- nesting

  /** A root path to `a` that avoids `d` and goes on to `x` without touching `d` shows `d` does not dominate `x`. */
  lemma AvoidedDetour(g: Graph, entry: Node, d: Node, a: Node, x: Node, q: seq<Node>, r: seq<Node>)
    requires RootPath(g, entry, a, q) && d !in q && PathFrom(g, a, x, r) && d !in r[1..]
    ensures !Dominates(g, entry, d, x)
  {
    RootPathJoin(g, entry, a, x, q, r);
    assert d !in q + r[1..];
  }

  /** The dominators of a block that a root reaches are ordered. */
  lemma DominatorsOrdered(g: Graph, entry: Node, a: Node, b: Node, x: Node)
    requires Dominates(g, entry, a, x) && Dominates(g, entry, b, x) && Rooted(g, entry, x)
    ensures Dominates(g, entry, a, b) || Dominates(g, entry, b, a)
  {
    if !Dominates(g, entry, a, b) && !Dominates(g, entry, b, a) {
      var toB: seq<Node> :| RootPath(g, entry, b, toB) && a !in toB;
      var toA: seq<Node> :| RootPath(g, entry, a, toA) && b !in toA;
      var p: seq<Node> :| RootPath(g, entry, x, p);
      var k := LastPassing(p, a);
      var l := LastPassing(p, b);
      PathNodes(g, p, k);
      PathNodes(g, p, l);
      if k < l {
        assert p[l..][1..] == p[k + 1..][l - k..];
        AvoidedDetour(g, entry, a, b, x, toB, p[l..]);
      } else {
        assert a != b;
        assert p[k..][1..] == p[l + 1..][k - l..];
        AvoidedDetour(g, entry, b, a, x, toA, p[k..]);
      }
    }
  }

  lemma FirstPassing(p: seq<Node>, h: Node) returns (k: nat)
    requires h in p
    ensures k < |p| && p[k] == h && h !in p[..k]
  {
    k := 0;
    while p[k] != h
      invariant k < |p| && h !in p[..k] && h in p[k..]
      decreases |p| - k
    {
      assert p[k..] == [p[k]] + p[k + 1..];
      assert p[..k + 1] == p[..k] + [p[k]];
      k := k + 1;
    }
  }

  /** Two blocks that a root reaches do not dominate each other. */
  lemma DominanceAntisymmetric(g: Graph, entry: Node, a: Node, b: Node)
    requires Dominates(g, entry, a, b) && Dominates(g, entry, b, a) && Rooted(g, entry, a)
    ensures a == b
  {
    var p: seq<Node> :| RootPath(g, entry, a, p);
    var k := FirstPassing(p, a);
    var q := p[..k + 1];
    assert RootPath(g, entry, a, q);
    var i :| 0 <= i < |q| && q[i] == b;
    PathNodes(g, q, i);
    assert RootPath(g, entry, b, q[..i + 1]);
    assert a in q[..i + 1];
  }

  /** A loop whose header is dominated by the header of another loop it shares a block with lies inside it. */
  lemma DominatedNested(g: Graph, entry: Node, outer: Node, inner: Node, x: Node)
    requires InMergedLoop(g, entry, outer, x) && InMergedLoop(g, entry, inner, x) && Rooted(g, entry, x)
    requires outer != inner && Dominates(g, entry, outer, inner)
    ensures !InMergedLoop(g, entry, inner, outer)
    ensures forall y :: InMergedLoop(g, entry, inner, y) ==> InMergedLoop(g, entry, outer, y)
  {
    OuterOutside(g, entry, outer, inner, x);
    hide InLoop;
    var l :| BackEdge(g, entry, l, outer) && InLoop(g, outer, l, x);
    forall y | InMergedLoop(g, entry, inner, y) ensures InMergedLoop(g, entry, outer, y) {
      var p := MergedConnected(g, entry, inner, y, x);
      assert outer !in p;
      BeforeInLoop(g, outer, l, y, x, p);
    }
  }

  lemma OuterOutside(g: Graph, entry: Node, outer: Node, inner: Node, x: Node)
    requires InMergedLoop(g, entry, outer, x) && Rooted(g, entry, x)
    requires outer != inner && Dominates(g, entry, outer, inner)
    ensures !InMergedLoop(g, entry, inner, outer)
  {
    hide InLoop, Dominates;
    if InMergedLoop(g, entry, inner, outer) {
      var m :| BackEdge(g, entry, m, inner) && InLoop(g, inner, m, outer);
      LoopDominated(g, entry, inner, m, outer);
      var l :| BackEdge(g, entry, l, outer) && InLoop(g, outer, l, x);
      LoopDominated(g, entry, outer, l, x);
      DominatorRooted(g, entry, outer, x);
      DominanceAntisymmetric(g, entry, outer, inner);
    }
  }

  lemma DominatorRooted(g: Graph, entry: Node, d: Node, x: Node)
    requires Dominates(g, entry, d, x) && Rooted(g, entry, x)
    ensures Rooted(g, entry, d)
  {
    var p: seq<Node> :| RootPath(g, entry, x, p);
    var i :| 0 <= i < |p| && p[i] == d;
    PathNodes(g, p, i);
    assert RootPath(g, entry, d, p[..i + 1]);
  }

  ghost predicate ProperlyInside(g: Graph, entry: Node, inner: Node, outer: Node) {
    && !InMergedLoop(g, entry, inner, outer)
    && forall y :: InMergedLoop(g, entry, inner, y) ==> InMergedLoop(g, entry, outer, y)
  }

  /** Of two headers whose loops share a block that a root reaches, one loop lies properly inside the other. */
  lemma LoopsNested(g: Graph, entry: Node, h: Node, k: Node, x: Node)
    requires InMergedLoop(g, entry, h, x) && InMergedLoop(g, entry, k, x) && Rooted(g, entry, x) && h != k
    ensures ProperlyInside(g, entry, h, k) || ProperlyInside(g, entry, k, h)
  {
    hide InLoop, Dominates;
    var l :| BackEdge(g, entry, l, h) && InLoop(g, h, l, x);
    var m :| BackEdge(g, entry, m, k) && InLoop(g, k, m, x);
    LoopDominated(g, entry, h, l, x);
    LoopDominated(g, entry, k, m, x);
    DominatorsOrdered(g, entry, h, k, x);
    if Dominates(g, entry, h, k) { DominatedNested(g, entry, h, k, x); } else { DominatedNested(g, entry, k, h, x); }
  }

  /** Every block of a natural loop that a root reaches lies on a cycle with the header. */
  lemma LoopOnCycle(g: Graph, entry: Node, header: Node, latch: Node, x: Node)
    requires BackEdge(g, entry, latch, header) && InLoop(g, header, latch, x)
    requires Rooted(g, entry, x) && Rooted(g, entry, latch)
    ensures Mutual(g, header, x) && OnCycle(g, x)
  {
    LoopDominated(g, entry, header, latch, x);
    DominatorReaches(g, entry, header, x);
    DominatorReaches(g, entry, header, latch);
    ReachNodes(g, header, latch);
    ReachRefl(g, header);
    if x != header {
      AvoidingReaches(g, header, latch, x);
      BeyondOrSelf(g, x, header);
      BeyondTrans(g, x, header, x);
    } else {
      if latch == header { ReachRefl(g, latch); } else { BeyondOrSelf(g, header, latch); }
      LatchCycle(g, header, latch);
    }
  }

  lemma BeyondTrans(g: Graph, x: Node, y: Node, z: Node)
    requires Beyond(g, x, y) && Reach(g, y, z)
    ensures Beyond(g, x, z)
  {
    var w :| Edge(g, x, w) && Reach(g, w, y);
    ReachTrans(g, w, y, z);
  }

  lemma LatchCycle(g: Graph, header: Node, latch: Node)
    requires Edge(g, latch, header) && Reach(g, header, latch)
    ensures OnCycle(g, header)
  {
    ReachNodes(g, header, latch);
    ReachRefl(g, header);
    if header == latch {
      assert Edge(g, header, header) && Reach(g, header, header);
    } else {
      BeyondOrSelf(g, header, latch);
      BeyondStep(g, header, latch);
    }
  }

  /** A predecessor no root reaches. */
  ghost predicate StrayPred(g: Graph, entry: Node, n: Node) {
    exists u :: Edge(g, u, n) && !Rooted(g, entry, u)
  }

  lemma RootedStep(g: Graph, entry: Node, u: Node, n: Node)
    requires Rooted(g, entry, u) && Reach(g, u, n)
    ensures Rooted(g, entry, n)
  {
    var p: seq<Node> :| RootPath(g, entry, u, p);
    var q: seq<Node> :| PathFrom(g, u, n, q);
    RootPathJoin(g, entry, u, n, p, q);
  }

  lemma UnrootedHasStrayPred(g: Graph, entry: Node, n: Node)
    requires n in g.nodes && !Rooted(g, entry, n)
    ensures StrayPred(g, entry, n)
  {
    if Root(g, entry, n) {
      assert RootPath(g, entry, n, [n]);
      assert false;
    } else {
      assert PredSet(g, n) != {};
      var u :| u in PredSet(g, n);
      ReachEdge(g, u, n);
      if Rooted(g, entry, u) { RootedStep(g, entry, u, n); }
    }
  }

  /** A block is in some natural loop only if it lies on a cycle or has a stray predecessor. */
  lemma InLoopCause(g: Graph, entry: Node, header: Node, x: Node)
    requires x in g.nodes && InMergedLoop(g, entry, header, x)
    ensures OnCycle(g, x) || StrayPred(g, entry, x)
  {
    hide Dominates;
    hide OnCycle;
    hide Rooted;
    var latch :| BackEdge(g, entry, latch, header) && InLoop(g, header, latch, x);
    if !Rooted(g, entry, x) {
      UnrootedHasStrayPred(g, entry, x);
    } else if Rooted(g, entry, latch) {
      LoopOnCycle(g, entry, header, latch, x);
    } else if x != header {
      AvoidingReaches(g, header, latch, x);
      RootedStep(g, entry, x, latch);
      assert false;
    }
  }

  /** A stray predecessor makes its successor the header of a natural loop. */
  lemma StrayPredInLoop(g: Graph, entry: Node, x: Node)
    requires StrayPred(g, entry, x)
    ensures InMergedLoop(g, entry, x, x)
  {
    var u :| Edge(g, u, x) && !Rooted(g, entry, u);
    UnrootedDominated(g, entry, u, x);
    assert BackEdge(g, entry, u, x);
  }

  /** The nesting depth: how many merged loops contain the block, and at least 1 on a cycle. */
  ghost function Depth(g: Graph, entry: Node, x: Node): (d: nat) {
    var k := |Headers(g, entry, x)|;
    if k == 0 && OnCycle(g, x) then 1 else k
  }

  // ------------------------------------------------------ what the depth measures

  /** Merged loops around `x`, each properly inside the next; a loop goes by its header. */
  ghost predicate LoopChain(g: Graph, entry: Node, x: Node, hs: seq<Node>) {
    && (forall i :: 0 <= i < |hs| ==> InMergedLoop(g, entry, hs[i], x))
    && (forall i :: 0 <= i < |hs| - 1 ==> ProperlyInside(g, entry, hs[i], hs[i + 1]))
  }

  lemma InsideTrans(g: Graph, entry: Node, a: Node, b: Node, c: Node)
    requires ProperlyInside(g, entry, a, b) && ProperlyInside(g, entry, b, c)
    ensures ProperlyInside(g, entry, a, c)
  {
    hide InMergedLoop;
  }

  lemma HeaderInLoop(g: Graph, entry: Node, h: Node, x: Node)
    requires InMergedLoop(g, entry, h, x)
    ensures InMergedLoop(g, entry, h, h) && h in g.nodes
  {
    var l :| BackEdge(g, entry, l, h) && InLoop(g, h, l, x);
    assert InLoop(g, h, l, h);
    PathNodes(g, [l, h], 1);
  }

  lemma {:induction false} ChainInside(g: Graph, entry: Node, x: Node, hs: seq<Node>, i: nat, j: nat)
    requires LoopChain(g, entry, x, hs) && i < j < |hs|
    ensures ProperlyInside(g, entry, hs[i], hs[j])
    decreases j
  {
    hide InMergedLoop, ProperlyInside;
    if i + 1 < j {
      ChainInside(g, entry, x, hs, i, j - 1);
      InsideTrans(g, entry, hs[i], hs[j - 1], hs[j]);
    }
  }

  lemma ChainDistinct(g: Graph, entry: Node, x: Node, hs: seq<Node>)
    requires LoopChain(g, entry, x, hs)
    ensures forall i, j :: 0 <= i < j < |hs| ==> hs[i] != hs[j]
  {
    hide InMergedLoop;
    forall i, j | 0 <= i < j < |hs| ensures hs[i] != hs[j] {
      ChainInside(g, entry, x, hs, i, j);
      HeaderInLoop(g, entry, hs[j], x);
    }
  }

  lemma {:induction false} DistinctBound(hs: seq<Node>, s: set<Node>)
    requires (forall i :: 0 <= i < |hs| ==> hs[i] in s) && forall i, j :: 0 <= i < j < |hs| ==> hs[i] != hs[j]
    ensures |hs| <= |s|
    decreases |hs|
  {
    if hs != [] {
      var n := |hs| - 1;
      DistinctBound(hs[..n], s - {hs[n]});
    }
  }

  /** Of finitely many loops around a block that a root reaches, one has all others inside. */
  lemma {:induction false} Outermost(g: Graph, entry: Node, x: Node, s: set<Node>) returns (k: Node)
    requires s != {} && Rooted(g, entry, x) && forall h :: h in s ==> InMergedLoop(g, entry, h, x)
    ensures k in s && forall h :: h in s && h != k ==> ProperlyInside(g, entry, h, k)
    decreases s
  {
    hide InMergedLoop, ProperlyInside, Rooted;
    var a :| a in s;
    if s == {a} {
      k := a;
    } else {
      assert s == {a} + (s - {a});
      var b := Outermost(g, entry, x, s - {a});
      LoopsNested(g, entry, a, b, x);
      k := if ProperlyInside(g, entry, a, b) then b else a;
      forall h | h in s && h != k ensures ProperlyInside(g, entry, h, k) {
        if k == a && h != b { InsideTrans(g, entry, h, b, a); }
      }
    }
  }

  lemma {:induction false} ChainOf(g: Graph, entry: Node, x: Node, s: set<Node>) returns (hs: seq<Node>)
    requires Rooted(g, entry, x) && forall h :: h in s ==> InMergedLoop(g, entry, h, x)
    ensures LoopChain(g, entry, x, hs) && |hs| == |s| && forall i :: 0 <= i < |hs| ==> hs[i] in s
    decreases s
  {
    hide InMergedLoop, ProperlyInside, Rooted;
    if s == {} {
      hs := [];
    } else {
      var k := Outermost(g, entry, x, s);
      var rest := ChainOf(g, entry, x, s - {k});
      hs := rest + [k];
    }
  }

  /** For a block that a root reaches, the depth is the length of the longest chain of loops around
      it, each properly inside the next; a block on a cycle that is in none has depth 1. */
  lemma DepthIsChain(g: Graph, entry: Node, x: Node) returns (hs: seq<Node>)
    requires Rooted(g, entry, x)
    ensures LoopChain(g, entry, x, hs) && forall ks: seq<Node> :: LoopChain(g, entry, x, ks) ==> |ks| <= |hs|
    ensures Depth(g, entry, x) == if hs == [] && OnCycle(g, x) then 1 else |hs|
  {
    hide InMergedLoop, LoopChain, Rooted, OnCycle;
    var s := Headers(g, entry, x);
    hs := ChainOf(g, entry, x, s);
    forall ks: seq<Node> | LoopChain(g, entry, x, ks) ensures |ks| <= |hs| { ChainBound(g, entry, x, ks); }
  }

  lemma ChainBound(g: Graph, entry: Node, x: Node, ks: seq<Node>)
    requires LoopChain(g, entry, x, ks)
    ensures |ks| <= |Headers(g, entry, x)|
  {
    hide InMergedLoop, ProperlyInside;
    ChainDistinct(g, entry, x, ks);
    forall i | 0 <= i < |ks| ensures ks[i] in Headers(g, entry, x) { HeaderInLoop(g, entry, ks[i], x); }
    DistinctBound(ks, Headers(g, entry, x));
  }

  /** For every block, roots or not, the depth is the number of different loops around it. */
  lemma DepthCounts(g: Graph, entry: Node, x: Node) returns (hs: seq<Node>)
    ensures forall i, j :: 0 <= i < j < |hs| ==> hs[i] != hs[j]
    ensures forall h :: h in hs <==> InMergedLoop(g, entry, h, x)
    ensures Depth(g, entry, x) == if hs == [] && OnCycle(g, x) then 1 else |hs|
  {
    hide InMergedLoop, OnCycle;
    hs := Listed(Headers(g, entry, x));
    forall h ensures h in hs <==> InMergedLoop(g, entry, h, x) {
      if InMergedLoop(g, entry, h, x) { HeaderInLoop(g, entry, h, x); }
    }
  }

  lemma {:induction false} Listed(s: set<Node>) returns (q: seq<Node>)
    ensures |q| == |s| && (forall x :: x in q <==> x in s) && forall i, j :: 0 <= i < j < |q| ==> q[i] != q[j]
    decreases s
  {
    if s == {} {
      q := [];
    } else {
      var a :| a in s;
      var rest := Listed(s - {a});
      q := rest + [a];
    }
  }

  /** A header lies deeper than the header of any loop its own lies properly inside. */
  lemma DeeperInside(g: Graph, entry: Node, h: Node, k: Node)
    requires Rooted(g, entry, h) && InMergedLoop(g, entry, h, h) && ProperlyInside(g, entry, h, k)
    ensures Depth(g, entry, h) > Depth(g, entry, k)
  {
    hide InMergedLoop, OnCycle, Rooted;
    HeaderInLoop(g, entry, h, h);
    HeaderInLoop(g, entry, k, h);
    HeaderRooted(g, entry, k, h);
    var outer, inner := Headers(g, entry, k), Headers(g, entry, h);
    forall m | m in outer ensures m in inner {
      if m != k {
        LoopsNested(g, entry, k, m, k);
        HeaderInLoop(g, entry, m, k);
      }
    }
    assert k in outer && h in inner && h !in outer;
    SubsetCard(outer, inner - {h});
  }

  lemma HeaderRooted(g: Graph, entry: Node, k: Node, x: Node)
    requires InMergedLoop(g, entry, k, x) && Rooted(g, entry, x)
    ensures Rooted(g, entry, k)
  {
    var l :| BackEdge(g, entry, l, k) && InLoop(g, k, l, x);
    LoopDominated(g, entry, k, l, x);
    DominatorRooted(g, entry, k, x);
  }

  lemma SubsetCard(a: set<Node>, b: set<Node>)
    requires a <= b
    ensures |a| <= |b|
  {
    assert b == a + (b - a);
  }

  /** Exactly when a block counts as being in a loop. */
  lemma DepthLaw(g: Graph, entry: Node, x: Node)
    requires x in g.nodes
    ensures Depth(g, entry, x) >= 1 <==> OnCycle(g, x) || StrayPred(g, entry, x)
  {
    hide OnCycle;
    hide StrayPred;
    hide InMergedLoop;
    var hs := Headers(g, entry, x);
    if StrayPred(g, entry, x) {
      StrayPredInLoop(g, entry, x);
      assert x in hs;
    }
    forall h | h in hs ensures OnCycle(g, x) || StrayPred(g, entry, x) { InLoopCause(g, entry, h, x); }
  }

  /** In a function all of whose blocks a root reaches, the depth is at least 1 exactly on cycles. */
  lemma DepthOnCycles(g: Graph, entry: Node, x: Node)
    requires x in g.nodes && forall n :: n in g.nodes ==> Rooted(g, entry, n)
    ensures Depth(g, entry, x) >= 1 <==> OnCycle(g, x)
  {
    DepthLaw(g, entry, x);
  }

  /** Without that assumption it is not so: an isolated entry, a self-loop no root reaches, and a
      block behind it that lies on no cycle and yet is counted. */
  lemma DepthOffCycle()
    ensures var e, a, c := Node(0), Node(1), Node(2);
            var g := Graph({e, a, c}, map[a := {a, c}]);
            PredSet(g, e) == {} && !OnCycle(g, c) && Depth(g, e, c) >= 1
  {
    var e, a, c := Node(0), Node(1), Node(2);
    var g := Graph({e, a, c}, map[a := {a, c}]);
    assert Succ(g, c) == {};
    assert forall u :: !Edge(g, u, e);
    assert Edge(g, a, c) && Edge(g, a, a);
    assert a in PredSet(g, a);
    assert !Rooted(g, e, a) by {
      forall p: seq<Node> ensures !RootPath(g, e, a, p) {
        if RootPath(g, e, a, p) {
          OnlySelfBefore(g, e, a, p);
          assert false;
        }
      }
    }
    DepthLaw(g, e, c);
  }

  lemma {:induction false} OnlySelfBefore(g: Graph, e: Node, a: Node, p: seq<Node>)
    requires IsPath(g, p) && p[|p| - 1] == a && forall u :: Edge(g, u, a) ==> u == a
    ensures p[0] == a
    decreases |p|
  {
    if |p| > 1 {
      assert Edge(g, p[|p| - 2], a);
      OnlySelfBefore(g, e, a, p[..|p| - 1]);
    }
  }

  // ------------------------------------------------------------------ algorithm

  ghost predicate LoopInv(g: Graph, header: Node, latch: Node, nodes: set<Node>, work: seq<Node>) {
    && nodes <= g.nodes && header in nodes && latch in nodes
    && (forall x :: x in nodes ==> InLoop(g, header, latch, x))
    && (forall x :: x in work ==> x in nodes && x != header)
    && (forall x, y :: y in nodes && y != header && y !in work && Edge(g, x, y) ==> x in nodes)
  }

  lemma AvoidingCons(g: Graph, x: Node, y: Node, latch: Node, header: Node)
    requires Edge(g, x, y) && ReachAvoiding(g, y, latch, header) && x != header
    ensures ReachAvoiding(g, x, latch, header)
  {
    var p: seq<Node> :| PathFrom(g, y, latch, p) && header !in p;
    var q := [x] + p;
    forall i | 0 <= i < |q| - 1 ensures Edge(g, q[i], q[i + 1]) {
      if i > 0 { assert q[i] == p[i - 1] && q[i + 1] == p[i]; }
    }
    assert PathFrom(g, x, latch, q);
  }

  lemma {:induction false} AvoidingClosed(g: Graph, header: Node, latch: Node, nodes: set<Node>, p: seq<Node>)
    requires LoopInv(g, header, latch, nodes, []) && IsPath(g, p) && p[|p| - 1] == latch && header !in p
    ensures p[0] in nodes
    decreases |p|
  {
    if |p| > 1 {
      assert forall x :: x in p[1..] ==> x in p;
      assert IsPath(g, p[1..]) by {
        assert Edge(g, p[0], p[1]);
        forall i | 0 <= i < |p[1..]| - 1 ensures Edge(g, p[1..][i], p[1..][i + 1]) {
          assert p[1..][i] == p[i + 1] && p[1..][i + 1] == p[i + 2];
        }
      }
      AvoidingClosed(g, header, latch, nodes, p[1..]);
      assert Edge(g, p[0], p[1]) && p[1] in p;
    }
  }

  lemma LoopDone(g: Graph, header: Node, latch: Node, nodes: set<Node>)
    requires LoopInv(g, header, latch, nodes, [])
    ensures forall x :: x in nodes <==> InLoop(g, header, latch, x)
  {
    forall x | InLoop(g, header, latch, x) ensures x in nodes {
      if x != header {
        var p: seq<Node> :| PathFrom(g, x, latch, p) && header !in p;
        AvoidingClosed(g, header, latch, nodes, p);
      }
    }
  }

  /** Recover the natural loop of the back edge from `latch` to `header`. */
  method NaturalLoop(g: Graph, preds: map<Node, set<Node>>, header: Node, latch: Node) returns (nodes: set<Node>)
    requires Edge(g, latch, header) && preds.Keys == g.nodes && forall n :: n in g.nodes ==> preds[n] == PredSet(g, n)
    ensures nodes <= g.nodes && forall x :: x in nodes <==> InLoop(g, header, latch, x)
  {
    hide InLoop;
    nodes := {header};
    if latch == header {
      SelfLoop(g, header);
      return;
    }
    nodes := nodes + {latch};
    var work := [latch];
    LoopStart(g, header, latch);
    while work != []
      invariant LoopInv(g, header, latch, nodes, work)
      decreases g.nodes - nodes, |work|
    {
      var node, below := work[|work| - 1], work[..|work| - 1];
      assert work == below + [node];
      var found := preds[node] - nodes;
      var pushed := Enumerate(found);
      LoopStep(g, header, latch, nodes, below, node, found, pushed);
      work := below + pushed;
      nodes := nodes + found;
    }
    LoopDone(g, header, latch, nodes);
  }

  lemma SelfLoop(g: Graph, header: Node)
    ensures forall x :: x in {header} <==> InLoop(g, header, header, x)
  {
  }

  lemma LoopStart(g: Graph, header: Node, latch: Node)
    requires Edge(g, latch, header) && latch != header
    ensures LoopInv(g, header, latch, {header, latch}, [latch])
  {
    assert PathFrom(g, latch, latch, [latch]) && header !in [latch];
  }

  lemma LoopStep(g: Graph, header: Node, latch: Node, nodes: set<Node>, below: seq<Node>, node: Node,
                 found: set<Node>, pushed: seq<Node>)
    requires LoopInv(g, header, latch, nodes, below + [node]) && found == PredSet(g, node) - nodes
    requires forall x :: x in pushed <==> x in found
    ensures LoopInv(g, header, latch, nodes + found, below + pushed)
  {
    assert node in below + [node];
    forall x | x in found ensures InLoop(g, header, latch, x) { AvoidingCons(g, x, node, latch, header); }
    forall x, y | y in nodes + found && y != header && y !in below + pushed && Edge(g, x, y) ensures x in nodes + found {
      if y == node { assert x in PredSet(g, node); } else { assert y !in below + [node]; }
    }
  }

  /** back_edges */
  method FindBackEdges(g: Graph, dom: DomMap, ghost entry: Node) returns (edges: seq<(Node, Node)>)
    requires dom.Keys == g.nodes
    requires forall n, d :: n in g.nodes && d in g.nodes ==> (d in dom[n] <==> Dominates(g, entry, d, n))
    ensures forall u, v :: (u, v) in edges <==> BackEdge(g, entry, u, v)
  {
    hide Dominates;
    edges := [];
    var us := g.nodes;
    while us != {}
      invariant us <= g.nodes
      invariant forall u, v :: (u, v) in edges <==> u in g.nodes - us && BackEdge(g, entry, u, v)
      decreases us
    {
      var u := Pick(us);
      us := us - {u};
      var vs := Succ(g, u);
      ghost var edges0 := edges;
      while vs != {}
        invariant vs <= Succ(g, u)
        invariant forall x, y :: (x, y) in edges <==>
          (x, y) in edges0 || (x == u && y in Succ(g, u) - vs && BackEdge(g, entry, x, y))
        decreases vs
      {
        var v := Pick(vs);
        vs := vs - {v};
        if v in dom[u] { edges := edges + [(u, v)]; }
      }
    }
  }

  /** `x` is in the loop of one of these back edges to `h`. */
  ghost predicate Collected(g: Graph, edges: seq<(Node, Node)>, h: Node, x: Node) {
    exists u :: (u, h) in edges && InLoop(g, h, u, x)
  }

  lemma CollectedSnoc(g: Graph, edges: seq<(Node, Node)>, latch: Node, header: Node, h: Node, x: Node)
    ensures Collected(g, edges + [(latch, header)], h, x) <==>
            Collected(g, edges, h, x) || (h == header && InLoop(g, h, latch, x))
  {
    var more := edges + [(latch, header)];
    if h == header { assert (latch, h) in more; }
    forall u | (u, h) in edges ensures (u, h) in more {}
  }

  ghost predicate MergedFor(g: Graph, merged: map<Node, set<Node>>, edges: seq<(Node, Node)>) {
    && (forall h, x :: h in merged && x in merged[h] <==> Collected(g, edges, h, x))
    && (forall h :: h in merged ==> h in g.nodes && merged[h] <= g.nodes)
  }

  lemma MergeOne(g: Graph, merged: map<Node, set<Node>>, edges: seq<(Node, Node)>, latch: Node, header: Node,
                 nodes: set<Node>)
    requires MergedFor(g, merged, edges) && header in g.nodes && nodes <= g.nodes
    requires forall x :: x in nodes <==> InLoop(g, header, latch, x)
    ensures MergedFor(g, merged[header := (if header in merged then merged[header] else {}) + nodes],
                      edges + [(latch, header)])
  {
    hide InLoop;
    hide Collected;
    var merged' := merged[header := (if header in merged then merged[header] else {}) + nodes];
    forall h, x ensures h in merged' && x in merged'[h] <==> Collected(g, edges + [(latch, header)], h, x) {
      CollectedSnoc(g, edges, latch, header, h, x);
      assert h in merged && x in merged[h] <==> Collected(g, edges, h, x);
    }
  }

  /** raw_loops, merged by header. */
  method MergeLoops(g: Graph, preds: map<Node, set<Node>>, edges: seq<(Node, Node)>, ghost entry: Node)
    returns (merged: map<Node, set<Node>>)
    requires preds.Keys == g.nodes && forall n :: n in g.nodes ==> preds[n] == PredSet(g, n)
    requires forall u, v :: (u, v) in edges <==> BackEdge(g, entry, u, v)
    ensures forall h, x :: h in merged && x in merged[h] <==> InMergedLoop(g, entry, h, x)
    ensures forall h :: h in merged ==> h in g.nodes && merged[h] <= g.nodes
  {
    hide Dominates;
    hide InLoop;
    hide Collected;
    hide InMergedLoop;
    hide MergedFor;
    merged := map[];
    var i := 0;
    MergeNone(g);
    assert edges[..0] == [];
    while i < |edges|
      invariant 0 <= i <= |edges| && MergedFor(g, merged, edges[..i])
    {
      var latch, header := edges[i].0, edges[i].1;
      assert (latch, header) in edges;
      assert BackEdge(g, entry, latch, header);
      var nodes := NaturalLoop(g, preds, header, latch);
      MergeOne(g, merged, edges[..i], latch, header, nodes);
      assert edges[..i + 1] == edges[..i] + [(latch, header)];
      var sofar := if header in merged then merged[header] else {};
      merged := merged[header := sofar + nodes];
      i := i + 1;
    }
    assert edges[..|edges|] == edges;
    MergeAll(g, merged, edges, entry);
  }

  lemma MergeNone(g: Graph)
    ensures MergedFor(g, map[], [])
  {
  }

  lemma MergeAll(g: Graph, merged: map<Node, set<Node>>, edges: seq<(Node, Node)>, entry: Node)
    requires MergedFor(g, merged, edges) && forall u, v :: (u, v) in edges <==> BackEdge(g, entry, u, v)
    ensures forall h, x :: h in merged && x in merged[h] <==> InMergedLoop(g, entry, h, x)
    ensures forall h :: h in merged ==> h in g.nodes && merged[h] <= g.nodes
  {
    hide BackEdge;
    hide InMergedLoop;
    hide Collected;
    CollectedAll(g, edges, entry);
    forall h, x ensures h in merged && x in merged[h] <==> InMergedLoop(g, entry, h, x) {
      assert Collected(g, edges, h, x) <==> InMergedLoop(g, entry, h, x);
    }
  }

  lemma CollectedAll(g: Graph, edges: seq<(Node, Node)>, entry: Node)
    requires forall u, v :: (u, v) in edges <==> BackEdge(g, entry, u, v)
    ensures forall h, x :: Collected(g, edges, h, x) <==> InMergedLoop(g, entry, h, x)
  {
    hide Dominates;
    hide InLoop;
    forall h, x ensures Collected(g, edges, h, x) <==> InMergedLoop(g, entry, h, x) {
      if InMergedLoop(g, entry, h, x) {
        var u :| BackEdge(g, entry, u, h) && InLoop(g, h, u, x);
        assert (u, h) in edges;
      }
    }
  }

  ghost predicate CountedFor(g: Graph, merged: map<Node, set<Node>>, hs: set<Node>, nesting: map<Node, nat>) {
    nesting.Keys == g.nodes && forall x :: x in g.nodes ==> nesting[x] == |HeadersOf(merged, hs, x)|
  }

  /** One more loop around the blocks of `loop`. */
  function AddLoop(nesting: map<Node, nat>, loop: set<Node>): (r: map<Node, nat>)
    ensures r.Keys == nesting.Keys
    ensures forall x :: x in nesting ==> r[x] == nesting[x] + if x in loop then 1 else 0
  {
    map x | x in nesting :: if x in loop then nesting[x] + 1 else nesting[x]
  }

  /** At least depth 1 for the blocks of `c`. */
  function AtLeastOne(nesting: map<Node, nat>, c: set<Node>): (r: map<Node, nat>)
    ensures r.Keys == nesting.Keys
    ensures forall x :: x in nesting ==> r[x] == if x in c && nesting[x] < 1 then 1 else nesting[x]
  {
    map x | x in nesting :: if x in c && nesting[x] < 1 then 1 else nesting[x]
  }

  lemma CountOne(g: Graph, merged: map<Node, set<Node>>, hs: set<Node>, nesting: map<Node, nat>, h: Node)
    requires CountedFor(g, merged, hs, nesting) && h !in hs && h in merged
    ensures CountedFor(g, merged, hs + {h}, AddLoop(nesting, merged[h]))
  {
    hide HeadersOf;
    forall x | x in g.nodes
      ensures |HeadersOf(merged, hs + {h}, x)| == nesting[x] + if x in merged[h] then 1 else 0
    {
      HeadersAdd(merged, hs, h, x);
    }
  }

  lemma CountNone(g: Graph, merged: map<Node, set<Node>>, nesting: map<Node, nat>)
    requires nesting.Keys == g.nodes && forall x :: x in nesting ==> nesting[x] == 0
    ensures CountedFor(g, merged, {}, nesting)
  {
    assert forall x :: HeadersOf(merged, {}, x) == {};
  }

  /** loop_nesting from the merged loops: each header counts once for every block of its loop. */
  method CountLoops(g: Graph, merged: map<Node, set<Node>>) returns (nesting: map<Node, nat>)
    requires forall h :: h in merged ==> h in g.nodes && merged[h] <= g.nodes
    ensures CountedFor(g, merged, merged.Keys, nesting)
  {
    hide CountedFor;
    nesting := map x | x in g.nodes :: 0;
    var rest := merged.Keys;
    ghost var done: set<Node> := {};
    CountNone(g, merged, nesting);
    while rest != {}
      invariant rest <= merged.Keys && done == merged.Keys - rest && CountedFor(g, merged, done, nesting)
      decreases rest
    {
      var h := Pick(rest);
      CountOne(g, merged, done, nesting, h);
      nesting := AddLoop(nesting, merged[h]);
      rest := rest - {h};
      done := done + {h};
    }
    assert done == merged.Keys;
  }

  ghost function HeadersOf(merged: map<Node, set<Node>>, hs: set<Node>, x: Node): (r: set<Node>) {
    set h | h in hs && h in merged && x in merged[h]
  }

  lemma HeadersAdd(merged: map<Node, set<Node>>, hs: set<Node>, h: Node, x: Node)
    requires h !in hs && h in merged
    ensures |HeadersOf(merged, hs + {h}, x)| == |HeadersOf(merged, hs, x)| + if x in merged[h] then 1 else 0
  {
    if x in merged[h] {
      assert HeadersOf(merged, hs + {h}, x) == HeadersOf(merged, hs, x) + {h};
    } else {
      assert HeadersOf(merged, hs + {h}, x) == HeadersOf(merged, hs, x);
    }
  }

  /** A component is a loop exactly if it has two blocks or its block is its own successor. */
  lemma LoopScc(g: Graph, c: set<Node>, x: Node)
    requires IsScc(g, c) && x in c
    ensures OnCycle(g, x) <==> |c| > 1 || Edge(g, x, x)
  {
    if OnCycle(g, x) {
      var y :| Edge(g, x, y) && Reach(g, y, x);
      ReachEdge(g, x, y);
      ReachNodes(g, x, y);
      assert y in c;
      if y != x { TwoElements(c, x, y); }
    }
    if Edge(g, x, x) { ReachRefl(g, x); }
    if |c| > 1 {
      var y := Another(c, x);
      assert Mutual(g, x, y);
      BeyondOrSelf(g, x, y);
      BeyondTrans(g, x, y, x);
    }
  }

  lemma TwoElements(c: set<Node>, x: Node, y: Node)
    requires x in c && y in c && x != y
    ensures |c| > 1
  {
    assert y in c - {x};
    assert c == (c - {x}) + {x};
  }

  lemma Another(c: set<Node>, x: Node) returns (y: Node)
    requires x in c && |c| > 1
    ensures y in c && y != x
  {
    assert c - {x} != {} by { assert c - {x} == {} ==> c == {x}; }
    y :| y in c - {x};
  }

  /** The depth `d` after the fallback has seen the components that cover `x`. */
  ghost function Raised(g: Graph, d: nat, sccs: seq<set<Node>>, x: Node): (r: nat) {
    if d == 0 && Covers(sccs, x) && OnCycle(g, x) then 1 else d
  }

  lemma RaiseOne(g: Graph, c: set<Node>, isLoop: bool, sccs: seq<set<Node>>, x: Node, d: nat)
    requires IsScc(g, c) && (isLoop <==> |c| > 1 || exists n :: n in c && Edge(g, n, n))
    ensures Raised(g, d, sccs + [c], x) ==
            if isLoop && x in c && Raised(g, d, sccs, x) < 1 then 1 else Raised(g, d, sccs, x)
  {
    hide OnCycle;
    hide IsScc;
    CoversSnoc(sccs, c, x);
    if x in c {
      LoopScc(g, c, x);
      if |c| <= 1 { OnlyElement(c, x); }
    }
  }

  /** is_loop_scc */
  method IsLoopScc(g: Graph, c: set<Node>) returns (isLoop: bool)
    requires c != {} && c <= g.nodes
    ensures isLoop <==> |c| > 1 || exists n :: n in c && Edge(g, n, n)
  {
    isLoop := |c| > 1;
    if |c| == 1 {
      var n := Pick(c);
      OnlyElement(c, n);
      isLoop := n in Succ(g, n);
    }
  }

  ghost predicate RaisedFor(g: Graph, nesting0: map<Node, nat>, sccs: seq<set<Node>>, nesting: map<Node, nat>) {
    && nesting0.Keys == g.nodes == nesting.Keys
    && forall x :: x in g.nodes ==> nesting[x] == Raised(g, nesting0[x], sccs, x)
  }

  lemma RaiseStep(g: Graph, nesting0: map<Node, nat>, sccs: seq<set<Node>>, nesting: map<Node, nat>, c: set<Node>, isLoop: bool)
    requires RaisedFor(g, nesting0, sccs, nesting)
    requires IsScc(g, c) && (isLoop <==> |c| > 1 || exists n :: n in c && Edge(g, n, n))
    ensures RaisedFor(g, nesting0, sccs + [c], if isLoop then AtLeastOne(nesting, c) else nesting)
  {
    hide Raised;
    hide IsScc;
    forall x | x in g.nodes
      ensures Raised(g, nesting0[x], sccs + [c], x) == if isLoop && x in c && nesting[x] < 1 then 1 else nesting[x]
    {
      RaiseOne(g, c, isLoop, sccs, x, nesting0[x]);
    }
  }

  /** The SCC fallback: blocks of loop components count as depth 1 at least. */
  method RaiseCycles(g: Graph, nesting0: map<Node, nat>) returns (nesting: map<Node, nat>)
    requires nesting0.Keys == g.nodes
    ensures nesting.Keys == g.nodes
    ensures forall x :: x in g.nodes ==>
              nesting[x] == if nesting0[x] == 0 && OnCycle(g, x) then 1 else nesting0[x]
  {
    hide OnCycle;
    hide IsSccList;
    hide IsScc;
    hide RaisedFor;
    var sccs := ComputeSccs(g);
    nesting := nesting0;
    SccListFacts(g, sccs);
    var i := 0;
    RaiseNone(g, nesting0);
    assert sccs[..0] == [];
    while i < |sccs|
      invariant 0 <= i <= |sccs| && RaisedFor(g, nesting0, sccs[..i], nesting)
    {
      var c := sccs[i];
      var isLoop := IsLoopScc(g, c);
      assert sccs[..i + 1] == sccs[..i] + [c];
      RaiseStep(g, nesting0, sccs[..i], nesting, c, isLoop);
      if isLoop { nesting := AtLeastOne(nesting, c); }
      i := i + 1;
    }
    assert sccs[..|sccs|] == sccs;
    RaiseAll(g, nesting0, sccs, nesting);
  }

  lemma RaiseNone(g: Graph, nesting0: map<Node, nat>)
    requires nesting0.Keys == g.nodes
    ensures RaisedFor(g, nesting0, [], nesting0)
  {
    assert forall x :: !Covers([], x);
  }

  lemma RaiseAll(g: Graph, nesting0: map<Node, nat>, sccs: seq<set<Node>>, nesting: map<Node, nat>)
    requires RaisedFor(g, nesting0, sccs, nesting) && forall x :: x in g.nodes ==> Covers(sccs, x)
    ensures nesting.Keys == g.nodes == nesting0.Keys
    ensures forall x :: x in g.nodes ==> nesting[x] == if nesting0[x] == 0 && OnCycle(g, x) then 1 else nesting0[x]
  {
    hide OnCycle;
    hide Covers;
  }

  lemma OnlyElement(c: set<Node>, n: Node)
    requires |c| == 1 && n in c
    ensures c == {n}
  {
    forall x | x in c ensures x == n {
      if x != n { TwoElements(c, x, n); }
    }
  }

  lemma CoversSnoc(sccs: seq<set<Node>>, c: set<Node>, x: Node)
    ensures Covers(sccs + [c], x) <==> Covers(sccs, x) || x in c
  {
    assert (sccs + [c])[|sccs|] == c;
    assert forall k :: 0 <= k < |sccs| ==> (sccs + [c])[k] == sccs[k];
  }

  lemma SccListFacts(g: Graph, sccs: seq<set<Node>>)
    requires IsSccList(g, sccs)
    ensures forall x :: x in g.nodes ==> Covers(sccs, x)
    ensures forall i :: 0 <= i < |sccs| ==> IsScc(g, sccs[i]) && sccs[i] != {} && sccs[i] <= g.nodes
  {
    hide HasEdge;
    hide Mutual;
  }

  /** The loop_nesting_depth part of compute_loop_features, for one function. */
  method ComputeLoopNesting(g: Graph) returns (nesting: map<Node, nat>, entry: Node)
    requires g.nodes != {}
    ensures entry in g.nodes && nesting.Keys == g.nodes
    ensures PredSet(g, entry) == {} || forall n :: n in g.nodes ==> PredSet(g, n) != {} && entry.id <= n.id
    ensures forall x :: x in g.nodes ==> nesting[x] == Depth(g, entry, x)
  {
    hide PredSet;
    hide Dominates;
    hide InMergedLoop;
    hide OnCycle;
    var preds := BuildPreds(g);
    entry := ChooseEntry(g, preds);
    var dom := ComputeDominators(g, preds, entry);
    var edges := FindBackEdges(g, dom, entry);
    var merged := MergeLoops(g, preds, edges, entry);
    nesting := CountLoops(g, merged);
    forall x | x in g.nodes ensures HeadersOf(merged, merged.Keys, x) == Headers(g, entry, x) {
    }
    nesting := RaiseCycles(g, nesting);
  }
}
