/** Betweenness centrality: one breadth-first search per source, then back-accumulation. */
module Brandes {
  import opened Base
  import opened Graph
  import opened FiniteSum
  import opened Dominators
  import opened ShortestPaths
  import opened Dependency

  type Counts = map<Node, real>
  type Preds = map<Node, seq<Node>>

  function PredsOf(p: Preds, w: Node): (vs: seq<Node>) { if w in p then p[w] else [] }

  function CountOf(c: Counts, w: Node): (r: real) { if w in c then c[w] else 0.0 }

  // --------------------------------------------------------- state of a search

  /** The search has looked at the edge from `u` to `w`; of `v` the edges to `rest` are still to come. */
  ghost predicate Scanned(done: seq<Node>, v: Node, rest: set<Node>, u: Node, w: Node) {
    u in done && !(u == v && w in rest)
  }

  ghost predicate Ordered(d: Dist, order: seq<Node>) {
    && NoDup(order)
    && (forall x :: x in order <==> x in d)
    && (forall i, j :: 0 <= i < j < |order| ==> d[order[i]] <= d[order[j]])
  }

  /** What is queued is at most one step beyond the node taken last. */
  ghost predicate QueueNear(done: seq<Node>, queue: seq<Node>, d: Dist) {
    if done == [] then |queue| <= 1
    else done[|done| - 1] in d ==> forall x :: x in queue && x in d ==> d[x] <= d[done[|done| - 1]] + 1
  }

  ghost predicate Walkable(g: Graph, s: Node, d: Dist) {
    && s in g.nodes && s in d && d[s] == 0 && d.Keys <= g.nodes
    && forall w :: w in d ==> Walks(g, s, d[w], w) != {}
  }

  ghost predicate EdgesSeen(g: Graph, d: Dist, done: seq<Node>, v: Node, rest: set<Node>) {
    forall u, w :: Edge(g, u, w) && Scanned(done, v, rest, u, w) ==> u in d && w in d && d[w] <= d[u] + 1
  }

  /** The recorded predecessors are those of the edges seen that go one step further. */
  ghost predicate PredsSeen(g: Graph, d: Dist, done: seq<Node>, v: Node, rest: set<Node>, p: Preds) {
    forall w :: NoDup(PredsOf(p, w)) && forall u :: PredExact(g, d, done, v, rest, p, w, u)
  }

  ghost predicate PredExact(g: Graph, d: Dist, done: seq<Node>, v: Node, rest: set<Node>, p: Preds, w: Node, u: Node) {
    u in PredsOf(p, w) <==>
    Scanned(done, v, rest, u, w) && Edge(g, u, w) && u in d && w in d && d[u] + 1 == d[w]
  }

  ghost function Members(q: seq<Node>): (s: set<Node>) { set x | x in q }

  ghost predicate CountsAdd(s: Node, p: Preds, sigma: Counts) {
    forall w :: CountOf(sigma, w) == Is(w, s) + Sum(Members(PredsOf(p, w)), u => CountOf(sigma, u))
  }

  ghost predicate Searching(g: Graph, s: Node, done: seq<Node>, queue: seq<Node>, d: Dist, sigma: Counts, p: Preds,
                            v: Node, rest: set<Node>)
  {
    && Ordered(d, done + queue)
    && QueueNear(done, queue, d)
    && Walkable(g, s, d)
    && EdgesSeen(g, d, done, v, rest)
    && PredsSeen(g, d, done, v, rest, p)
    && CountsAdd(s, p, sigma)
  }

  // ------------------------------------------------------- what a search finds

  ghost predicate SearchResult(g: Graph, s: Node, order: seq<Node>, d: Dist, sigma: Counts, p: Preds) {
    && IsDist(g, s, d)
    && Ordered(d, order)
    && (forall w :: w in d ==> CountOf(sigma, w) == Sigma(g, s, d, w))
    && (forall w :: NoDup(PredsOf(p, w)) && Members(PredsOf(p, w)) == DagPred(g, d, w))
  }

  /** Once every edge out of a found node was seen, no walk is shorter than recorded. */
  lemma {:induction false} NoShorterWalk(g: Graph, s: Node, d: Dist, done: seq<Node>, v: Node, w: Node, k: nat)
    requires Walkable(g, s, d) && EdgesSeen(g, d, done, v, {}) && (forall x :: x in done <==> x in d)
    requires Walks(g, s, k, w) != {}
    ensures w in d && d[w] <= k
    decreases k
  {
    if k > 0 {
      var q :| q in Walks(g, s, k, w);
      assert q in Extend(PredSet(g, w), u => Walks(g, s, k - 1, u), w);
      var u, r :| u in PredSet(g, w) && r in Walks(g, s, k - 1, u) && q == r + [w];
      NoShorterWalk(g, s, d, done, v, u, k - 1);
      assert Scanned(done, v, {}, u, w);
    }
  }

  lemma {:induction false} CountsAreSigma(g: Graph, s: Node, d: Dist, sigma: Counts, p: Preds, w: Node)
    requires IsDist(g, s, d) && CountsAdd(s, p, sigma) && w in d
    requires forall x :: Members(PredsOf(p, x)) == DagPred(g, d, x)
    ensures CountOf(sigma, w) == Sigma(g, s, d, w)
    decreases d[w]
  {
    hide Sum, CountOf, PredsOf;
    if d[w] == 0 {
      assert Walks(g, s, 0, w) != {};
      assert w == s && Walks(g, s, 0, w) == {[s]};
      assert DagPred(g, d, w) == {};
      SumZero({}, u => CountOf(sigma, u));
    } else {
      SigmaRec(g, s, d, w);
      forall u | u in DagPred(g, d, w) ensures CountOf(sigma, u) == Sigma(g, s, d, u) {
        CountsAreSigma(g, s, d, sigma, p, u);
      }
      SumSame(DagPred(g, d, w), u => CountOf(sigma, u), u => Sigma(g, s, d, u));
    }
  }

  lemma SearchDone(g: Graph, s: Node, done: seq<Node>, d: Dist, sigma: Counts, p: Preds, v: Node)
    requires Searching(g, s, done, [], d, sigma, p, v, {})
    ensures SearchResult(g, s, done, d, sigma, p)
  {
    hide CountsAdd, Walks, Sigma, CountOf;
    assert done + [] == done;
    forall w, k: nat | Walks(g, s, k, w) != {} ensures w in d && d[w] <= k {
      NoShorterWalk(g, s, d, done, v, w, k);
    }
    forall w ensures NoDup(PredsOf(p, w)) && Members(PredsOf(p, w)) == DagPred(g, d, w) {
      forall u ensures u in PredsOf(p, w) <==> u in DagPred(g, d, w) {
        assert PredExact(g, d, done, v, {}, p, w, u);
      }
    }
    forall w | w in d ensures CountOf(sigma, w) == Sigma(g, s, d, w) { CountsAreSigma(g, s, d, sigma, p, w); }
  }

  // -------------------------------------------------------- steps of a search

  /** A node taken from the queue, before any of its edges is looked at. */
  lemma TakeNext(g: Graph, s: Node, done: seq<Node>, queue: seq<Node>, d: Dist, sigma: Counts, p: Preds, v0: Node)
    requires Searching(g, s, done, queue, d, sigma, p, v0, {}) && queue != []
    ensures queue[0] !in done && queue[0] in d
    ensures Searching(g, s, done + [queue[0]], queue[1..], d, sigma, p, queue[0], Succ(g, queue[0]))
  {
    hide CountsAdd, Walkable, EdgesSeen, PredsSeen, Ordered, QueueNear, Succ;
    TakeOrder(done, queue, d);
    TakeEdges(g, d, done, v0, p, queue[0]);
  }

  lemma TakeOrder(done: seq<Node>, queue: seq<Node>, d: Dist)
    requires Ordered(d, done + queue) && QueueNear(done, queue, d) && queue != []
    ensures queue[0] !in done && queue[0] in d
    ensures Ordered(d, (done + [queue[0]]) + queue[1..]) && QueueNear(done + [queue[0]], queue[1..], d)
  {
    var v, all := queue[0], done + queue;
    assert (done + [v]) + queue[1..] == all;
    assert all[|done|] == v;
    forall i | 0 <= i < |done| ensures done[i] != v { assert all[i] == done[i]; }
    if done != [] {
      var l := |done| - 1;
      assert all[l] == done[l] && d[all[l]] <= d[all[|done|]];
      forall x | x in queue[1..] ensures x in d && d[x] <= d[v] + 1 { assert x in all; }
    }
  }

  lemma TakeEdges(g: Graph, d: Dist, done: seq<Node>, v0: Node, p: Preds, v: Node)
    requires EdgesSeen(g, d, done, v0, {}) && PredsSeen(g, d, done, v0, {}, p) && v !in done
    ensures EdgesSeen(g, d, done + [v], v, Succ(g, v)) && PredsSeen(g, d, done + [v], v, Succ(g, v), p)
  {
    hide Succ;
    forall u, w
      ensures Edge(g, u, w) ==> (Scanned(done + [v], v, Succ(g, v), u, w) <==> Scanned(done, v0, {}, u, w))
      ensures PredExact(g, d, done + [v], v, Succ(g, v), p, w, u)
    {
      assert PredExact(g, d, done, v0, {}, p, w, u);
    }
  }

  /** The node taken last bounds every distance; it is itself no further than anything queued. */
  lemma LastBounds(g: Graph, s: Node, done: seq<Node>, queue: seq<Node>, d: Dist, sigma: Counts, p: Preds,
                   v: Node, rest: set<Node>)
    requires Searching(g, s, done, queue, d, sigma, p, v, rest)
    requires done != [] && done[|done| - 1] == v
    ensures v in d && forall x :: x in d ==> d[x] <= d[v] + 1 && (x in done ==> d[x] <= d[v])
  {
    hide CountsAdd, PredsSeen, EdgesSeen, Walkable;
    var all := done + queue;
    assert all[|done| - 1] == v;
    forall x | x in done ensures x in d && d[x] <= d[v] {
      var i :| 0 <= i < |done| && done[i] == x;
      assert all[i] == x;
    }
  }

  /** A new node is queued one step beyond the node it was found from. */
  lemma Discover(g: Graph, s: Node, done: seq<Node>, queue: seq<Node>, d: Dist, sigma: Counts, p: Preds,
                 v: Node, rest: set<Node>, w: Node)
    requires Searching(g, s, done, queue, d, sigma, p, v, rest)
    requires done != [] && done[|done| - 1] == v && v in d && Edge(g, v, w) && w !in d
    ensures Searching(g, s, done, queue + [w], d[w := d[v] + 1], sigma, p, v, rest)
  {
    hide CountsAdd;
    LastBounds(g, s, done, queue, d, sigma, p, v, rest);
    DiscoverOrder(done, queue, d, v, w);
    DiscoverEdges(g, s, done, d, p, v, rest, w);
  }

  lemma DiscoverOrder(done: seq<Node>, queue: seq<Node>, d: Dist, v: Node, w: Node)
    requires Ordered(d, done + queue) && QueueNear(done, queue, d)
    requires v in done && v in d && w !in d && done[|done| - 1] == v && forall x :: x in d ==> d[x] <= d[v] + 1
    ensures Ordered(d[w := d[v] + 1], done + (queue + [w])) && QueueNear(done, queue + [w], d[w := d[v] + 1])
  {
    var all := done + queue;
    assert done + (queue + [w]) == all + [w];
    forall x ensures x in all + [w] <==> x in all || x == w {}
  }

  lemma DiscoverEdges(g: Graph, s: Node, done: seq<Node>, d: Dist, p: Preds, v: Node, rest: set<Node>, w: Node)
    requires Walkable(g, s, d) && EdgesSeen(g, d, done, v, rest) && PredsSeen(g, d, done, v, rest, p)
    requires v in d && Edge(g, v, w) && w !in d && forall x :: x in done ==> x in d
    ensures Walkable(g, s, d[w := d[v] + 1]) && EdgesSeen(g, d[w := d[v] + 1], done, v, rest)
    ensures PredsSeen(g, d[w := d[v] + 1], done, v, rest, p)
  {
    hide Walks;
    WalkExtends(g, s, d[v], v, w);
    var d' := d[w := d[v] + 1];
    forall x, u ensures PredExact(g, d', done, v, rest, p, x, u) {
      assert PredExact(g, d, done, v, rest, p, x, u);
    }
  }

  /** An edge one step further is recorded and adds its paths. */
  lemma Record(g: Graph, s: Node, done: seq<Node>, queue: seq<Node>, d: Dist, sigma: Counts, p: Preds,
               v: Node, rest: set<Node>, w: Node)
    requires Searching(g, s, done, queue, d, sigma, p, v, rest)
    requires done != [] && done[|done| - 1] == v && w in rest && Edge(g, v, w)
    requires v in d && w in d && d[w] == d[v] + 1
    ensures Searching(g, s, done, queue, d, sigma[w := CountOf(sigma, w) + CountOf(sigma, v)],
                      p[w := PredsOf(p, w) + [v]], v, rest - {w})
  {
    LastBounds(g, s, done, queue, d, sigma, p, v, rest);
    RecordPreds(g, d, done, v, rest, p, w);
    forall x ensures w !in PredsOf(p, x) {
      assert PredExact(g, d, done, v, rest, p, x, w);
    }
    RecordCounts(s, p, sigma, v, w);
  }

  lemma RecordPreds(g: Graph, d: Dist, done: seq<Node>, v: Node, rest: set<Node>, p: Preds, w: Node)
    requires PredsSeen(g, d, done, v, rest, p) && v in done && w in rest && Edge(g, v, w)
    requires v in d && w in d && d[w] == d[v] + 1
    ensures PredsSeen(g, d, done, v, rest - {w}, p[w := PredsOf(p, w) + [v]]) && v !in PredsOf(p, w)
  {
    var q := p[w := PredsOf(p, w) + [v]];
    assert PredExact(g, d, done, v, rest, p, w, v);
    forall x ensures NoDup(PredsOf(q, x)) { assert NoDup(PredsOf(p, x)); }
    forall x, u ensures PredExact(g, d, done, v, rest - {w}, q, x, u) {
      assert PredExact(g, d, done, v, rest, p, x, u);
    }
  }

  lemma RecordCounts(s: Node, p: Preds, sigma: Counts, v: Node, w: Node)
    requires CountsAdd(s, p, sigma) && v != w && v !in PredsOf(p, w) && forall x :: w !in PredsOf(p, x)
    ensures CountsAdd(s, p[w := PredsOf(p, w) + [v]], sigma[w := CountOf(sigma, w) + CountOf(sigma, v)])
  {
    hide Sum;
    var p', sigma' := p[w := PredsOf(p, w) + [v]], sigma[w := CountOf(sigma, w) + CountOf(sigma, v)];
    forall x
      ensures CountOf(sigma', x) == Is(x, s) + Sum(Members(PredsOf(p', x)), u => CountOf(sigma', u))
    {
      var us := Members(PredsOf(p, x));
      SumSame(us, u => CountOf(sigma, u), u => CountOf(sigma', u));
      if x == w {
        assert Members(PredsOf(p', x)) == us + {v};
        SumAdd(us, u => CountOf(sigma', u), v);
      }
    }
  }

  /** An edge that does not go one step further changes nothing. */
  lemma Skip(g: Graph, s: Node, done: seq<Node>, queue: seq<Node>, d: Dist, sigma: Counts, p: Preds,
             v: Node, rest: set<Node>, w: Node)
    requires Searching(g, s, done, queue, d, sigma, p, v, rest)
    requires done != [] && done[|done| - 1] == v && w in d && v in d && d[w] != d[v] + 1
    ensures Searching(g, s, done, queue, d, sigma, p, v, rest - {w})
  {
    hide CountsAdd;
    LastBounds(g, s, done, queue, d, sigma, p, v, rest);
    forall x, u
      ensures Scanned(done, v, rest - {w}, u, x) <==> Scanned(done, v, rest, u, x) || (v in done && x == w && u == v)
      ensures PredExact(g, d, done, v, rest - {w}, p, x, u)
    {
      assert PredExact(g, d, done, v, rest, p, x, u);
    }
  }

  lemma SearchStart(g: Graph, s: Node)
    requires s in g.nodes
    ensures Searching(g, s, [], [s], map[s := 0], map[s := 1.0], map[], s, {})
  {
    assert [] + [s] == [s];
    forall w ensures CountOf(map[s := 1.0], w) == Is(w, s) + Sum(Members(PredsOf(map[], w)), u => CountOf(map[s := 1.0], u)) {
      assert Members([]) == {};
    }
  }

  // -------------------------------------------------------------- the searches

  method ScanEdges(g: Graph, ghost s: Node, ghost done: seq<Node>, queue0: seq<Node>, d0: Dist, sigma0: Counts,
                   p0: Preds, v: Node)
    returns (queue: seq<Node>, d: Dist, sigma: Counts, p: Preds)
    requires Searching(g, s, done, queue0, d0, sigma0, p0, v, Succ(g, v))
    requires done != [] && done[|done| - 1] == v && v in d0 && v in g.nodes
    ensures Searching(g, s, done, queue, d, sigma, p, v, {})
  {
    hide Searching, CountOf, PredsOf, Succ;
    queue, d, sigma, p := queue0, d0, sigma0, p0;
    var rest := Succ(g, v);
    while rest != {}
      invariant Searching(g, s, done, queue, d, sigma, p, v, rest) && rest <= Succ(g, v) && v in d
      decreases rest
    {
      var w := Pick(rest);
      if w !in d {
        Discover(g, s, done, queue, d, sigma, p, v, rest, w);
        queue, d := queue + [w], d[w := d[v] + 1];
      }
      if d[w] == d[v] + 1 {
        Record(g, s, done, queue, d, sigma, p, v, rest, w);
        sigma, p := sigma[w := CountOf(sigma, w) + CountOf(sigma, v)], p[w := PredsOf(p, w) + [v]];
      } else {
        Skip(g, s, done, queue, d, sigma, p, v, rest, w);
      }
      rest := rest - {w};
    }
  }

  lemma DoneInside(g: Graph, s: Node, done: seq<Node>, queue: seq<Node>, d: Dist, sigma: Counts, p: Preds, v: Node)
    requires Searching(g, s, done, queue, d, sigma, p, v, {})
    ensures Members(done + queue) <= g.nodes
  {
    hide CountsAdd, PredsSeen, EdgesSeen, QueueNear;
  }

  /** Breadth-first search from `s`: distances, path counts and predecessors are exact. */
  method Search(g: Graph, s: Node) returns (order: seq<Node>, d: Dist, sigma: Counts, p: Preds)
    requires s in g.nodes
    ensures SearchResult(g, s, order, d, sigma, p)
  {
    hide Searching, Succ;
    order, sigma, d, p := [], map[s := 1.0], map[s := 0], map[];
    var queue := [s];
    ghost var v0 := s;
    SearchStart(g, s);
    DoneInside(g, s, order, queue, d, sigma, p, v0);
    while queue != []
      invariant Searching(g, s, order, queue, d, sigma, p, v0, {})
      invariant Members(order + queue) <= g.nodes
      decreases g.nodes - Members(order)
    {
      var v := queue[0];
      TakeNext(g, s, order, queue, d, sigma, p, v0);
      assert v in Members(order + queue);
      ghost var before := order;
      order, queue := order + [v], queue[1..];
      queue, d, sigma, p := ScanEdges(g, s, order, queue, d, sigma, p, v);
      v0 := v;
      DoneInside(g, s, order, queue, d, sigma, p, v0);
      assert v in Members(order) && v !in Members(before) && Members(before) <= Members(order);
    }
    SearchDone(g, s, order, d, sigma, p, v0);
  }

  // --------------------------------------------------------- back-accumulation

  /** Each node has been given what its onward neighbours among `popped` pass back. */
  ghost predicate Gathered(g: Graph, s: Node, d: Dist, popped: set<Node>, delta: Counts) {
    forall v :: v in d ==> CountOf(delta, v) == Sum(DagSucc(g, d, v) * popped, w => PassedBack(g, s, d, v, w))
  }

  /** As `Gathered`, and the nodes of `given` have had what `w` passes back as well. */
  ghost predicate Giving(g: Graph, s: Node, d: Dist, popped: set<Node>, w: Node, given: seq<Node>, delta: Counts) {
    forall v :: v in d ==>
      CountOf(delta, v) == Sum(DagSucc(g, d, v) * popped, x => PassedBack(g, s, d, v, x)) +
                           if v in given then PassedBack(g, s, d, v, w) else 0.0
  }

  lemma GaveAll(g: Graph, s: Node, d: Dist, popped: set<Node>, w: Node, given: seq<Node>, delta: Counts)
    requires Giving(g, s, d, popped, w, given, delta) && w in d && w !in popped && Members(given) == DagPred(g, d, w)
    ensures Gathered(g, s, d, popped + {w}, delta)
  {
    hide Sum, PassedBack, CountOf;
    forall v | v in d
      ensures CountOf(delta, v) == Sum(DagSucc(g, d, v) * (popped + {w}), x => PassedBack(g, s, d, v, x))
    {
      var ws := DagSucc(g, d, v);
      assert v in given <==> v in Members(given);
      if w in ws {
        assert ws * (popped + {w}) == ws * popped + {w};
        SumAdd(ws * popped, x => PassedBack(g, s, d, v, x), w);
      } else {
        assert ws * (popped + {w}) == ws * popped;
      }
    }
  }

  /** What is still on the stack lies no further than its top, so the onward neighbours of the top were popped. */
  lemma TopComplete(g: Graph, s: Node, d: Dist, order: seq<Node>, n: nat, delta: Counts)
    requires IsDist(g, s, d) && Ordered(d, order) && 0 < n <= |order|
    requires Gathered(g, s, d, d.Keys - Members(order[..n]), delta)
    ensures CountOf(delta, order[n - 1]) == DependencyOn(g, s, d, order[n - 1])
  {
    hide Sum, PassedBack, CountOf, IsDist, DependencyOn;
    var w := order[n - 1];
    assert w in d;
    forall x | x in DagSucc(g, d, w) ensures x !in order[..n] {}
    assert DagSucc(g, d, w) * (d.Keys - Members(order[..n])) == DagSucc(g, d, w);
    DependencyRec(g, s, d, w);
  }

  method GiveBack(ghost g: Graph, ghost s: Node, ghost d: Dist, sigma: Counts, vs: seq<Node>, w: Node, delta0: Counts,
                  ghost popped: set<Node>)
    returns (delta: Counts)
    requires IsDist(g, s, d) && (forall x :: x in d ==> CountOf(sigma, x) == Sigma(g, s, d, x))
    requires NoDup(vs) && Members(vs) == DagPred(g, d, w) && w in d && w !in popped
    requires Gathered(g, s, d, popped, delta0) && CountOf(delta0, w) == DependencyOn(g, s, d, w)
    ensures Gathered(g, s, d, popped + {w}, delta) && CountOf(delta, w) == CountOf(delta0, w)
  {
    hide Sum, DependencyOn, Sigma, IsDist;
    delta := delta0;
    var i := 0;
    while i < |vs|
      invariant 0 <= i <= |vs| && Giving(g, s, d, popped, w, vs[..i], delta)
      invariant CountOf(delta, w) == CountOf(delta0, w)
    {
      var v := vs[i];
      assert v in Members(vs);
      SigmaPositive(g, s, d, w);
      if CountOf(sigma, w) > 0.0 {
        delta := delta[v := CountOf(delta, v) + CountOf(sigma, v) / CountOf(sigma, w) * (1.0 + CountOf(delta, w))];
      }
      assert vs[..i + 1] == vs[..i] + [v];
      i := i + 1;
    }
    assert vs[..i] == vs;
    GaveAll(g, s, d, popped, w, vs, delta);
  }

  /** What source `s` adds to the tally of `w`. */
  ghost function Contribution(g: Graph, s: Node, d: Dist, w: Node): (r: real) {
    if w in d && w != s then DependencyOn(g, s, d, w) else 0.0
  }

  /** The nodes no longer on the stack have added their contribution. */
  ghost predicate TalliedOff(g: Graph, s: Node, d: Dist, stack: seq<Node>, tally0: Counts, tally: Counts) {
    forall w :: CountOf(tally, w) == CountOf(tally0, w) + if w in stack then 0.0 else Contribution(g, s, d, w)
  }

  lemma TallyTop(g: Graph, s: Node, d: Dist, stack: seq<Node>, w: Node, tally0: Counts, tally: Counts)
    requires TalliedOff(g, s, d, stack + [w], tally0, tally) && w !in stack && w in d
    ensures TalliedOff(g, s, d, stack, tally0,
                       if w == s then tally else tally[w := CountOf(tally, w) + DependencyOn(g, s, d, w)])
  {
    hide DependencyOn;
  }

  /** Popping the top of what is left of `order`. */
  lemma PopTop(d: Dist, order: seq<Node>, n: nat)
    requires Ordered(d, order) && 0 < n <= |order|
    ensures var w := order[n - 1];
            && w in d && w !in order[..n - 1] && order[..n] == order[..n - 1] + [w]
            && d.Keys - Members(order[..n]) + {w} == d.Keys - Members(order[..n - 1])
            && w !in d.Keys - Members(order[..n])
  {
    var w := order[n - 1];
    assert order[..n] == order[..n - 1] + [w];
    assert w in order;
  }

  method Accumulate(ghost g: Graph, s: Node, order: seq<Node>, ghost d: Dist, sigma: Counts, p: Preds, tally0: Counts)
    returns (tally: Counts)
    requires SearchResult(g, s, order, d, sigma, p)
    ensures forall w :: CountOf(tally, w) == CountOf(tally0, w) + Contribution(g, s, d, w)
  {
    hide DependencyOn, Sigma, IsDist, Gathered, DagPred, TalliedOff, Ordered, CountOf, Members, Contribution;
    var stack := order;
    var delta: Counts := map[];
    tally := tally0;
    assert order[..|order|] == order;
    GatheredStart(g, s, d, order);
    TallyStart(g, s, d, order, tally0);
    while stack != []
      invariant |stack| <= |order| && stack == order[..|stack|]
      invariant Gathered(g, s, d, d.Keys - Members(stack), delta)
      invariant TalliedOff(g, s, d, stack, tally0, tally)
      decreases |stack|
    {
      var n := |stack|;
      TopComplete(g, s, d, order, n, delta);
      PopTop(d, order, n);
      var w := stack[n - 1];
      ghost var popped := d.Keys - Members(stack);
      stack := stack[..n - 1];
      assert stack == order[..n - 1];
      delta := GiveBack(g, s, d, sigma, PredsOf(p, w), w, delta, popped);
      TallyTop(g, s, d, stack, w, tally0, tally);
      if w != s { tally := tally[w := CountOf(tally, w) + CountOf(delta, w)]; }
    }
    TallyEnd(g, s, d, tally0, tally);
  }

  lemma TallyStart(g: Graph, s: Node, d: Dist, order: seq<Node>, tally: Counts)
    requires Ordered(d, order)
    ensures TalliedOff(g, s, d, order, tally, tally)
  {
    hide DependencyOn;
  }

  lemma TallyEnd(g: Graph, s: Node, d: Dist, tally0: Counts, tally: Counts)
    requires TalliedOff(g, s, d, [], tally0, tally)
    ensures forall w :: CountOf(tally, w) == CountOf(tally0, w) + Contribution(g, s, d, w)
  {
    hide DependencyOn;
  }

  lemma GatheredStart(g: Graph, s: Node, d: Dist, order: seq<Node>)
    requires Ordered(d, order)
    ensures Gathered(g, s, d, d.Keys - Members(order), map[])
  {
    assert d.Keys - Members(order) == {};
    forall v | v in d ensures Sum(DagSucc(g, d, v) * {}, w => PassedBack(g, s, d, v, w)) == 0.0 {
      assert DagSucc(g, d, v) * {} == {};
    }
  }
}
