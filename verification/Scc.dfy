/** Strongly connected components by iterative Kosaraju, for every iteration order. */
module Scc {
  import opened Base
  import opened Graph

  // ------------------------------------------------------------- specification

  /** `c` is a class of mutual reachability. */
  ghost predicate IsScc(g: Graph, c: set<Node>) {
    && c != {} && c <= g.nodes
    && forall u, v :: u in c && v in g.nodes ==> (v in c <==> Mutual(g, u, v))
  }

  ghost predicate Covers(sccs: seq<set<Node>>, n: Node) {
    exists i :: 0 <= i < |sccs| && n in sccs[i]
  }

  ghost predicate Disjoint(sccs: seq<set<Node>>) {
    forall i, j :: 0 <= i < j < |sccs| ==> sccs[i] !! sccs[j]
  }

  ghost predicate HasEdge(g: Graph, from: set<Node>, to: set<Node>) {
    exists u, v :: u in from && v in to && Edge(g, u, v)
  }

  /** `sccs` are all the classes of mutual reachability, listed so that edges never run backwards. */
  ghost predicate IsSccList(g: Graph, sccs: seq<set<Node>>) {
    && (forall n :: n in g.nodes ==> Covers(sccs, n))
    && (forall i :: 0 <= i < |sccs| ==> IsScc(g, sccs[i]))
    && Disjoint(sccs)
    && (forall i, j :: 0 <= i < j < |sccs| ==> !HasEdge(g, sccs[j], sccs[i]))
  }

  // ------------------------------------------------------------ first pass: order

  datatype Item = Item(node: Node, expanded: bool)

  /** The nodes still open: visited, not yet in the order. */
  ghost predicate Open(stack: seq<Item>, n: Node) {
    exists k :: 0 <= k < |stack| && stack[k] == Item(n, true)
  }

  ghost predicate Visited(visited: set<Node>, order: seq<Node>, stack: seq<Item>) {
    && NoDup(order)
    && (forall n :: n in visited <==> n in order || Open(stack, n))
    && (forall n :: n in order ==> !Open(stack, n))
    && (forall i, j :: 0 <= i < j < |stack| && stack[i].expanded && stack[j].expanded ==> stack[i].node != stack[j].node)
  }

  /** Every open node reaches everything above it on the stack. */
  ghost predicate Chain(g: Graph, stack: seq<Item>) {
    && (forall i :: 0 <= i < |stack| ==> stack[i].node in g.nodes)
    && (forall i, j :: 0 <= i < j < |stack| && stack[i].expanded ==> Reach(g, stack[i].node, stack[j].node))
  }

  /** Is `w` visited, or waiting above position `i`? */
  ghost predicate Handled(visited: set<Node>, stack: seq<Item>, i: int, w: Node) {
    w in visited || exists j :: 0 <= j < |stack| && i < j && stack[j] == Item(w, false)
  }

  ghost predicate Pending(g: Graph, visited: set<Node>, order: seq<Node>, stack: seq<Item>) {
    && (forall u, w :: u in order && Edge(g, u, w) ==> w in visited)
    && (forall i, w :: 0 <= i < |stack| && stack[i].expanded && Edge(g, stack[i].node, w) ==> Handled(visited, stack, i, w))
  }

  /** `u` is mutually reachable with an open node. */
  ghost predicate Tied(g: Graph, stack: seq<Item>, u: Node) {
    exists n :: Open(stack, n) && Mutual(g, u, n)
  }

  /** `u` is mutually reachable with a node that was finished at position `b` or later. */
  ghost predicate LateTwin(g: Graph, order: seq<Node>, u: Node, b: nat) {
    exists c :: b <= c < |order| && Mutual(g, u, order[c])
  }

  /** A finished node that reaches an open one is tied to an open one. */
  ghost predicate TiedInv(g: Graph, order: seq<Node>, stack: seq<Item>) {
    forall u, n :: u in order && Open(stack, n) && Reach(g, u, n) ==> Tied(g, stack, u)
  }

  /** A finished node that reaches a finished one has a twin finished no earlier, or one still open. */
  ghost predicate FinishInv(g: Graph, order: seq<Node>, stack: seq<Item>) {
    forall u, b :: u in order && 0 <= b < |order| && Reach(g, u, order[b]) ==>
      LateTwin(g, order, u, b) || Tied(g, stack, u)
  }

  ghost predicate DfsInv(g: Graph, visited: set<Node>, order: seq<Node>, stack: seq<Item>) {
    && visited <= g.nodes
    && Visited(visited, order, stack) && Chain(g, stack) && Pending(g, visited, order, stack)
    && TiedInv(g, order, stack) && FinishInv(g, order, stack)
  }

  // ----------------------------------------------------------- first pass: steps

  lemma OpenSnoc(stack: seq<Item>, it: Item, n: Node)
    ensures Open(stack + [it], n) <==> Open(stack, n) || it == Item(n, true)
  {
    assert (stack + [it])[|stack|] == it;
    assert forall k :: 0 <= k < |stack| ==> (stack + [it])[k] == stack[k];
  }

  /** Dropping an entry that was only waiting and is visited by now. */
  lemma SkipKeeps(g: Graph, visited: set<Node>, order: seq<Node>, stack: seq<Item>, n: Node)
    requires DfsInv(g, visited, order, stack + [Item(n, false)]) && n in visited
    ensures DfsInv(g, visited, order, stack)
  {
    var full := stack + [Item(n, false)];
    forall m ensures Open(full, m) <==> Open(stack, m) { OpenSnoc(stack, Item(n, false), m); }
    assert forall i :: 0 <= i < |stack| ==> full[i] == stack[i];
    forall i, w | 0 <= i < |stack| && stack[i].expanded && Edge(g, stack[i].node, w)
      ensures Handled(visited, stack, i, w)
    {
      assert full[i] == stack[i];
      assert Handled(visited, full, i, w);
    }
    forall u, m | u in order && Open(stack, m) && Reach(g, u, m) ensures Tied(g, stack, u) {
      assert Open(full, m);
      assert Tied(g, full, u);
    }
    forall u, b | u in order && 0 <= b < |order| && Reach(g, u, order[b])
      ensures LateTwin(g, order, u, b) || Tied(g, stack, u)
    {
      assert LateTwin(g, order, u, b) || Tied(g, full, u);
    }
  }

  /** Starting a search from an unvisited node. */
  lemma StartKeeps(g: Graph, visited: set<Node>, order: seq<Node>, start: Node)
    requires DfsInv(g, visited, order, []) && start in g.nodes
    ensures DfsInv(g, visited, order, [Item(start, false)])
  {
    var stack := [Item(start, false)];
    assert forall m :: !Open(stack, m) && !Open([], m);
    forall u, b | u in order && 0 <= b < |order| && Reach(g, u, order[b])
      ensures LateTwin(g, order, u, b) || Tied(g, stack, u)
    {
      assert LateTwin(g, order, u, b) || Tied(g, [], u);
    }
  }

  /** The stack after visiting `n`: its closing entry, then its unvisited successors in some order. */
  ghost predicate Expanded(g: Graph, visited: set<Node>, n: Node, pushed: seq<Item>) {
    && (forall k :: 0 <= k < |pushed| ==> !pushed[k].expanded && Edge(g, n, pushed[k].node))
    && (forall w :: Edge(g, n, w) ==> w in visited || Item(w, false) in pushed)
  }

  lemma VisitOpen(stack: seq<Item>, n: Node, pushed: seq<Item>, m: Node)
    requires forall k :: 0 <= k < |pushed| ==> !pushed[k].expanded
    ensures Open(stack + [Item(n, true)] + pushed, m) <==> Open(stack, m) || m == n
  {
    var full := stack + [Item(n, true)] + pushed;
    assert full[|stack|] == Item(n, true);
    assert forall k :: 0 <= k < |stack| ==> full[k] == stack[k];
    assert forall k :: 0 <= k < |pushed| ==> full[|stack| + 1 + k] == pushed[k];
  }

  lemma VisitChain(g: Graph, stack: seq<Item>, n: Node, pushed: seq<Item>)
    requires Chain(g, stack + [Item(n, false)])
    requires forall k :: 0 <= k < |pushed| ==> !pushed[k].expanded && Edge(g, n, pushed[k].node)
    ensures Chain(g, stack + [Item(n, true)] + pushed)
  {
    var before, full := stack + [Item(n, false)], stack + [Item(n, true)] + pushed;
    assert before[|stack|].node == n;
    forall i, j | 0 <= i < j < |full| && full[i].expanded ensures Reach(g, full[i].node, full[j].node) {
      if i < |stack| { assert full[i] == before[i]; }
      if j <= |stack| {
        assert before[j].node == full[j].node;
      } else {
        assert full[j] == pushed[j - |stack| - 1];
        if i < |stack| { ReachSnoc(g, full[i].node, n, full[j].node); } else { ReachEdge(g, n, full[j].node); }
      }
    }
    forall i | 0 <= i < |full| ensures full[i].node in g.nodes {
      if i <= |stack| { assert before[i].node == full[i].node; } else { assert full[i] == pushed[i - |stack| - 1]; }
    }
  }

  lemma VisitPending(g: Graph, visited: set<Node>, order: seq<Node>, stack: seq<Item>, n: Node, pushed: seq<Item>)
    requires Pending(g, visited, order, stack + [Item(n, false)]) && Expanded(g, visited + {n}, n, pushed)
    ensures Pending(g, visited + {n}, order, stack + [Item(n, true)] + pushed)
  {
    var before, full := stack + [Item(n, false)], stack + [Item(n, true)] + pushed;
    forall i, w | 0 <= i < |full| && full[i].expanded && Edge(g, full[i].node, w)
      ensures Handled(visited + {n}, full, i, w)
    {
      if i < |stack| {
        assert full[i] == before[i];
        assert Handled(visited, before, i, w);
        if w !in visited + {n} {
          var j :| 0 <= j < |before| && i < j && before[j] == Item(w, false);
          assert full[j] == before[j];
        }
      } else if i == |stack| {
        if w !in visited + {n} {
          var k :| 0 <= k < |pushed| && pushed[k] == Item(w, false);
          assert full[|stack| + 1 + k] == pushed[k];
        }
      }
    }
  }

  /** A finished node that reaches an unvisited one passes an open node on the way. */
  lemma ReachUnvisited(g: Graph, visited: set<Node>, order: seq<Node>, stack: seq<Item>, u: Node, n: Node)
    requires Visited(visited, order, stack) && Pending(g, visited, order, stack)
    requires u in order && n !in visited && Reach(g, u, n)
    ensures exists m :: Open(stack, m) && Reach(g, u, m)
  {
    var black := set v | v in order;
    var x, y := Crossing(g, black, u, n);
    assert y in visited && Open(stack, y);
    ReachSnoc(g, u, x, y);
  }

  lemma VisitTied(g: Graph, visited: set<Node>, order: seq<Node>, stack: seq<Item>, n: Node, pushed: seq<Item>)
    requires DfsInv(g, visited, order, stack + [Item(n, false)]) && n !in visited && Expanded(g, visited + {n}, n, pushed)
    ensures var full := stack + [Item(n, true)] + pushed; TiedInv(g, order, full) && FinishInv(g, order, full)
  {
    var before, full := stack + [Item(n, false)], stack + [Item(n, true)] + pushed;
    forall m ensures Open(before, m) ==> Open(full, m) {
      OpenSnoc(stack, Item(n, false), m);
      VisitOpen(stack, n, pushed, m);
    }
    forall u | Tied(g, before, u) ensures Tied(g, full, u) {
      var m :| Open(before, m) && Mutual(g, u, m);
      assert Open(full, m);
    }
    forall u, m | u in order && Open(full, m) && Reach(g, u, m) ensures Tied(g, full, u) {
      OpenSnoc(stack, Item(n, false), m);
      VisitOpen(stack, n, pushed, m);
      if m == n { ReachUnvisited(g, visited, order, before, u, n); }
      assert Tied(g, before, u);
    }
    forall u, b | u in order && 0 <= b < |order| && Reach(g, u, order[b])
      ensures LateTwin(g, order, u, b) || Tied(g, full, u)
    {
      assert LateTwin(g, order, u, b) || Tied(g, before, u);
    }
  }

  lemma VisitVisited(visited: set<Node>, order: seq<Node>, stack: seq<Item>, n: Node, pushed: seq<Item>)
    requires Visited(visited, order, stack + [Item(n, false)]) && n !in visited
    requires forall k :: 0 <= k < |pushed| ==> !pushed[k].expanded
    ensures Visited(visited + {n}, order, stack + [Item(n, true)] + pushed)
  {
    var before, full := stack + [Item(n, false)], stack + [Item(n, true)] + pushed;
    forall m ensures Open(full, m) <==> Open(before, m) || m == n {
      OpenSnoc(stack, Item(n, false), m);
      VisitOpen(stack, n, pushed, m);
    }
    forall i, j | 0 <= i < j < |full| && full[i].expanded && full[j].expanded ensures full[i].node != full[j].node {
      assert full[i] == before[i];
      if j < |stack| { assert full[j] == before[j]; } else { assert Open(before, full[i].node); }
    }
  }

  /** Visiting an unvisited node. */
  lemma VisitKeeps(g: Graph, visited: set<Node>, order: seq<Node>, stack: seq<Item>, n: Node, pushed: seq<Item>)
    requires DfsInv(g, visited, order, stack + [Item(n, false)]) && n !in visited && Expanded(g, visited + {n}, n, pushed)
    ensures DfsInv(g, visited + {n}, order, stack + [Item(n, true)] + pushed)
  {
    assert (stack + [Item(n, false)])[|stack|].node in g.nodes;
    VisitVisited(visited, order, stack, n, pushed);
    VisitChain(g, stack, n, pushed);
    VisitPending(g, visited, order, stack, n, pushed);
    VisitTied(g, visited, order, stack, n, pushed);
  }

  lemma FinishVisited(visited: set<Node>, order: seq<Node>, stack: seq<Item>, n: Node)
    requires Visited(visited, order, stack + [Item(n, true)])
    ensures Visited(visited, order + [n], stack) && n !in order && !Open(stack, n)
  {
    var full := stack + [Item(n, true)];
    forall m ensures Open(full, m) <==> Open(stack, m) || m == n { OpenSnoc(stack, Item(n, true), m); }
    assert Open(full, n);
    forall k | 0 <= k < |stack| ensures stack[k] != Item(n, true) {
      assert full[k] == stack[k] && full[|stack|] == Item(n, true);
    }
    assert forall i :: 0 <= i < |stack| ==> full[i] == stack[i];
  }

  lemma FinishPending(g: Graph, visited: set<Node>, order: seq<Node>, stack: seq<Item>, n: Node)
    requires Pending(g, visited, order, stack + [Item(n, true)])
    ensures Pending(g, visited, order + [n], stack)
  {
    var full := stack + [Item(n, true)];
    assert full[|stack|] == Item(n, true);
    forall u, w | u in order + [n] && Edge(g, u, w) ensures w in visited {
      if u !in order { assert Handled(visited, full, |stack|, w); }
    }
    forall i, w | 0 <= i < |stack| && stack[i].expanded && Edge(g, stack[i].node, w)
      ensures Handled(visited, stack, i, w)
    {
      assert full[i] == stack[i];
      assert Handled(visited, full, i, w);
    }
  }

  /** Every open node reaches the topmost one. */
  lemma OpenReachesTop(g: Graph, stack: seq<Item>, n: Node, m: Node)
    requires Chain(g, stack + [Item(n, true)]) && Open(stack, m)
    ensures Reach(g, m, n)
  {
    var k :| 0 <= k < |stack| && stack[k] == Item(m, true);
    var full := stack + [Item(n, true)];
    assert full[k] == stack[k] && full[|stack|].node == n;
  }

  lemma FinishTied(g: Graph, visited: set<Node>, order: seq<Node>, stack: seq<Item>, n: Node)
    requires DfsInv(g, visited, order, stack + [Item(n, true)])
    ensures TiedInv(g, order + [n], stack)
  {
    var full := stack + [Item(n, true)];
    forall u, m | u in order + [n] && Open(stack, m) && Reach(g, u, m) ensures Tied(g, stack, u) {
      OpenReachesTop(g, stack, n, m);
      if u in order {
        OpenSnoc(stack, Item(n, true), m);
        var k :| Open(full, k) && Mutual(g, u, k);
        OpenSnoc(stack, Item(n, true), k);
        if k == n {
          ReachTrans(g, m, n, u);
          assert Mutual(g, u, m);
        } else {
          assert Open(stack, k);
        }
      } else {
        assert Mutual(g, u, m);
      }
    }
  }

  lemma FinishFinish(g: Graph, visited: set<Node>, order: seq<Node>, stack: seq<Item>, n: Node)
    requires DfsInv(g, visited, order, stack + [Item(n, true)])
    ensures FinishInv(g, order + [n], stack)
  {
    var full, order' := stack + [Item(n, true)], order + [n];
    assert full[|stack|] == Item(n, true);
    assert Open(full, n) && n in g.nodes;
    forall u, b | u in order' && 0 <= b < |order'| && Reach(g, u, order'[b])
      ensures LateTwin(g, order', u, b) || Tied(g, stack, u)
    {
      if u in order {
        assert LateTwin(g, order, u, b) || Tied(g, full, u);
        if Tied(g, full, u) {
          var k :| Open(full, k) && Mutual(g, u, k);
          OpenSnoc(stack, Item(n, true), k);
          if k == n { assert Mutual(g, u, order'[|order|]); } else { assert Open(stack, k); }
        } else {
          var c :| b <= c < |order| && Mutual(g, u, order[c]);
          assert order'[c] == order[c];
        }
      } else {
        ReachRefl(g, n);
        assert Mutual(g, u, order'[|order|]);
      }
    }
  }

  /** Finishing the topmost open node. */
  lemma FinishKeeps(g: Graph, visited: set<Node>, order: seq<Node>, stack: seq<Item>, n: Node)
    requires DfsInv(g, visited, order, stack + [Item(n, true)])
    ensures DfsInv(g, visited, order + [n], stack)
  {
    var full := stack + [Item(n, true)];
    FinishVisited(visited, order, stack, n);
    FinishPending(g, visited, order, stack, n);
    assert Chain(g, stack) by { assert forall i :: 0 <= i < |stack| ==> full[i] == stack[i]; }
    FinishTied(g, visited, order, stack, n);
    FinishFinish(g, visited, order, stack, n);
  }

  /** The finishing order Kosaraju's second pass relies on. */
  ghost predicate FinishOrder(g: Graph, order: seq<Node>) {
    && NoDup(order) && (forall n :: n in order <==> n in g.nodes)
    && forall u, b :: u in order && 0 <= b < |order| && Reach(g, u, order[b]) ==> LateTwin(g, order, u, b)
  }

  lemma OrderComplete(g: Graph, visited: set<Node>, order: seq<Node>)
    requires DfsInv(g, visited, order, []) && g.nodes <= visited
    ensures FinishOrder(g, order)
  {
    assert forall m :: !Open([], m);
    forall u, b | u in order && 0 <= b < |order| && Reach(g, u, order[b]) ensures LateTwin(g, order, u, b) {
      assert LateTwin(g, order, u, b) || Tied(g, [], u);
    }
  }

  /** Push the successors of `n` that are not yet visited, in any order. */
  method PushSuccessors(g: Graph, visited: set<Node>, n: Node) returns (pushed: seq<Item>)
    requires n in g.nodes
    ensures Expanded(g, visited, n, pushed)
  {
    pushed := [];
    var rest := if n in g.adj then g.adj[n] else {};
    while rest != {}
      invariant n in g.adj ==> rest <= g.adj[n]
      invariant n !in g.adj ==> rest == {}
      invariant forall k :: 0 <= k < |pushed| ==> !pushed[k].expanded && Edge(g, n, pushed[k].node)
      invariant forall w :: Edge(g, n, w) ==> w in rest || w in visited || Item(w, false) in pushed
      decreases rest
    {
      var v := Pick(rest);
      rest := rest - {v};
      if v in g.nodes && v !in visited { pushed := pushed + [Item(v, false)]; }
    }
  }

  /** First pass: nodes in the order an iterative depth-first search finishes them. */
  method FinishingOrder(g: Graph) returns (order: seq<Node>)
    ensures FinishOrder(g, order)
  {
    hide DfsInv;
    hide Expanded;
    var visited: set<Node> := {};
    order := [];
    var starts := g.nodes;
    DfsStart(g);
    while starts != {}
      invariant starts <= g.nodes && DfsInv(g, visited, order, [])
      invariant g.nodes <= visited + starts
      decreases starts
    {
      var start := Pick(starts);
      starts := starts - {start};
      if start !in visited {
        var stack := [Item(start, false)];
        StartKeeps(g, visited, order, start);
        ghost var visited0 := visited;
        while stack != []
          invariant DfsInv(g, visited, order, stack) && visited0 <= visited <= g.nodes
          invariant start in visited || Item(start, false) in stack
          decreases g.nodes - visited, |stack|
        {
          var top := stack[|stack| - 1];
          var below := stack[..|stack| - 1];
          assert stack == below + [top];
          if top.expanded {
            FinishKeeps(g, visited, order, below, top.node);
            order := order + [top.node];
            stack := below;
          } else if top.node in visited {
            SkipKeeps(g, visited, order, below, top.node);
            stack := below;
          } else {
            TopInGraph(g, visited, order, stack);
            var pushed := PushSuccessors(g, visited + {top.node}, top.node);
            VisitKeeps(g, visited, order, below, top.node, pushed);
            visited := visited + {top.node};
            stack := below + [Item(top.node, true)] + pushed;
          }
        }
      }
    }
    OrderComplete(g, visited, order);
  }

  lemma DfsStart(g: Graph)
    ensures DfsInv(g, {}, [], [])
  {
    assert forall m :: !Open([], m);
  }

  lemma TopInGraph(g: Graph, visited: set<Node>, order: seq<Node>, stack: seq<Item>)
    requires DfsInv(g, visited, order, stack) && stack != []
    ensures stack[|stack| - 1].node in g.nodes
  {
  }

  // ----------------------------------------------------------- second pass: classes

  /** The reversed adjacency the second pass walks. */
  method Reverse(g: Graph) returns (r: Graph)
    ensures IsReverse(g, r) && r.adj.Keys == g.nodes
  {
    var radj: map<Node, set<Node>> := map n | n in g.nodes :: {};
    var us := g.nodes;
    while us != {}
      invariant us <= g.nodes && radj.Keys == g.nodes
      invariant forall v, u :: v in radj ==> (u in radj[v] <==> u in g.nodes - us && Edge(g, u, v))
      decreases us
    {
      var u := Pick(us);
      ghost var radj0, us0 := radj, us;
      us := us - {u};
      var vs := Succ(g, u);
      while vs != {}
        invariant vs <= Succ(g, u) && radj.Keys == g.nodes
        invariant forall v :: v in radj ==> radj[v] == if v in Succ(g, u) - vs then radj0[v] + {u} else radj0[v]
        decreases vs
      {
        var v := Pick(vs);
        vs := vs - {v};
        radj := radj[v := radj[v] + {u}];
      }
      forall v, w | v in radj ensures w in radj[v] <==> w in g.nodes - us && Edge(g, w, v) {
        assert w in radj0[v] <==> w in g.nodes - us0 && Edge(g, w, v);
        assert w in radj[v] <==> w in radj0[v] || (w == u && v in Succ(g, u));
      }
    }
    r := Graph(g.nodes, radj);
  }

  ghost predicate Union(sccs: seq<set<Node>>, all: set<Node>) {
    forall n :: n in all <==> Covers(sccs, n)
  }

  /** The classes found so far are those of the nodes finished last, with no edge into them from outside. */
  ghost predicate SweepInv(g: Graph, order: seq<Node>, i: nat, visited: set<Node>, sccs: seq<set<Node>>) {
    && i <= |order| && visited <= g.nodes && Union(sccs, visited)
    && (forall j :: i <= j < |order| ==> order[j] in visited)
    && ListedSoFar(g, sccs)
    && PredClosed(g, visited)
  }

  ghost predicate PredClosed(g: Graph, visited: set<Node>) {
    forall u, v :: v in visited && Edge(g, u, v) ==> u in visited
  }

  /** The search from `start` against the edges: everything found reaches `start`. */
  ghost predicate CompInv(g: Graph, visited0: set<Node>, start: Node, visited: set<Node>, comp: set<Node>, stack: seq<Node>) {
    && visited0 <= visited <= g.nodes && start in visited
    && (forall n :: n in visited <==> n in visited0 || n in comp || n in stack)
    && (forall n :: n in comp || n in stack ==> n !in visited0 && ReachOutside(g, visited0, n, start) && Reach(g, n, start))
    && (forall u, v :: v in comp && Edge(g, u, v) ==> u in visited)
  }

  /** A path from `n` to `m` that meets no node of `avoid`. */
  ghost predicate ReachOutside(g: Graph, avoid: set<Node>, n: Node, m: Node) {
    exists p: seq<Node> :: PathFrom(g, n, m, p) && forall i :: 0 <= i < |p| ==> p[i] !in avoid
  }

  lemma OutsideCons(g: Graph, avoid: set<Node>, u: Node, n: Node, m: Node)
    requires Edge(g, u, n) && u !in avoid && ReachOutside(g, avoid, n, m)
    ensures ReachOutside(g, avoid, u, m) && Reach(g, u, m)
  {
    var p: seq<Node> :| PathFrom(g, n, m, p) && forall i :: 0 <= i < |p| ==> p[i] !in avoid;
    var q := [u] + p;
    forall i | 0 <= i < |q| - 1 ensures Edge(g, q[i], q[i + 1]) {
      if i > 0 { assert Edge(g, p[i - 1], p[i]); }
    }
    assert PathFrom(g, u, m, q);
  }

  /** The finished search found everything with such a path. */
  lemma {:induction false} OutsideFound(g: Graph, visited0: set<Node>, start: Node, visited: set<Node>, comp: set<Node>,
                                        n: Node, p: seq<Node>)
    requires CompInv(g, visited0, start, visited, comp, []) && start !in visited0
    requires PathFrom(g, n, start, p) && forall i :: 0 <= i < |p| ==> p[i] !in visited0
    ensures n in comp
    decreases |p|
  {
    hide Reach, ReachOutside;
    if |p| > 1 {
      assert Edge(g, p[0], p[1]);
      PathNodes(g, p, 1);
      assert PathFrom(g, p[1], start, p[1..]);
      OutsideFound(g, visited0, start, visited, comp, p[1], p[1..]);
    }
  }

  /** The unvisited nodes that reach the last-finished unvisited node are its class. */
  lemma CompIsScc(g: Graph, order: seq<Node>, i: nat, visited0: set<Node>, sccs: seq<set<Node>>,
                  visited: set<Node>, comp: set<Node>)
    requires FinishOrder(g, order) && i < |order| && SweepInv(g, order, i + 1, visited0, sccs)
    requires order[i] !in visited0 && CompInv(g, visited0, order[i], visited, comp, [])
    ensures forall v :: v in g.nodes ==> (v in comp <==> Mutual(g, order[i], v))
  {
    var start := order[i];
    forall v | v in g.nodes ensures v in comp <==> Mutual(g, start, v) {
      if v in comp { InCompMutual(g, order, i, visited0, sccs, v); }
      if Mutual(g, start, v) { MutualInComp(g, visited0, sccs, start, visited, comp, v); }
    }
  }

  lemma InCompMutual(g: Graph, order: seq<Node>, i: nat, visited0: set<Node>, sccs: seq<set<Node>>, v: Node)
    requires FinishOrder(g, order) && i < |order| && SweepInv(g, order, i + 1, visited0, sccs)
    requires v in g.nodes && v !in visited0 && Reach(g, v, order[i])
    ensures Mutual(g, order[i], v)
  {
    hide Reach, IsScc, HasEdge, Disjoint, Edge, Union;
    assert LateTwin(g, order, v, i);
    var c :| i <= c < |order| && Mutual(g, v, order[c]);
    if c > i {
      ClassClosed(g, visited0, sccs, order[c], v);
      assert false;
    }
  }

  /** The visited nodes are whole classes. */
  lemma ClassClosed(g: Graph, visited: set<Node>, sccs: seq<set<Node>>, u: Node, v: Node)
    requires Union(sccs, visited) && (forall k :: 0 <= k < |sccs| ==> IsScc(g, sccs[k]))
    requires u in visited && Mutual(g, u, v)
    ensures v in visited
  {
    var k :| 0 <= k < |sccs| && u in sccs[k];
    ReachNodes(g, u, v);
    assert IsScc(g, sccs[k]);
    assert v in sccs[k];
  }

  lemma MutualInComp(g: Graph, visited0: set<Node>, sccs: seq<set<Node>>, start: Node,
                     visited: set<Node>, comp: set<Node>, v: Node)
    requires Union(sccs, visited0) && (forall k :: 0 <= k < |sccs| ==> IsScc(g, sccs[k]))
    requires start !in visited0 && CompInv(g, visited0, start, visited, comp, [])
    requires Mutual(g, start, v)
    ensures v in comp
  {
    if v in visited0 {
      ClassClosed(g, visited0, sccs, v, start);
      assert false;
    } else if v !in visited {
      ReachNodes(g, start, v);
      var x, y := Crossing(g, g.nodes - visited, v, start);
      ReachNodes(g, y, start);
      if y in visited0 {
        ReachSnoc(g, v, x, y);
        ReachTrans(g, start, v, y);
        ClassClosed(g, visited0, sccs, y, start);
        assert false;
      }
    }
  }

  /** Walk back from `start` over unvisited nodes. */
  method CollectComponent(g: Graph, r: Graph, visited0: set<Node>, start: Node)
    returns (comp: set<Node>, visited: set<Node>)
    requires IsReverse(g, r) && visited0 <= g.nodes && start in g.nodes - visited0
    ensures CompInv(g, visited0, start, visited, comp, [])
    ensures forall n :: n in comp <==> ReachOutside(g, visited0, n, start)
  {
    hide Reach, ReachOutside;
    comp := {};
    var stack := [start];
    visited := visited0 + {start};
    assert ReachOutside(g, visited0, start, start) && Reach(g, start, start) by { OutsideSelf(g, visited0, start); }
    while stack != []
      invariant CompInv(g, visited0, start, visited, comp, stack)
      decreases g.nodes - visited, |stack|
    {
      var n := stack[|stack| - 1];
      var below := stack[..|stack| - 1];
      assert stack == below + [n];
      stack := below;
      comp := comp + {n};
      var vs := Succ(r, n);
      ghost var seen := visited;
      while vs != {}
        invariant vs <= Succ(r, n) && seen <= visited <= g.nodes && visited0 <= visited && start in visited
        invariant forall m :: m in visited <==> m in visited0 || m in comp || m in stack
        invariant forall m :: m in comp || m in stack ==>
                    m !in visited0 && ReachOutside(g, visited0, m, start) && Reach(g, m, start)
        invariant forall u, v :: v in comp && v != n && Edge(g, u, v) ==> u in visited
        invariant forall u :: u in Succ(r, n) - vs ==> u in visited
        invariant visited == seen ==> stack == below
        decreases vs
      {
        var v := Pick(vs);
        vs := vs - {v};
        if v !in visited {
          assert Edge(r, n, v);
          OutsideCons(g, visited0, v, n, start);
          visited := visited + {v};
          stack := stack + [v];
        }
      }
      forall u, v | v in comp && Edge(g, u, v) ensures u in visited {
        if v == n { assert Edge(r, n, u); }
      }
    }
    AllFound(g, visited0, start, visited, comp);
  }

  lemma OutsideSelf(g: Graph, avoid: set<Node>, n: Node)
    requires n in g.nodes && n !in avoid
    ensures ReachOutside(g, avoid, n, n) && Reach(g, n, n)
  {
    assert PathFrom(g, n, n, [n]);
  }

  lemma AllFound(g: Graph, visited0: set<Node>, start: Node, visited: set<Node>, comp: set<Node>)
    requires CompInv(g, visited0, start, visited, comp, []) && start !in visited0
    ensures forall n :: n in comp <==> ReachOutside(g, visited0, n, start)
  {
    hide CompInv;
    forall n ensures n in comp <==> ReachOutside(g, visited0, n, start) {
      if n in comp { assert ReachOutside(g, visited0, n, start) by { FoundReaches(g, visited0, start, visited, comp, n); } }
      if ReachOutside(g, visited0, n, start) {
        var p: seq<Node> :| PathFrom(g, n, start, p) && forall i :: 0 <= i < |p| ==> p[i] !in visited0;
        OutsideFound(g, visited0, start, visited, comp, n, p);
      }
    }
  }

  lemma FoundReaches(g: Graph, visited0: set<Node>, start: Node, visited: set<Node>, comp: set<Node>, n: Node)
    requires CompInv(g, visited0, start, visited, comp, []) && n in comp
    ensures ReachOutside(g, visited0, n, start)
  {
    hide ReachOutside, Reach;
  }

  lemma ClassIsScc(g: Graph, start: Node, comp: set<Node>)
    requires start in g.nodes && comp <= g.nodes && forall v :: v in g.nodes ==> (v in comp <==> Mutual(g, start, v))
    ensures IsScc(g, comp)
  {
    hide Reach;
    forall u, v | u in comp && v in g.nodes ensures v in comp <==> Mutual(g, u, v) {
      if v in comp { MutualTrans(g, u, start, v); }
      if Mutual(g, u, v) { MutualTrans(g, start, u, v); }
    }
    ReachRefl(g, start);
  }

  lemma UnionSnoc(sccs: seq<set<Node>>, comp: set<Node>, visited0: set<Node>, visited: set<Node>)
    requires Union(sccs, visited0) && visited == visited0 + comp
    ensures Union(sccs + [comp], visited)
  {
    var sccs' := sccs + [comp];
    forall n ensures n in visited <==> Covers(sccs', n) {
      assert sccs'[|sccs|] == comp;
      assert forall k :: 0 <= k < |sccs| ==> sccs'[k] == sccs[k];
      assert Covers(sccs', n) <==> Covers(sccs, n) || n in comp;
    }
  }

  /** A new component neither meets the visited ones nor leads to them. */
  lemma CompApart(g: Graph, sccs: seq<set<Node>>, visited0: set<Node>, comp: set<Node>, a: nat)
    requires Union(sccs, visited0) && a < |sccs| && comp !! visited0
    requires PredClosed(g, visited0)
    ensures sccs[a] !! comp && !HasEdge(g, comp, sccs[a])
  {
    forall n | n in sccs[a] ensures n in visited0 && n !in comp { assert Covers(sccs, n); }
  }

  lemma CompFacts(g: Graph, visited0: set<Node>, start: Node, visited: set<Node>, comp: set<Node>)
    requires CompInv(g, visited0, start, visited, comp, []) && start !in visited0
    requires PredClosed(g, visited0)
    ensures visited == visited0 + comp && comp !! visited0 && visited <= g.nodes && start in comp
    ensures PredClosed(g, visited)
  {
    hide Reach, ReachOutside, Edge;
  }

  /** The list of components after a new one that leads to none of them. */
  ghost predicate ListedSoFar(g: Graph, sccs: seq<set<Node>>) {
    && (forall k :: 0 <= k < |sccs| ==> IsScc(g, sccs[k]))
    && Disjoint(sccs)
    && (forall a, b :: 0 <= a < b < |sccs| ==> !HasEdge(g, sccs[b], sccs[a]))
  }

  lemma ListedSnoc(g: Graph, sccs: seq<set<Node>>, visited0: set<Node>, comp: set<Node>)
    requires ListedSoFar(g, sccs) && IsScc(g, comp)
    requires Union(sccs, visited0) && comp !! visited0 && PredClosed(g, visited0)
    ensures ListedSoFar(g, sccs + [comp])
  {
    hide IsScc, HasEdge, Union, PredClosed;
    forall a | 0 <= a < |sccs| ensures sccs[a] !! comp && !HasEdge(g, comp, sccs[a]) {
      CompApart(g, sccs, visited0, comp, a);
    }
    var sccs' := sccs + [comp];
    forall a, b | 0 <= a < b < |sccs'| ensures sccs'[a] !! sccs'[b] && !HasEdge(g, sccs'[b], sccs'[a]) {
      assert sccs'[a] == sccs[a];
      if b < |sccs| { assert sccs'[b] == sccs[b]; }
    }
  }

  lemma SweepStep(g: Graph, order: seq<Node>, i: nat, visited0: set<Node>, sccs: seq<set<Node>>,
                  visited: set<Node>, comp: set<Node>)
    requires FinishOrder(g, order) && i < |order| && SweepInv(g, order, i + 1, visited0, sccs)
    requires order[i] !in visited0 && CompInv(g, visited0, order[i], visited, comp, [])
    ensures SweepInv(g, order, i, visited, sccs + [comp])
  {
    hide CompInv, Reach, IsScc, Union, Edge, Mutual, ListedSoFar, PredClosed;
    CompIsScc(g, order, i, visited0, sccs, visited, comp);
    CompFacts(g, visited0, order[i], visited, comp);
    hide FinishOrder;
    ClassIsScc(g, order[i], comp);
    UnionSnoc(sccs, comp, visited0, visited);
    ListedSnoc(g, sccs, visited0, comp);
  }

  /** compute_sccs_iterative */
  method ComputeSccs(g: Graph) returns (sccs: seq<set<Node>>)
    ensures IsSccList(g, sccs)
  {
    hide FinishOrder;
    hide CompInv;
    hide SweepInv;
    hide IsReverse;
    var r := Reverse(g);
    var order := FinishingOrder(g);
    var visited: set<Node> := {};
    sccs := [];
    var i := |order|;
    SweepStart(g, order);
    while i > 0
      invariant 0 <= i <= |order| && SweepInv(g, order, i, visited, sccs)
      decreases i
    {
      i := i - 1;
      var start := order[i];
      SweepBounds(g, order, i + 1, visited, sccs);
      if start !in visited {
        ghost var visited0 := visited;
        var comp;
        comp, visited := CollectComponent(g, r, visited, start);
        SweepStep(g, order, i, visited0, sccs, visited, comp);
        sccs := sccs + [comp];
      } else {
        SweepSkip(g, order, i, visited, sccs);
      }
    }
    SweepEnd(g, order, visited, sccs);
  }

  lemma SweepStart(g: Graph, order: seq<Node>)
    ensures SweepInv(g, order, |order|, {}, [])
  {
  }

  lemma SweepBounds(g: Graph, order: seq<Node>, i: nat, visited: set<Node>, sccs: seq<set<Node>>)
    requires SweepInv(g, order, i, visited, sccs) && FinishOrder(g, order)
    ensures visited <= g.nodes && forall j :: 0 <= j < |order| ==> order[j] in g.nodes
  {
    forall j | 0 <= j < |order| ensures order[j] in g.nodes { assert order[j] in order; }
  }

  lemma SweepSkip(g: Graph, order: seq<Node>, i: nat, visited: set<Node>, sccs: seq<set<Node>>)
    requires i < |order| && SweepInv(g, order, i + 1, visited, sccs) && order[i] in visited
    ensures SweepInv(g, order, i, visited, sccs)
  {
  }

  lemma SweepEnd(g: Graph, order: seq<Node>, visited: set<Node>, sccs: seq<set<Node>>)
    requires FinishOrder(g, order) && SweepInv(g, order, 0, visited, sccs)
    ensures IsSccList(g, sccs)
  {
    forall n | n in g.nodes ensures Covers(sccs, n) {
      assert n in order;
      assert n in visited;
    }
  }
}
