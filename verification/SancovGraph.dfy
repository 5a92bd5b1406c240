/** The graph of coverage sites: regions joined by the control-flow edges that cross between them. */
module SancovGraph {
  import opened Base
  import opened Graph
  import opened Adjacency
  import opened ShortestPaths
  import opened Voronoi

  predicate InRange(n: nat, site: Node) { 0 <= site.id < n }

  /** The arc leaves the region of `a` for the region of `b`. */
  ghost predicate Crosses(owner: Owners, n: nat, e: Arc, a: Node, b: Node) {
    && e.from in owner && e.to in owner && owner[e.from] == a && owner[e.to] == b
    && a != b && InRange(n, a) && InRange(n, b)
  }

  ghost predicate Linked(owner: Owners, n: nat, arcs: set<Arc>, a: Node, b: Node) {
    exists e :: e in arcs && Crosses(owner, n, e, a, b)
  }

  ghost predicate IsQuotient(owner: Owners, n: nat, arcs: set<Arc>, successors: seq<set<Node>>, predecessors: seq<set<Node>>) {
    && |successors| == |predecessors| == n
    && (forall a, b :: InRange(n, a) && b in successors[a.id] <==> Linked(owner, n, arcs, a, b))
    && (forall a, b :: InRange(n, b) && a in predecessors[b.id] <==> Linked(owner, n, arcs, a, b))
  }

  // --------------------------------------------------------------- the method

  lemma LinkedMore(owner: Owners, n: nat, arcs: set<Arc>, e: Arc, a: Node, b: Node)
    ensures Linked(owner, n, arcs + {e}, a, b) <==> Linked(owner, n, arcs, a, b) || Crosses(owner, n, e, a, b)
  {
    hide Crosses;
    if Linked(owner, n, arcs, a, b) {
      var x :| x in arcs && Crosses(owner, n, x, a, b);
      assert x in arcs + {e};
    }
    assert e in arcs + {e};
  }

  /** An arc that crosses regions is entered on both sides. */
  lemma EnterArc(owner: Owners, n: nat, arcs: set<Arc>, s: seq<set<Node>>, p: seq<set<Node>>, e: Arc, a: Node, b: Node)
    requires IsQuotient(owner, n, arcs, s, p) && Crosses(owner, n, e, a, b)
    ensures IsQuotient(owner, n, arcs + {e}, s[a.id := s[a.id] + {b}], p[b.id := p[b.id] + {a}])
  {
    hide Linked;
    forall x, y ensures Linked(owner, n, arcs + {e}, x, y) <==> Linked(owner, n, arcs, x, y) || (x == a && y == b) {
      LinkedMore(owner, n, arcs, e, x, y);
    }
  }

  lemma IgnoreArc(owner: Owners, n: nat, arcs: set<Arc>, s: seq<set<Node>>, p: seq<set<Node>>, e: Arc)
    requires IsQuotient(owner, n, arcs, s, p) && forall a, b :: !Crosses(owner, n, e, a, b)
    ensures IsQuotient(owner, n, arcs + {e}, s, p)
  {
    hide Linked, Crosses;
    forall x, y ensures Linked(owner, n, arcs + {e}, x, y) <==> Linked(owner, n, arcs, x, y) {
      LinkedMore(owner, n, arcs, e, x, y);
    }
  }

  /** The site a block counts for, if any. */
  function OwnerSite(owner: Owners, n: nat, v: Node): (r: Option<Node>)
    ensures r.Some? <==> v in owner && InRange(n, owner[v])
    ensures r.Some? ==> r.value == owner[v]
  {
    if v in owner && InRange(n, owner[v]) then Some(owner[v]) else None
  }

  method LinkBlock(adj: Succs, owner: Owners, n: nat, ghost from: set<Node>, u: Node, s0: seq<set<Node>>, p0: seq<set<Node>>)
    returns (s: seq<set<Node>>, p: seq<set<Node>>)
    requires u in adj && IsQuotient(owner, n, Arcs(adj, from), s0, p0)
    ensures IsQuotient(owner, n, Arcs(adj, from + {u}), s, p)
  {
    hide Linked;
    s, p := s0, p0;
    var site := OwnerSite(owner, n, u);
    var rest := adj[u];
    ghost var arcs := Arcs(adj, from);
    while rest != {}
      invariant rest <= adj[u] && IsQuotient(owner, n, arcs, s, p)
      invariant Arcs(adj, from) <= arcs <= Arcs(adj, from + {u})
      invariant forall v :: v in adj[u] - rest ==> Arc(u, v) in arcs
      decreases rest
    {
      hide IsQuotient;
      var v := Pick(rest);
      var site' := OwnerSite(owner, n, v);
      if site.None? || site'.None? || site' == site {
        IgnoreArc(owner, n, arcs, s, p, Arc(u, v));
      } else {
        QuotientLengths(owner, n, arcs, s, p);
        EnterArc(owner, n, arcs, s, p, Arc(u, v), site.value, site'.value);
        s := s[site.value.id := s[site.value.id] + {site'.value}];
        p := p[site'.value.id := p[site'.value.id] + {site.value}];
      }
      assert Arc(u, v) in Arcs(adj, from + {u});
      arcs := arcs + {Arc(u, v)};
      rest := rest - {v};
    }
    assert arcs == Arcs(adj, from + {u});
  }

  lemma QuotientLengths(owner: Owners, n: nat, arcs: set<Arc>, s: seq<set<Node>>, p: seq<set<Node>>)
    requires IsQuotient(owner, n, arcs, s, p)
    ensures |s| == |p| == n
  {
  }

  function EmptySets(n: nat): (q: seq<set<Node>>) { seq(n, i => {}) }

  lemma QuotientNone(owner: Owners, n: nat, adj: Succs)
    ensures IsQuotient(owner, n, Arcs(adj, {}), EmptySets(n), EmptySets(n))
  {
  }

  /** Both neighbour lists hold exactly the crossings, one the transpose of the other. */
  method BuildSancovGraph(adj: Succs, owner: Owners, n: nat) returns (successors: seq<set<Node>>, predecessors: seq<set<Node>>)
    ensures IsQuotient(owner, n, Arcs(adj, adj.Keys), successors, predecessors)
  {
    hide IsQuotient, Arcs;
    successors, predecessors := EmptySets(n), EmptySets(n);
    var todo := adj.Keys;
    QuotientNone(owner, n, adj);
    assert adj.Keys - todo == {};
    while todo != {}
      invariant todo <= adj.Keys && IsQuotient(owner, n, Arcs(adj, adj.Keys - todo), successors, predecessors)
      decreases todo
    {
      var u := Pick(todo);
      successors, predecessors := LinkBlock(adj, owner, n, adj.Keys - todo, u, successors, predecessors);
      assert adj.Keys - todo + {u} == adj.Keys - (todo - {u});
      todo := todo - {u};
    }
    assert adj.Keys - todo == adj.Keys;
  }

  // ----------------------------------------------------------------- the laws

  lemma PredecessorsTransposed(owner: Owners, n: nat, arcs: set<Arc>, s: seq<set<Node>>, p: seq<set<Node>>, a: Node, b: Node)
    requires IsQuotient(owner, n, arcs, s, p) && InRange(n, a) && InRange(n, b)
    ensures b in s[a.id] <==> a in p[b.id]
  {
    hide Linked;
    assert InRange(n, a) && b in s[a.id] <==> Linked(owner, n, arcs, a, b);
  }

  ghost function Sites(n: nat): (s: set<Node>) { set i | 0 <= i < n :: Node(i) }

  ghost function SiteGraph(n: nat, successors: seq<set<Node>>): (g: Graph)
    requires |successors| == n
  {
    Graph(Sites(n), map a | a in Sites(n) :: successors[a.id])
  }

  /** The region graph's edges are among the arcs the site graph was built from. */
  ghost predicate CoversEdges(g: Graph, arcs: set<Arc>) {
    forall u, v :: Edge(g, u, v) ==> Arc(u, v) in arcs
  }

  ghost predicate SitesInRange(n: nat, seeds: seq<Seed>) {
    forall s :: s in seeds ==> InRange(n, s.site)
  }

  lemma OwnerInRange(g: Graph, seeds: seq<Seed>, owner: Owners, distance: Dist, n: nat, v: Node)
    requires IsVoronoi(g, seeds, owner, distance) && SitesInRange(n, seeds) && v in owner
    ensures InRange(n, owner[v])
  {
    hide Walks;
    assert Near(g, seeds, distance[v], owner[v], v);
    var b :| Placed(g, seeds, owner[v], b) && Walks(g, b, distance[v], v) != {};
    assert InRange(n, Seed(owner[v], Some(b)).site);
  }

  lemma SuccessorAssigned(g: Graph, seeds: seq<Seed>, owner: Owners, distance: Dist, u: Node, v: Node)
    requires IsVoronoi(g, seeds, owner, distance) && u in owner && Edge(g, u, v)
    ensures v in owner
  {
    hide Near;
    assert Nearest(g, seeds, distance[u], owner[u], u);
    NearStep(g, seeds, distance[u], owner[u], v);
    assert Near(g, seeds, distance[u] + 1, owner[u], v);
  }

  lemma CrossingIsEdge(owner: Owners, n: nat, arcs: set<Arc>, s: seq<set<Node>>, p: seq<set<Node>>, u: Node, v: Node)
    requires IsQuotient(owner, n, arcs, s, p) && Arc(u, v) in arcs
    requires u in owner && v in owner && InRange(n, owner[u]) && InRange(n, owner[v]) && owner[u] != owner[v]
    ensures Edge(SiteGraph(n, s), owner[u], owner[v])
  {
    assert Crosses(owner, n, Arc(u, v), owner[u], owner[v]);
    assert Linked(owner, n, arcs, owner[u], owner[v]);
    SiteEdges(n, s, owner[u], owner[v]);
  }

  lemma SiteEdges(n: nat, s: seq<set<Node>>, a: Node, b: Node)
    requires |s| == n
    ensures Edge(SiteGraph(n, s), a, b) <==> InRange(n, a) && InRange(n, b) && b in s[a.id]
  {
    SitesAre(n, a);
    SitesAre(n, b);
  }

  lemma SitesAre(n: nat, a: Node)
    ensures a in Sites(n) <==> InRange(n, a)
  {
    if InRange(n, a) { assert a == Node(a.id); }
  }

  /** Along every path from an assigned block, the owners are connected in the site graph. */
  lemma {:induction false} PathOfOwners(g: Graph, seeds: seq<Seed>, owner: Owners, distance: Dist, n: nat, arcs: set<Arc>,
                                        s: seq<set<Node>>, p: seq<set<Node>>, u: Node, v: Node, path: seq<Node>)
    requires IsVoronoi(g, seeds, owner, distance) && SitesInRange(n, seeds)
    requires IsQuotient(owner, n, arcs, s, p) && CoversEdges(g, arcs)
    requires u in owner && PathFrom(g, u, v, path)
    ensures v in owner && Reach(SiteGraph(n, s), owner[u], owner[v])
    decreases |path|
  {
    hide IsVoronoi, Reach, SiteGraph, Linked, Edge;
    OwnerInRange(g, seeds, owner, distance, n, u);
    if |path| == 1 {
      SitesAre(n, owner[u]);
      SiteNode(n, s, owner[u]);
    } else {
      var w, rest := path[|path| - 2], path[..|path| - 1];
      assert Edge(g, w, v);
      assert PathFrom(g, u, w, rest);
      PathOfOwners(g, seeds, owner, distance, n, arcs, s, p, u, w, rest);
      SuccessorAssigned(g, seeds, owner, distance, w, v);
      OwnerInRange(g, seeds, owner, distance, n, w);
      OwnerInRange(g, seeds, owner, distance, n, v);
      if owner[w] != owner[v] {
        CrossingIsEdge(owner, n, arcs, s, p, w, v);
        ReachSnoc(SiteGraph(n, s), owner[u], owner[w], owner[v]);
      }
    }
  }

  lemma SiteNode(n: nat, s: seq<set<Node>>, a: Node)
    requires |s| == n && InRange(n, a)
    ensures Reach(SiteGraph(n, s), a, a)
  {
    SitesAre(n, a);
    ReachRefl(SiteGraph(n, s), a);
  }

  /** With no shared block, every site owns its own block. */
  lemma SeedOwnsBlock(g: Graph, seeds: seq<Seed>, owner: Owners, distance: Dist, site: Node, b: Node)
    requires IsVoronoi(g, seeds, owner, distance) && UniqueBlocks(seeds) && Placed(g, seeds, site, b)
    ensures b in owner && owner[b] == site && distance[b] == 0
  {
    hide Near;
    NearStart(g, seeds, site, b);
    assert Nearest(g, seeds, distance[b], owner[b], b);
    NearStart(g, seeds, owner[b], b);
    assert Seed(site, Some(b)) in seeds && Seed(owner[b], Some(b)) in seeds;
  }

  /** If one site's block reaches another's, the second site is reachable from the first. */
  lemma SitesReach(g: Graph, seeds: seq<Seed>, owner: Owners, distance: Dist, n: nat, arcs: set<Arc>,
                   s: seq<set<Node>>, p: seq<set<Node>>, a: Node, x: Node, b: Node, y: Node)
    requires IsVoronoi(g, seeds, owner, distance) && UniqueBlocks(seeds) && SitesInRange(n, seeds)
    requires IsQuotient(owner, n, arcs, s, p) && CoversEdges(g, arcs)
    requires Placed(g, seeds, a, x) && Placed(g, seeds, b, y) && Reach(g, x, y)
    ensures Reach(SiteGraph(n, s), a, b)
  {
    hide IsVoronoi, IsQuotient, CoversEdges, SiteGraph, Placed, UniqueBlocks;
    SeedOwnsBlock(g, seeds, owner, distance, a, x);
    SeedOwnsBlock(g, seeds, owner, distance, b, y);
    var path: seq<Node> :| PathFrom(g, x, y, path);
    QuotientLengths(owner, n, arcs, s, p);
    PathOfOwners(g, seeds, owner, distance, n, arcs, s, p, x, y, path);
  }

  /** When only edges of the region graph were entered, a link says the first site's block runs into the second's region. */
  lemma LinkMeans(g: Graph, seeds: seq<Seed>, owner: Owners, distance: Dist, n: nat, arcs: set<Arc>, a: Node, b: Node)
    requires IsVoronoi(g, seeds, owner, distance) && Linked(owner, n, arcs, a, b)
    requires forall e :: e in arcs && e.from in owner && e.to in owner ==> Edge(g, e.from, e.to)
    ensures exists x, v :: Placed(g, seeds, a, x) && v in owner && owner[v] == b && Reach(g, x, v)
  {
    hide IsVoronoi, Reach, Edge;
    var e :| e in arcs && Crosses(owner, n, e, a, b);
    var x, path := RegionConnected(g, seeds, owner, distance, e.from);
    PathReaches(g, x, e.from, path);
    ReachSnoc(g, x, e.from, e.to);
  }

  lemma PathReaches(g: Graph, u: Node, v: Node, path: seq<Node>)
    requires PathFrom(g, u, v, path)
    ensures Reach(g, u, v)
  {
  }

  /** Both ways of building the adjacency keep every forward edge. */
  lemma ForwardEdgesKept(index: map<Node, Node>, cfg: set<Arc>, undirected: bool, forward: Succs, adj: Succs, nodes: set<Node>)
    requires Reflects(index, cfg, false, forward) && Reflects(index, cfg, undirected, adj)
    ensures CoversEdges(Graph(nodes, forward), Arcs(adj, adj.Keys))
  {
    hide Shows;
    forall u, v | Edge(Graph(nodes, forward), u, v) ensures Arc(u, v) in Arcs(adj, adj.Keys) {
      assert Has(forward, u, v);
      assert Has(adj, u, v);
    }
  }

  ghost predicate KeepsReach(g: Graph, seeds: seq<Seed>, s: seq<set<Node>>) {
    forall a, x, b, y :: Placed(g, seeds, a, x) && Placed(g, seeds, b, y) && Reach(g, x, y) ==>
                         Reach(SiteGraph(|s|, s), a, b)
  }

  ghost predicate Transposed(s: seq<set<Node>>, p: seq<set<Node>>)
    requires |s| == |p|
  {
    forall a, b :: InRange(|s|, a) && InRange(|s|, b) ==> (b in s[a.id] <==> a in p[b.id])
  }

  lemma QuotientTransposed(owner: Owners, n: nat, arcs: set<Arc>, s: seq<set<Node>>, p: seq<set<Node>>)
    requires IsQuotient(owner, n, arcs, s, p)
    ensures |s| == |p| && Transposed(s, p)
  {
    forall a, b | InRange(|s|, a) && InRange(|s|, b) ensures b in s[a.id] <==> a in p[b.id] {
      PredecessorsTransposed(owner, n, arcs, s, p, a, b);
    }
  }

  // --------------------------------------------- the links, said of the control flow

  /** A control-flow edge between two different numbered blocks. */
  ghost predicate Flows(cfg: Succs, index: map<Node, Node>, u: Node, v: Node) {
    u in cfg && v in cfg[u] && u in index && v in index && u != v
  }

  /** `site` is the nearest of `v`, the smallest of those equally near. */
  ghost predicate ClosestSite(g: Graph, seeds: seq<Seed>, site: Node, v: Node) {
    exists k: nat :: Nearest(g, seeds, k, site, v)
  }

  /** Some edge, in either direction when `undirected`, leads from a block nearest to `a` to one nearest to `b`. */
  ghost predicate SitesJoined(cfg: Succs, index: map<Node, Node>, undirected: bool, g: Graph, seeds: seq<Seed>, a: Node, b: Node) {
    exists u, v :: && (Flows(cfg, index, u, v) || (undirected && Flows(cfg, index, v, u)))
                   && ClosestSite(g, seeds, a, index[u]) && ClosestSite(g, seeds, b, index[v])
  }

  ghost predicate LinksExact(cfg: Succs, index: map<Node, Node>, undirected: bool, g: Graph, seeds: seq<Seed>, s: seq<set<Node>>) {
    forall a, b :: InRange(|s|, a) && b in s[a.id] <==> a != b && SitesJoined(cfg, index, undirected, g, seeds, a, b)
  }

  lemma ClosestIsOwner(g: Graph, seeds: seq<Seed>, owner: Owners, distance: Dist, site: Node, v: Node)
    requires IsVoronoi(g, seeds, owner, distance)
    ensures ClosestSite(g, seeds, site, v) <==> v in owner && owner[v] == site
  {
    hide Near;
    if ClosestSite(g, seeds, site, v) {
      var k: nat :| Nearest(g, seeds, k, site, v);
      assert Near(g, seeds, k, site, v);
      assert Nearest(g, seeds, distance[v], owner[v], v);
      assert owner[v].id == site.id;
    }
  }

  lemma ShowsFlows(cfg: Succs, index: map<Node, Node>, i: Node, k: Node)
    ensures Shows(index, Arcs(cfg, cfg.Keys), i, k) <==>
            exists u, v :: Flows(cfg, index, u, v) && index[u] == i && index[v] == k
  {
    var arcs := Arcs(cfg, cfg.Keys);
    if Shows(index, arcs, i, k) {
      var e :| e in arcs && Joins(index, e, i, k);
      assert Flows(cfg, index, e.from, e.to);
    }
    if exists u, v :: Flows(cfg, index, u, v) && index[u] == i && index[v] == k {
      var u, v :| Flows(cfg, index, u, v) && index[u] == i && index[v] == k;
      assert Arc(u, v) in arcs && Joins(index, Arc(u, v), i, k);
    }
  }

  lemma ArcIsFlow(cfg: Succs, index: map<Node, Node>, undirected: bool, adj: Succs, i: Node, k: Node) returns (u: Node, v: Node)
    requires Reflects(index, Arcs(cfg, cfg.Keys), undirected, adj) && Arc(i, k) in Arcs(adj, adj.Keys)
    ensures Flows(cfg, index, u, v) || (undirected && Flows(cfg, index, v, u))
    ensures index[u] == i && index[v] == k
  {
    hide Shows;
    assert Has(adj, i, k);
    ShowsFlows(cfg, index, i, k);
    ShowsFlows(cfg, index, k, i);
    if Shows(index, Arcs(cfg, cfg.Keys), i, k) {
      u, v :| Flows(cfg, index, u, v) && index[u] == i && index[v] == k;
    } else {
      v, u :| Flows(cfg, index, v, u) && index[v] == k && index[u] == i;
    }
  }

  lemma FlowIsArc(cfg: Succs, index: map<Node, Node>, undirected: bool, adj: Succs, u: Node, v: Node)
    requires Reflects(index, Arcs(cfg, cfg.Keys), undirected, adj)
    requires Flows(cfg, index, u, v) || (undirected && Flows(cfg, index, v, u))
    ensures Arc(index[u], index[v]) in Arcs(adj, adj.Keys)
  {
    ShowsFlows(cfg, index, index[u], index[v]);
    ShowsFlows(cfg, index, index[v], index[u]);
    hide Shows, Flows;
    assert Has(adj, index[u], index[v]);
  }

  lemma LinkedIsJoined(cfg: Succs, index: map<Node, Node>, undirected: bool, adj: Succs, g: Graph, seeds: seq<Seed>,
                       owner: Owners, distance: Dist, n: nat, a: Node, b: Node)
    requires Reflects(index, Arcs(cfg, cfg.Keys), undirected, adj) && IsVoronoi(g, seeds, owner, distance) && SitesInRange(n, seeds)
    ensures Linked(owner, n, Arcs(adj, adj.Keys), a, b) <==> a != b && SitesJoined(cfg, index, undirected, g, seeds, a, b)
  {
    hide Reflects, IsVoronoi, ClosestSite, SitesInRange, Arcs;
    var arcs := Arcs(adj, adj.Keys);
    if Linked(owner, n, arcs, a, b) {
      var e :| e in arcs && Crosses(owner, n, e, a, b);
      var u, v := ArcIsFlow(cfg, index, undirected, adj, e.from, e.to);
      ClosestIsOwner(g, seeds, owner, distance, a, e.from);
      ClosestIsOwner(g, seeds, owner, distance, b, e.to);
    }
    if a != b && SitesJoined(cfg, index, undirected, g, seeds, a, b) {
      var u, v :| && (Flows(cfg, index, u, v) || (undirected && Flows(cfg, index, v, u)))
                  && ClosestSite(g, seeds, a, index[u]) && ClosestSite(g, seeds, b, index[v]);
      FlowIsArc(cfg, index, undirected, adj, u, v);
      ClosestIsOwner(g, seeds, owner, distance, a, index[u]);
      ClosestIsOwner(g, seeds, owner, distance, b, index[v]);
      OwnerInRange(g, seeds, owner, distance, n, index[u]);
      OwnerInRange(g, seeds, owner, distance, n, index[v]);
      assert Crosses(owner, n, Arc(index[u], index[v]), a, b);
    }
  }

  lemma QuotientExact(cfg: Succs, index: map<Node, Node>, undirected: bool, adj: Succs, g: Graph, seeds: seq<Seed>,
                      owner: Owners, distance: Dist, s: seq<set<Node>>, p: seq<set<Node>>)
    requires Reflects(index, Arcs(cfg, cfg.Keys), undirected, adj) && IsVoronoi(g, seeds, owner, distance)
    requires SitesInRange(|seeds|, seeds) && IsQuotient(owner, |seeds|, Arcs(adj, adj.Keys), s, p)
    ensures LinksExact(cfg, index, undirected, g, seeds, s)
  {
    hide Reflects, IsVoronoi, SitesInRange, SitesJoined, Linked, Arcs;
    forall a, b ensures InRange(|s|, a) && b in s[a.id] <==> a != b && SitesJoined(cfg, index, undirected, g, seeds, a, b) {
      LinkedIsJoined(cfg, index, undirected, adj, g, seeds, owner, distance, |seeds|, a, b);
    }
  }

  /** A link in directed mode: the block of the first site leads to a block nearest to the second. */
  ghost predicate LinksLead(g: Graph, seeds: seq<Seed>, s: seq<set<Node>>) {
    forall a, b :: InRange(|s|, a) && b in s[a.id] ==>
      exists x, v :: Placed(g, seeds, a, x) && ClosestSite(g, seeds, b, v) && Reach(g, x, v)
  }

  lemma DirectedLinksLead(cfg: Succs, index: map<Node, Node>, blocks: set<Node>, forward: Succs, adj: Succs, seeds: seq<Seed>,
                          owner: Owners, distance: Dist, s: seq<set<Node>>, p: seq<set<Node>>)
    requires Reflects(index, Arcs(cfg, cfg.Keys), false, forward) && Reflects(index, Arcs(cfg, cfg.Keys), false, adj)
    requires IsVoronoi(Graph(blocks, forward), seeds, owner, distance) && owner.Keys <= blocks
    requires IsQuotient(owner, |seeds|, Arcs(adj, adj.Keys), s, p)
    ensures LinksLead(Graph(blocks, forward), seeds, s)
  {
    var g, arcs := Graph(blocks, forward), Arcs(adj, adj.Keys);
    forall e | e in arcs && e.from in owner && e.to in owner ensures Edge(g, e.from, e.to) {
      assert Has(adj, e.from, e.to);
      assert Has(forward, e.from, e.to);
    }
    hide Reflects, IsVoronoi, Placed, Reach, Edge, Linked, ClosestSite;
    forall a, b | InRange(|s|, a) && b in s[a.id]
      ensures exists x, v :: Placed(g, seeds, a, x) && ClosestSite(g, seeds, b, v) && Reach(g, x, v)
    {
      assert Linked(owner, |seeds|, arcs, a, b);
      LinkMeans(g, seeds, owner, distance, |seeds|, arcs, a, b);
      var x, v :| Placed(g, seeds, a, x) && v in owner && owner[v] == b && Reach(g, x, v);
      ClosestIsOwner(g, seeds, owner, distance, b, v);
    }
  }

  /** From control-flow graph to site graph: fails exactly on shared blocks, and otherwise links
      exactly the sites whose regions an edge of the chosen mode joins, and keeps reachability between sites. */
  method SitesFromGraph(cfg: Succs, index: map<Node, Node>, blocks: set<Node>, seeds: seq<Seed>, undirected: bool)
    returns (ok: bool, forward: Succs, successors: seq<set<Node>>, predecessors: seq<set<Node>>)
    requires SitesInRange(|seeds|, seeds)
    ensures ok <==> UniqueBlocks(seeds)
    ensures Reflects(index, Arcs(cfg, cfg.Keys), false, forward)
    ensures ok ==> |successors| == |predecessors| == |seeds| && KeepsReach(Graph(blocks, forward), seeds, successors)
    ensures ok ==> Transposed(successors, predecessors)
    ensures ok ==> LinksExact(cfg, index, undirected, Graph(blocks, forward), seeds, successors)
    ensures ok && !undirected ==> LinksLead(Graph(blocks, forward), seeds, successors)
  {
    hide IsVoronoi, IsQuotient, CoversEdges, UniqueBlocks, Reflects, Placed, Reach, SiteGraph, SitesInRange, Transposed;
    hide LinksExact, LinksLead;
    var adj := BuildAdjacency(cfg, index, undirected);
    forward := BuildAdjacency(cfg, index, false);
    successors, predecessors := [], [];
    ok := ValidateUnique(seeds);
    if !ok { return; }
    var g := Graph(blocks, forward);
    var owner, distance := AssignBlocks(g, seeds);
    successors, predecessors := BuildSancovGraph(adj, owner, |seeds|);
    ghost var arcs := Arcs(adj, adj.Keys);
    QuotientLengths(owner, |seeds|, arcs, successors, predecessors);
    QuotientTransposed(owner, |seeds|, arcs, successors, predecessors);
    ForwardEdgesKept(index, Arcs(cfg, cfg.Keys), undirected, forward, adj, blocks);
    QuotientExact(cfg, index, undirected, adj, g, seeds, owner, distance, successors, predecessors);
    if !undirected {
      DirectedLinksLead(cfg, index, blocks, forward, adj, seeds, owner, distance, successors, predecessors);
    }
    forall a, x, b, y | Placed(g, seeds, a, x) && Placed(g, seeds, b, y) && Reach(g, x, y)
      ensures Reach(SiteGraph(|successors|, successors), a, b)
    {
      SitesReach(g, seeds, owner, distance, |seeds|, arcs, successors, predecessors, a, x, b, y);
    }
  }
}
