/** Assignment of blocks to their nearest coverage site. */
module Voronoi {
  import opened Base
  import opened Graph
  import opened Dominators
  import opened ShortestPaths
  import opened Sorting

  /** A coverage site and the block it sits in, if that block is part of the graph. */
  datatype Seed = Seed(site: Node, block: Option<Node>)

  datatype Place = Place(site: Node, block: Node)

  function SiteKey(p: Place): (r: real) { p.site.id as real }

  type Owners = map<Node, Node>

  // ------------------------------------------------------------- specification

  ghost predicate Placed(g: Graph, seeds: seq<Seed>, site: Node, block: Node) {
    block in g.nodes && Seed(site, Some(block)) in seeds
  }

  /** A walk of `k` edges leads from a block of `site` to `v`. */
  ghost predicate Near(g: Graph, seeds: seq<Seed>, k: nat, site: Node, v: Node) {
    exists b :: Placed(g, seeds, site, b) && Walks(g, b, k, v) != {}
  }

  /** `site` reaches `v` in `k` steps and no site does so in fewer, nor a smaller site in as many. */
  ghost predicate Nearest(g: Graph, seeds: seq<Seed>, k: nat, site: Node, v: Node) {
    && Near(g, seeds, k, site, v)
    && forall k': nat, site' :: Near(g, seeds, k', site', v) ==> k < k' || (k == k' && site.id <= site'.id)
  }

  /** The assignment gives every block that any site reaches its nearest one, and no other block any. */
  ghost predicate IsVoronoi(g: Graph, seeds: seq<Seed>, owner: Owners, distance: Dist) {
    && owner.Keys == distance.Keys
    && (forall v :: v in owner ==> Nearest(g, seeds, distance[v], owner[v], v))
    && (forall v, k: nat, site :: Near(g, seeds, k, site, v) ==> v in owner)
  }

  // ------------------------------------------------------------- consequences

  lemma NearStep(g: Graph, seeds: seq<Seed>, k: nat, site: Node, v: Node)
    ensures Near(g, seeds, k + 1, site, v) <==> exists u :: Edge(g, u, v) && Near(g, seeds, k, site, u)
  {
    hide Placed;
    if Near(g, seeds, k + 1, site, v) {
      var b :| Placed(g, seeds, site, b) && Walks(g, b, k + 1, v) != {};
      var q :| q in Walks(g, b, k + 1, v);
      assert q in Extend(PredSet(g, v), u => Walks(g, b, k, u), v);
      var u, r :| u in PredSet(g, v) && r in Walks(g, b, k, u) && q == r + [v];
      assert Edge(g, u, v) && Near(g, seeds, k, site, u);
    }
    if exists u :: Edge(g, u, v) && Near(g, seeds, k, site, u) {
      var u :| Edge(g, u, v) && Near(g, seeds, k, site, u);
      var b :| Placed(g, seeds, site, b) && Walks(g, b, k, u) != {};
      WalkExtends(g, b, k, u, v);
    }
  }

  lemma NearStart(g: Graph, seeds: seq<Seed>, site: Node, v: Node)
    ensures Near(g, seeds, 0, site, v) <==> Placed(g, seeds, site, v)
  {
    if Placed(g, seeds, site, v) { assert Walks(g, v, 0, v) == {[v]}; }
  }

  lemma NearByPath(g: Graph, seeds: seq<Seed>, k: nat, site: Node, v: Node)
    ensures Near(g, seeds, k, site, v) <==>
            exists b, p: seq<Node> :: Placed(g, seeds, site, b) && PathFrom(g, b, v, p) && |p| == k + 1
  {
    hide Placed, Walks, PathFrom;
    if Near(g, seeds, k, site, v) {
      var b :| Placed(g, seeds, site, b) && Walks(g, b, k, v) != {};
      var p :| p in Walks(g, b, k, v);
      WalkShape(g, b, k, v, p);
    }
    if b, p: seq<Node> :| Placed(g, seeds, site, b) && PathFrom(g, b, v, p) && |p| == k + 1 {
      WalkShape(g, b, k, v, p);
    }
  }

  /** In terms of paths: the owner has one of the noted length from a block of its own; no site has a
      shorter one, and no site before it one as short. A block without owner has no path from any site. */
  lemma OwnerByPaths(g: Graph, seeds: seq<Seed>, owner: Owners, distance: Dist, v: Node)
    requires IsVoronoi(g, seeds, owner, distance)
    ensures v in owner ==>
              exists b, p: seq<Node> :: Placed(g, seeds, owner[v], b) && PathFrom(g, b, v, p) && |p| == distance[v] + 1
    ensures forall site, b, p: seq<Node> :: Placed(g, seeds, site, b) && PathFrom(g, b, v, p) ==>
              v in owner && (distance[v] + 1 < |p| || (distance[v] + 1 == |p| && owner[v].id <= site.id))
  {
    hide Placed, Near;
    if v in owner {
      assert Nearest(g, seeds, distance[v], owner[v], v);
      NearByPath(g, seeds, distance[v], owner[v], v);
    }
    forall site, b, p: seq<Node> | Placed(g, seeds, site, b) && PathFrom(g, b, v, p)
      ensures v in owner && (distance[v] + 1 < |p| || (distance[v] + 1 == |p| && owner[v].id <= site.id))
    {
      NearByPath(g, seeds, |p| - 1, site, v);
      assert Near(g, seeds, |p| - 1, site, v);
      assert Nearest(g, seeds, distance[v], owner[v], v);
    }
  }

  /** The step before a block's last lies in the same region, one step closer. */
  lemma RegionStep(g: Graph, seeds: seq<Seed>, owner: Owners, distance: Dist, v: Node) returns (u: Node)
    requires IsVoronoi(g, seeds, owner, distance) && v in owner && distance[v] > 0
    ensures Edge(g, u, v) && u in owner && owner[u] == owner[v] && distance[u] + 1 == distance[v]
  {
    hide Near;
    var k, site := distance[v] - 1, owner[v];
    assert Nearest(g, seeds, k + 1, site, v);
    NearStep(g, seeds, k, site, v);
    u :| Edge(g, u, v) && Near(g, seeds, k, site, u);
    assert Nearest(g, seeds, distance[u], owner[u], u);
    NearStep(g, seeds, distance[u], owner[u], v);
  }

  /** Every region is connected from a block of its own site, along shortest walks inside it. */
  lemma {:induction false} RegionConnected(g: Graph, seeds: seq<Seed>, owner: Owners, distance: Dist, v: Node)
    returns (b: Node, p: seq<Node>)
    requires IsVoronoi(g, seeds, owner, distance) && v in owner
    ensures Placed(g, seeds, owner[v], b) && PathFrom(g, b, v, p) && |p| == distance[v] + 1
    ensures forall i :: 0 <= i < |p| ==> p[i] in owner && owner[p[i]] == owner[v] && distance[p[i]] == i
    decreases distance[v]
  {
    hide Near;
    if distance[v] == 0 {
      b, p := v, [v];
      assert Nearest(g, seeds, 0, owner[v], v);
      NearStart(g, seeds, owner[v], v);
    } else {
      var u := RegionStep(g, seeds, owner, distance, v);
      var q;
      b, q := RegionConnected(g, seeds, owner, distance, u);
      p := q + [v];
      forall i | 0 <= i < |p| - 1 ensures Edge(g, p[i], p[i + 1]) {
        if i < |q| - 1 { assert Edge(g, q[i], q[i + 1]); }
      }
    }
  }

  /** A block is assigned exactly when some site's block reaches it. */
  lemma AssignedIffReached(g: Graph, seeds: seq<Seed>, owner: Owners, distance: Dist, v: Node)
    requires IsVoronoi(g, seeds, owner, distance)
    ensures v in owner <==> exists site, b :: Placed(g, seeds, site, b) && Reach(g, b, v)
  {
    hide Walks;
    if v in owner {
      var b, p := RegionConnected(g, seeds, owner, distance, v);
      assert Reach(g, b, v);
    }
    if exists site, b :: Placed(g, seeds, site, b) && Reach(g, b, v) {
      var site, b :| Placed(g, seeds, site, b) && Reach(g, b, v);
      var p: seq<Node> :| PathFrom(g, b, v, p);
      WalkShape(g, b, |p| - 1, v, p);
      assert Near(g, seeds, |p| - 1, site, v);
    }
  }

  /** The assignment depends on which sites sit where, not on how they are listed. */
  lemma OrderIrrelevant(g: Graph, seeds: seq<Seed>, seeds': seq<Seed>,
                        owner: Owners, distance: Dist, owner': Owners, distance': Dist)
    requires forall s :: s in seeds <==> s in seeds'
    requires IsVoronoi(g, seeds, owner, distance) && IsVoronoi(g, seeds', owner', distance')
    ensures owner == owner' && distance == distance'
  {
    hide Walks;
    forall k: nat, site, v ensures Near(g, seeds, k, site, v) <==> Near(g, seeds', k, site, v) {
      forall b ensures Placed(g, seeds, site, b) <==> Placed(g, seeds', site, b) {}
    }
    forall v ensures (v in owner <==> v in owner') && (v in owner ==> owner[v] == owner'[v] && distance[v] == distance'[v]) {
      if v in owner { assert Near(g, seeds, distance[v], owner[v], v); }
      if v in owner' { assert Near(g, seeds', distance'[v], owner'[v], v); }
    }
  }

  // ------------------------------------------------------- state of the search

  /** The first `d + 1` layers are settled, and `layer` is the last of them. */
  ghost predicate Layered(g: Graph, seeds: seq<Seed>, d: nat, owner: Owners, distance: Dist, layer: set<Node>) {
    && owner.Keys == distance.Keys <= g.nodes
    && (forall v :: v in owner ==> Nearest(g, seeds, distance[v], owner[v], v) && distance[v] <= d)
    && (forall v, k: nat, site :: Near(g, seeds, k, site, v) && k <= d ==> v in owner)
    && (forall v :: v in layer <==> v in owner && distance[v] == d)
  }

  /** A block outside the settled layers that is one step from `v`'s predecessor `u` only if `u` is in the last layer. */
  lemma Frontier(g: Graph, seeds: seq<Seed>, d: nat, owner: Owners, distance: Dist, layer: set<Node>,
                 site: Node, v: Node) returns (u: Node)
    requires Layered(g, seeds, d, owner, distance, layer) && v !in owner && Near(g, seeds, d + 1, site, v)
    ensures u in layer && u in owner && Edge(g, u, v) && owner[u].id <= site.id
  {
    hide Near, Edge;
    NearStep(g, seeds, d, site, v);
    u :| Edge(g, u, v) && Near(g, seeds, d, site, u);
    assert Nearest(g, seeds, distance[u], owner[u], u);
    NearStep(g, seeds, distance[u], owner[u], v);
  }

  /** Once a layer is empty nothing further is reached. */
  lemma {:induction false} NothingBeyond(g: Graph, seeds: seq<Seed>, d: nat, owner: Owners, distance: Dist,
                                         k: nat, site: Node, v: Node)
    requires Layered(g, seeds, d, owner, distance, {}) && Near(g, seeds, k, site, v)
    ensures v in owner
    decreases k
  {
    hide Near, Edge;
    if k > d {
      NearStep(g, seeds, k - 1, site, v);
      var u :| Edge(g, u, v) && Near(g, seeds, k - 1, site, u);
      NothingBeyond(g, seeds, d, owner, distance, k - 1, site, u);
      assert Nearest(g, seeds, distance[u], owner[u], u);
      NearStep(g, seeds, distance[u], owner[u], v);
      assert Near(g, seeds, distance[u] + 1, owner[u], v);
    }
  }

  lemma LayersComplete(g: Graph, seeds: seq<Seed>, d: nat, owner: Owners, distance: Dist)
    requires Layered(g, seeds, d, owner, distance, {})
    ensures IsVoronoi(g, seeds, owner, distance)
  {
    hide Nearest, Near;
    forall v, k: nat, site | Near(g, seeds, k, site, v) ensures v in owner {
      NothingBeyond(g, seeds, d, owner, distance, k, site, v);
    }
  }

  // ------------------------------------------------------------ the next layer

  /** `u` has offered itself to `v`; of `cur` the offers to `rest` are still to come. */
  ghost predicate Offered(g: Graph, owner: Owners, offering: set<Node>, cur: Node, rest: set<Node>, u: Node, v: Node) {
    u in offering && Edge(g, u, v) && v !in owner && !(u == cur && v in rest)
  }

  /** `next` holds the smallest owner offered to each block outside the settled ones. */
  ghost predicate BestOffers(g: Graph, owner: Owners, offering: set<Node>, cur: Node, rest: set<Node>, next: Owners) {
    && (forall u, v :: Offered(g, owner, offering, cur, rest, u, v) && u in owner ==>
                       v in next && next[v].id <= owner[u].id)
    && (forall v :: v in next ==>
                    exists u :: u in owner && Offered(g, owner, offering, cur, rest, u, v) && owner[u] == next[v])
  }

  lemma OfferMade(g: Graph, owner: Owners, offering: set<Node>, cur: Node, rest: set<Node>, next: Owners, v: Node)
    requires BestOffers(g, owner, offering, cur, rest, next) && cur in offering && cur in owner && v in rest && Edge(g, cur, v)
    ensures BestOffers(g, owner, offering, cur, rest - {v},
                       if v in owner || (v in next && next[v].id <= owner[cur].id) then next else next[v := owner[cur]])
  {
    hide Edge;
    var keep := v in owner || (v in next && next[v].id <= owner[cur].id);
    var next' := if keep then next else next[v := owner[cur]];
    forall u, x ensures Offered(g, owner, offering, cur, rest - {v}, u, x) <==>
                        Offered(g, owner, offering, cur, rest, u, x) || (u == cur && x == v && v !in owner) {}
    forall x | x in next'
      ensures exists u :: u in owner && Offered(g, owner, offering, cur, rest - {v}, u, x) && owner[u] == next'[x]
    {
      if x in next && next'[x] == next[x] {
        var u :| u in owner && Offered(g, owner, offering, cur, rest, u, x) && owner[u] == next[x];
        assert Offered(g, owner, offering, cur, rest - {v}, u, x);
      } else {
        assert Offered(g, owner, offering, cur, rest - {v}, cur, x);
      }
    }
  }

  method ScanLayer(g: Graph, owner: Owners, layer: set<Node>) returns (next: Owners)
    requires layer <= owner.Keys && layer <= g.nodes
    ensures forall cur :: BestOffers(g, owner, layer, cur, {}, next)
  {
    hide BestOffers, Succ;
    next := map[];
    var todo := layer;
    assert forall cur :: BestOffers(g, owner, {}, cur, {}, next) by { NoOffers(g, owner); }
    assert layer - todo == {};
    while todo != {}
      invariant todo <= layer && forall cur :: BestOffers(g, owner, layer - todo, cur, {}, next)
      decreases todo
    {
      var u := Pick(todo);
      var rest := Succ(g, u);
      OfferStart(g, owner, layer - todo, u, next);
      assert layer - todo + {u} == layer - (todo - {u});
      todo := todo - {u};
      while rest != {}
        invariant rest <= Succ(g, u) && BestOffers(g, owner, layer - todo, u, rest, next)
        decreases rest
      {
        var v := Pick(rest);
        OfferMade(g, owner, layer - todo, u, rest, next, v);
        if v !in owner && (v !in next || owner[u].id < next[v].id) {
          next := next[v := owner[u]];
        }
        rest := rest - {v};
      }
      OfferEnd(g, owner, layer - todo, u, next);
    }
    assert layer - todo == layer;
  }

  lemma NoOffers(g: Graph, owner: Owners)
    ensures forall cur :: BestOffers(g, owner, {}, cur, {}, map[])
  {
  }

  lemma OfferStart(g: Graph, owner: Owners, offering: set<Node>, u: Node, next: Owners)
    requires u !in offering && BestOffers(g, owner, offering, u, {}, next)
    ensures BestOffers(g, owner, offering + {u}, u, Succ(g, u), next)
  {
    hide Succ;
    forall x, v ensures Offered(g, owner, offering + {u}, u, Succ(g, u), x, v) <==> Offered(g, owner, offering, u, {}, x, v) {}
  }

  lemma OfferEnd(g: Graph, owner: Owners, offering: set<Node>, u: Node, next: Owners)
    requires BestOffers(g, owner, offering, u, {}, next)
    ensures forall cur :: BestOffers(g, owner, offering, cur, {}, next)
  {
    hide Edge;
    forall cur ensures BestOffers(g, owner, offering, cur, {}, next) {
      forall x, v ensures Offered(g, owner, offering, cur, {}, x, v) <==> Offered(g, owner, offering, u, {}, x, v) {}
    }
  }

  function Constant(vs: set<Node>, d: nat): (m: Dist) { map v | v in vs :: d }

  /** Settling the best offers gives the next layer. */
  lemma NextLayer(g: Graph, seeds: seq<Seed>, d: nat, owner: Owners, distance: Dist, layer: set<Node>, next: Owners)
    requires Layered(g, seeds, d, owner, distance, layer)
    requires forall cur :: BestOffers(g, owner, layer, cur, {}, next)
    ensures Layered(g, seeds, d + 1, owner + next, distance + Constant(next.Keys, d + 1), next.Keys)
    ensures owner.Keys !! next.Keys
  {
    hide Near;
    forall v | v in next ensures v in g.nodes && v !in owner && Nearest(g, seeds, d + 1, next[v], v) {
      NextIsNearest(g, seeds, d, owner, distance, layer, next, v);
    }
    var k := d + 1;
    forall v, site | Near(g, seeds, k, site, v) && v !in owner ensures v in next {
      var u := Frontier(g, seeds, d, owner, distance, layer, site, v);
      assert BestOffers(g, owner, layer, v, {}, next);
      assert Offered(g, owner, layer, v, {}, u, v);
    }
  }

  lemma NextIsNearest(g: Graph, seeds: seq<Seed>, d: nat, owner: Owners, distance: Dist, layer: set<Node>, next: Owners, v: Node)
    requires Layered(g, seeds, d, owner, distance, layer)
    requires (forall cur :: BestOffers(g, owner, layer, cur, {}, next)) && v in next
    ensures v in g.nodes && v !in owner && Nearest(g, seeds, d + 1, next[v], v)
  {
    hide Near;
    assert BestOffers(g, owner, layer, v, {}, next);
    var u :| u in owner && Offered(g, owner, layer, v, {}, u, v) && owner[u] == next[v];
    assert Nearest(g, seeds, d, owner[u], u);
    NearStep(g, seeds, d, next[v], v);
    forall k': nat, site' | Near(g, seeds, k', site', v) ensures d + 1 < k' || (d + 1 == k' && next[v].id <= site'.id) {
      if k' == d + 1 {
        var x := Frontier(g, seeds, d, owner, distance, layer, site', v);
        assert Offered(g, owner, layer, v, {}, x, v);
      }
    }
  }

  // -------------------------------------------------------------- the methods

  /** The smallest site listed so far for each block. */
  ghost predicate FirstClaims(places: seq<Place>, owner: Owners) {
    && (forall p :: p in places ==> p.block in owner && owner[p.block].id <= p.site.id)
    && (forall v :: v in owner ==> Place(owner[v], v) in places)
  }

  method UsablePlaces(g: Graph, seeds: seq<Seed>) returns (places: seq<Place>)
    ensures forall p :: p in places <==> Placed(g, seeds, p.site, p.block)
  {
    places := [];
    var i := 0;
    while i < |seeds|
      invariant 0 <= i <= |seeds| && forall p :: p in places <==> Placed(g, seeds[..i], p.site, p.block)
    {
      var s := seeds[i];
      assert seeds[..i + 1] == seeds[..i] + [s];
      if s.block.Some? && s.block.value in g.nodes {
        places := places + [Place(s.site, s.block.value)];
      }
      i := i + 1;
    }
    assert seeds[..i] == seeds;
  }

  method ClaimSeeds(places: seq<Place>) returns (owner: Owners)
    requires SortedBy(places, SiteKey)
    ensures FirstClaims(places, owner)
  {
    owner := map[];
    var i := 0;
    while i < |places|
      invariant 0 <= i <= |places| && FirstClaims(places[..i], owner)
    {
      var p := places[i];
      assert places[..i + 1] == places[..i] + [p];
      if p.block !in owner {
        owner := owner[p.block := p.site];
      } else {
        assert Place(owner[p.block], p.block) in places[..i];
      }
      i := i + 1;
    }
    assert places[..i] == places;
  }

  lemma FirstLayer(g: Graph, seeds: seq<Seed>, places: seq<Place>, owner: Owners)
    requires forall p :: p in places <==> Placed(g, seeds, p.site, p.block)
    requires FirstClaims(places, owner)
    ensures Layered(g, seeds, 0, owner, Constant(owner.Keys, 0), owner.Keys)
  {
    hide Near;
    forall v | v in owner ensures v in g.nodes && Nearest(g, seeds, 0, owner[v], v) {
      assert Place(owner[v], v) in places;
      NearStart(g, seeds, owner[v], v);
      forall site | Near(g, seeds, 0, site, v) ensures owner[v].id <= site.id {
        NearStart(g, seeds, site, v);
        assert Place(site, v) in places;
      }
    }
    forall v, site | Near(g, seeds, 0, site, v) ensures v in owner {
      NearStart(g, seeds, site, v);
      assert Place(site, v) in places;
    }
  }

  lemma SameMembers(places: seq<Place>, sorted: seq<Place>)
    requires Rearranged(places, sorted)
    ensures forall p :: p in places <==> p in sorted
  {
    forall p ensures p in places <==> p in sorted { RearrangedIn(places, sorted, p); }
  }

  /** Layer by layer from all sites at once, the smaller site winning within a layer. */
  method AssignBlocks(g: Graph, seeds: seq<Seed>) returns (owner: Owners, distance: Dist)
    ensures IsVoronoi(g, seeds, owner, distance) && owner.Keys <= g.nodes
  {
    hide IsVoronoi, FirstClaims, BestOffers, Nearest, Near, Placed, SortedBy, Rearranged;
    var places := UsablePlaces(g, seeds);
    var sorted := SortBy(places, SiteKey);
    SameMembers(places, sorted);
    owner := ClaimSeeds(sorted);
    FirstLayer(g, seeds, sorted, owner);
    distance := Constant(owner.Keys, 0);
    var layer, d := owner.Keys, 0;
    while layer != {}
      invariant Layered(g, seeds, d, owner, distance, layer)
      decreases g.nodes - owner.Keys, layer
    {
      var next := ScanLayer(g, owner, layer);
      NextLayer(g, seeds, d, owner, distance, layer, next);
      ghost var before := owner.Keys;
      owner, distance := owner + next, distance + Constant(next.Keys, d + 1);
      layer, d := next.Keys, d + 1;
      assert owner.Keys == before + next.Keys;
      assert next.Keys != {} ==> exists x :: x in next.Keys && x !in before;
    }
    LayersComplete(g, seeds, d, owner, distance);
  }

  ghost predicate Ascending(q: seq<Node>) {
    forall i, j :: 0 <= i < j < |q| ==> q[i].id < q[j].id
  }

  /** The blocks below `n` that `site` owns, in order. */
  ghost predicate IsRegion(owner: Owners, n: nat, site: Node, region: seq<Node>) {
    Ascending(region) && forall v :: v in region <==> v in owner && owner[v] == site && 0 <= v.id < n
  }

  /** The blocks below `n` that no site owns, in order. */
  ghost predicate IsRemainder(owner: Owners, n: nat, unassigned: seq<Node>) {
    Ascending(unassigned) && forall v :: v in unassigned <==> v !in owner && 0 <= v.id < n
  }

  function RegionOf(regions: map<Node, seq<Node>>, site: Node): (r: seq<Node>) {
    if site in regions then regions[site] else []
  }

  lemma RegionGrows(owner: Owners, i: nat, site: Node, region: seq<Node>)
    requires IsRegion(owner, i, site, region)
    ensures var v := Node(i);
            IsRegion(owner, i + 1, site, if v in owner && owner[v] == site then region + [v] else region)
  {
    forall v: Node ensures 0 <= v.id < i + 1 <==> 0 <= v.id < i || v == Node(i) {}
  }

  lemma RemainderGrows(owner: Owners, i: nat, unassigned: seq<Node>)
    requires IsRemainder(owner, i, unassigned)
    ensures IsRemainder(owner, i + 1, if Node(i) in owner then unassigned else unassigned + [Node(i)])
  {
    forall v: Node ensures 0 <= v.id < i + 1 <==> 0 <= v.id < i || v == Node(i) {}
  }

  /** Every block goes into its owner's region, in order, or on the list of unassigned blocks. */
  method CollectRegions(n: nat, owner: Owners) returns (regions: map<Node, seq<Node>>, unassigned: seq<Node>)
    ensures forall site :: IsRegion(owner, n, site, RegionOf(regions, site))
    ensures forall site :: site in regions ==> regions[site] != []
    ensures IsRemainder(owner, n, unassigned)
  {
    regions, unassigned := map[], [];
    var i := 0;
    while i < n
      invariant 0 <= i <= n
      invariant forall site :: IsRegion(owner, i, site, RegionOf(regions, site))
      invariant forall site :: site in regions ==> regions[site] != []
      invariant IsRemainder(owner, i, unassigned)
    {
      hide IsRegion, IsRemainder;
      var v := Node(i);
      ghost var before := regions;
      RemainderGrows(owner, i, unassigned);
      if v in owner {
        regions := regions[owner[v] := RegionOf(regions, owner[v]) + [v]];
      } else {
        unassigned := unassigned + [v];
      }
      forall site ensures IsRegion(owner, i + 1, site, RegionOf(regions, site)) {
        RegionGrows(owner, i, site, RegionOf(before, site));
      }
      i := i + 1;
    }
  }

  /** No two seeds share a block. */
  ghost predicate UniqueBlocks(seeds: seq<Seed>) {
    forall i, j :: 0 <= i < j < |seeds| && seeds[i].block.Some? ==> seeds[i].block != seeds[j].block
  }

  /** Whether the seeds pass the duplicate test. */
  method ValidateUnique(seeds: seq<Seed>) returns (ok: bool)
    ensures ok <==> UniqueBlocks(seeds)
  {
    var byBlock: map<Node, seq<Seed>> := map[];
    ok := true;
    var i := 0;
    while i < |seeds|
      invariant 0 <= i <= |seeds| && (ok <==> UniqueBlocks(seeds[..i]))
      invariant forall b :: b in byBlock <==> exists j :: 0 <= j < i && seeds[j].block == Some(b)
    {
      var s := seeds[i];
      if s.block.Some? {
        var b := s.block.value;
        if b in byBlock { ok := false; }
        byBlock := byBlock[b := (if b in byBlock then byBlock[b] else []) + [s]];
      }
      i := i + 1;
    }
    assert seeds[..i] == seeds;
  }
}
