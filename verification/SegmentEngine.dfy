/** The segment compiler (`MinSeg`) and the path builder on top of it. */
module SegmentEngine {
  import opened Wrappers
  import opened Network
  import opened ShortestPathDag
  import opened Graphs
  import opened SegmentRouting
  import opened MinSegSpec

  ghost function IgpNet(g: Graph): Links
    reads g
  {
    NetOf(g.minEdges, IgpMetric)
  }

  /** The state in which segment lists are computed: a finalized graph with positive
      metrics and fitting path sums, and a cache that agrees with it. */
  ghost predicate Routable(g: Graph)
    reads g
  {
    && g.Finalized()
    && Positive(IgpNet(g)) && (forall s :: s in g.nodes ==> PathSumsFit(IgpNet(g), s))
    && g.CacheAgrees()
  }

  ghost predicate UsesMinEdges(m: map<(Node, Node), Edge>, segs: seq<Segment>) {
    forall s :: s in segs && s.AdjSegment? ==>
      (s.edge.local, s.edge.remote) in m && s.edge == m[(s.edge.local, s.edge.remote)]
  }

  lemma MinEdgeEnds(g: Graph, u: Node, v: Node)
    requires g.Finalized() && (u, v) in g.minEdges
    ensures g.minEdges[(u, v)].local == u && g.minEdges[(u, v)].remote == v && u != v
    ensures u in g.nodes && v in g.nodes
  {
    var e := g.minEdges[(u, v)];
    assert CheapestEdge(g.edges, u, v, e);
  }

  /** The predecessors of `v` in the search from `n`, cached or computed. */
  method PrevFrom(g: Graph, n: Node, v: Node) returns (prev: seq<Node>)
    requires Routable(g) && n in g.nodes && v in g.nodes
    ensures PredsOK(IgpNet(g), n, v, prev)
  {
    var res;
    if n in g.dcache {
      assert CachedRight(IgpNet(g), g.NodeSet(), g.dcache, n);
      res := g.dcache[n];
    } else {
      res := g.Dijkstra(n, IgpMetric);
    }
    prev := res.prev[v];
  }

  /** What one hop appends, in terms of tight predecessors instead of search results. */
  ghost predicate HopDone(net: Links, m: map<(Node, Node), Edge>, r: Node, u: Node, v: Node, added: seq<Segment>,
                          r': Node)
  {
    if Tight(net, r, u, v) && |TightPreds(net, r, v)| <= 1 then added == [] && r' == r
    else if |TightPreds(net, u, v)| == 1 then added == [NodeSegment(u)] && r' == u
    else (u, v) in m && added == [NodeSegment(u), AdjSegment(m[(u, v)])] && r' == v
  }

  /** The loop body: decides whether the hop from `nodeI` to `nodeII` still follows from
      the last pinned node `nodeR`, and if not how to pin it. */
  method CompileHop(g: Graph, nodeR: Node, nodeI: Node, nodeII: Node, res: seq<Segment>)
    returns (res': seq<Segment>, nodeR': Node, ghost added: seq<Segment>)
    requires Routable(g) && nodeR in g.nodes && (nodeI, nodeII) in IgpNet(g)
    ensures res' == res + added && HopDone(IgpNet(g), g.minEdges, nodeR, nodeI, nodeII, added, nodeR')
    ensures |res'| >= |res| && res'[..|res|] == res && res'[|res|..] == added
  {
    ghost var net := IgpNet(g);
    MinEdgeEnds(g, nodeI, nodeII);
    var prevI := PrevFrom(g, nodeI, nodeII);
    var prevR := PrevFrom(g, nodeR, nodeII);
    PredsCount(net, nodeR, nodeII, prevR);
    PredsCount(net, nodeI, nodeII, prevI);
    HopHasPreds(net, nodeI, nodeII);
    res', nodeR' := res, nodeR;
    added := [];
    if nodeI !in prevR {
      if |prevI| == 1 {
        res', added := res' + [NodeSegment(nodeI)], [NodeSegment(nodeI)];
        nodeR' := nodeI;
      } else {
        res' := res' + [NodeSegment(nodeI)];
        var edge := g.minEdges[(nodeI, nodeII)];
        res', added := res' + [AdjSegment(edge)], [NodeSegment(nodeI), AdjSegment(edge)];
        nodeR' := nodeII;
      }
    } else {
      if |prevR| <= 1 {
        return;
      }
      if |prevI| > 1 {
        res' := res' + [NodeSegment(nodeI)];
        var edge := g.minEdges[(nodeI, nodeII)];
        res', added := res' + [AdjSegment(edge)], [NodeSegment(nodeI), AdjSegment(edge)];
        nodeR' := nodeII;
      } else {
        res', added := res' + [NodeSegment(nodeI)], [NodeSegment(nodeI)];
        nodeR' := nodeI;
      }
    }
  }

  /** Appends to `res` the segments for `path`.  `r` is the position the appended
      segments pin; the rest of the walk is the unique shortest one. */
  method MinSeg(g: Graph, path: seq<Node>, res: seq<Segment>)
    returns (ok: bool, res': seq<Segment>, ghost added: seq<Segment>, ghost r: int)
    requires Routable(g) && (path != [] ==> Walk(IgpNet(g), path) && path[0] in g.nodes)
    ensures ok && res' == res + added
    ensures AdjSound(IgpNet(g), added) && UsesMinEdges(g.minEdges, added)
    ensures path != [] && AllPinnable(IgpNet(g), path) ==> LegInv(IgpNet(g), path, |path| - 1, r, added)
  {
    ghost var net := IgpNet(g);
    ok, res', added, r := true, res, [], 0;
    if path == [] {
      return;
    }
    var nodeR := path[0];
    var k := 0;
    LegStart(net, path);
    while k < |path| - 1
      invariant res' == res + added
      invariant SoFar(g, path, k, r, nodeR, added)
    {
      res', nodeR, added, r := NextHop(g, path, k, nodeR, res, res', added, r);
      k := k + 1;
    }
  }

  method NextHop(g: Graph, path: seq<Node>, k: nat, nodeR: Node, ghost res: seq<Segment>, segs: seq<Segment>,
                 ghost added: seq<Segment>, ghost r: int)
    returns (segs': seq<Segment>, nodeR': Node, ghost added': seq<Segment>, ghost r': int)
    requires Routable(g) && Walk(IgpNet(g), path) && k + 1 < |path|
    requires segs == res + added && SoFar(g, path, k, r, nodeR, added)
    ensures segs' == res + added' && SoFar(g, path, k + 1, r', nodeR', added')
  {
    assert (path[k], path[k+1]) in IgpNet(g);
    ghost var new';
    segs', nodeR', new' := CompileHop(g, nodeR, path[k], path[k+1], segs);
    AppendAssoc(res, added, new');
    added', r' := AdvanceSoFar(g, path, k, r, nodeR, added, new', nodeR');
  }

  lemma AdvanceSoFar(g: Graph, path: seq<Node>, k: nat, r: nat, nodeR: Node, segs: seq<Segment>, added: seq<Segment>,
                     nodeR': Node)
    returns (segs': seq<Segment>, r': nat)
    requires Routable(g) && Walk(IgpNet(g), path) && k + 1 < |path| && SoFar(g, path, k, r, nodeR, segs)
    requires HopDone(IgpNet(g), g.minEdges, nodeR, path[k], path[k+1], added, nodeR')
    ensures segs' == segs + added && SoFar(g, path, k + 1, r', nodeR', segs')
  {
    assert (path[k], path[k+1]) in IgpNet(g);
    MinEdgeEnds(g, path[k], path[k+1]);
    segs' := segs + added;
    r' := HopStep(IgpNet(g), g.minEdges, path, k, r, segs, added, nodeR');
  }

  lemma AppendAssoc<T>(a: seq<T>, b: seq<T>, c: seq<T>)
    ensures (a + b) + c == a + (b + c)
  {
  }

  ghost predicate SoFar(g: Graph, path: seq<Node>, k: int, r: int, nodeR: Node, segs: seq<Segment>)
    reads g
  {
    && 0 <= r <= k < |path| && nodeR == path[r]
    && path[k] in g.nodes && nodeR in g.nodes
    && AdjSound(IgpNet(g), segs) && UsesMinEdges(g.minEdges, segs)
    && (AllPinnable(IgpNet(g), path) ==> LegInv(IgpNet(g), path, k, r, segs))
  }

  /** One hop keeps the compiler's invariant. */
  lemma HopStep(net: Links, m: map<(Node, Node), Edge>, path: seq<Node>, k: nat, r: nat,
                segs: seq<Segment>, added: seq<Segment>, nodeR: Node) returns (r': nat)
    requires Positive(net) && r <= k && k + 1 < |path|
    requires (path[k], path[k+1]) in net && path[k] != path[k+1]
    requires (path[k], path[k+1]) in m ==>
      m[(path[k], path[k+1])].local == path[k] && m[(path[k], path[k+1])].remote == path[k+1]
    requires AdjSound(net, segs) && UsesMinEdges(m, segs)
    requires HopDone(net, m, path[r], path[k], path[k+1], added, nodeR)
    ensures r' <= k + 1 && nodeR == path[r']
    ensures AdjSound(net, segs + added) && UsesMinEdges(m, segs + added)
    ensures Pinnable(net, path[k], path[k+1]) && LegInv(net, path, k, r, segs) ==>
      LegInv(net, path, k + 1, r', segs + added)
  {
    var u, v := path[k], path[k+1];
    if Tight(net, path[r], u, v) && |TightPreds(net, path[r], v)| <= 1 {
      r' := r;
      assert segs + added == segs;
      if LegInv(net, path, k, r, segs) {
        Prolong(net, path, k, r);
        LegKeep(net, path, k, r, segs);
      }
    } else {
      HopUnique(net, u, v);
      assert path[k..k+2] == [u, v];
      if |TightPreds(net, u, v)| == 1 {
        r' := k;
        if Pinnable(net, u, v) && LegInv(net, path, k, r, segs) {
          Prolong(net, path, k, r);
          LegNode(net, path, k, r, segs);
        }
      } else {
        r' := k + 1;
        assert segs + added == segs + [NodeSegment(u)] + [AdjSegment(m[(u, v)])];
        if LegInv(net, path, k, r, segs) {
          Prolong(net, path, k, r);
          LegNodeAdj(net, path, k, r, segs, m[(u, v)]);
        }
      }
    }
  }

  /** The unique shortest walk can be prolonged exactly when the code's test says so. */
  lemma Prolong(net: Links, path: seq<Node>, k: nat, r: nat)
    requires Positive(net) && r <= k && k + 1 < |path| && UniqueShortest(net, path[r..k+1])
    ensures UniqueShortest(net, path[r..k+2]) <==>
      Tight(net, path[r], path[k], path[k+1]) && |TightPreds(net, path[r], path[k+1])| <= 1
  {
    var a, v := path[r..k+1], path[k+1];
    UniqueExtends(net, a, v);
    assert a + [v] == path[r..k+2];
    if Tight(net, path[r], path[k], v) {
      TightIsLink(net, path[r], path[k], v);
      assert TightPreds(net, path[r], v) != {};
    }
  }

  lemma HopUnique(net: Links, u: Node, v: Node)
    requires Positive(net)
    ensures UniqueShortest(net, [u, v]) ==> |TightPreds(net, u, v)| == 1
    ensures |TightPreds(net, u, v)| == 1 && Pinnable(net, u, v) ==> UniqueShortest(net, [u, v])
  {
    StayingIsShortest(net, u, [u]);
    UniqueExtends(net, [u], v);
    TightIffExtension(net, u, v, [u]);
    assert [u] + [v] == [u, v];
  }

  /* ---- Paths through waypoints ---- */

  /** The edges a path search may use: all, or those wide enough for the flow. */
  function UsableEdges(edges: seq<Edge>, prune: Option<uint32>): seq<Edge> {
    match prune
    case None => edges
    case Some(bandwidth) => if bandwidth == 0 then edges else WideEnough(edges, bandwidth)
  }

  ghost predicate SearchSafe(g: Graph, prune: Option<uint32>, ops: CostOps)
    reads g
  {
    forall m :: MinEdgesAre(g.NodeSet(), UsableEdges(g.edges, prune), m) ==>
      Positive(NetOf(m, ops)) && forall s :: s in g.nodes ==> PathSumsFit(NetOf(m, ops), s)
  }

  function AsNodeSegments(stops: seq<Node>): seq<Segment> {
    seq(|stops|, i requires 0 <= i < |stops| => NodeSegment(stops[i]))
  }

  /** `route` runs from `src` through the stops in order, each part being a shortest
      walk of the searched network: the way node segments for the stops would give. */
  ghost predicate RouteThrough(net: Links, src: Node, stops: seq<Node>, route: seq<Node>) {
    Forwards(net, src, AsNodeSegments(stops), route)
  }

  /** The graph searched for paths: the graph itself, or a pruned, finalized copy.  Its
      edges are those that offer the wanted bandwidth, `at` being their old places. */
  method SearchGraph(g: Graph, prune: Option<uint32>) returns (gc: Graph, ghost at: seq<nat>)
    requires g.Finalized()
    ensures gc == g || fresh(gc)
    ensures gc.Finalized() && gc.nodes == g.nodes && gc.edges == UsableEdges(g.edges, prune)
    ensures forall e :: e in gc.edges <==> e in g.edges && (prune.Some? ==> e.bandwidth >= prune.value)
    ensures |at| == |gc.edges| && forall i :: 0 <= i < |at| ==> at[i] < |g.edges| && gc.edges[i] == g.edges[at[i]]
    ensures forall i, j :: 0 <= i < j < |at| ==> at[i] < at[j]
    ensures forall k: nat :: k < |g.edges| ==> (k in at <==> prune.Some? ==> g.edges[k].bandwidth >= prune.value)
  {
    gc := g;
    if prune.Some? {
      gc := g.Clone();
      if prune.value != 0 {
        gc.Prune(prune.value);
      }
      WideEnoughIs(g.edges, prune.value);
      forall k | 0 <= k < |gc.edges| ensures gc.edges[k].local in gc.nodes && gc.edges[k].remote in gc.nodes {
        assert gc.edges[k] in g.edges;
      }
      gc.Finalize();
    }
    UsableMeans(g.edges, prune);
    at := UsablePlaces(g.edges, prune);
  }

  lemma UsablePlaces(edges: seq<Edge>, prune: Option<uint32>) returns (at: seq<nat>)
    ensures OffersAt(edges, if prune.Some? then prune.value else 0, UsableEdges(edges, prune), at)
  {
    if prune.Some? && prune.value != 0 {
      at := WideEnoughPlaces(edges, prune.value);
    } else {
      at := seq(|edges|, i => i);
      forall k: nat | k < |edges| ensures k in at {
        assert at[k] == k;
      }
    }
  }

  /** A bandwidth demand keeps the edges that offer as much, and no demand keeps all. */
  lemma UsableMeans(edges: seq<Edge>, prune: Option<uint32>)
    ensures forall e :: e in UsableEdges(edges, prune) <==>
      e in edges && (prune.Some? ==> e.bandwidth >= prune.value)
  {
    if prune.Some? {
      WideEnoughIs(edges, prune.value);
    }
  }

  /** A walk from `a` to `b` over links that offer what `prune` asks for. */
  ghost predicate OpenWalk(edges: seq<Edge>, prune: Option<uint32>, a: Node, b: Node, p: seq<Node>) {
    && |p| >= 1 && p[0] == a && p[|p|-1] == b
    && forall i :: 0 <= i < |p| - 1 ==> p[i] != p[i+1] && OpenHop(edges, prune, p[i], p[i+1])
  }

  ghost predicate OpenHop(edges: seq<Edge>, prune: Option<uint32>, u: Node, v: Node) {
    exists e :: e in edges && e.local == u && e.remote == v && e.metric < 0xFFFF_FFFF &&
      (prune.Some? ==> e.bandwidth >= prune.value)
  }

  /** The links a search sees are the hops that are open to the flow. */
  lemma OpenHopIsLink(g: Graph, prune: Option<uint32>, m: map<(Node, Node), Edge>, ops: CostOps, u: Node, v: Node)
    requires g.WellFormed() && MinEdgesAre(g.NodeSet(), UsableEdges(g.edges, prune), m)
    ensures (u, v) in NetOf(m, ops) <==> u != v && OpenHop(g.edges, prune, u, v)
  {
    UsableMeans(g.edges, prune);
    LinkedMeans(UsableEdges(g.edges, prune), u, v);
    if e :| e in g.edges && e.local == u && e.remote == v {
      assert u in g.nodes && v in g.nodes;
    }
    assert (u, v) in m <==> u in g.NodeSet() && v in g.NodeSet() && u != v && Linked(UsableEdges(g.edges, prune), u, v);
  }

  lemma OpenWalkIsWalk(g: Graph, prune: Option<uint32>, m: map<(Node, Node), Edge>, ops: CostOps,
                       a: Node, b: Node, p: seq<Node>)
    requires g.WellFormed() && MinEdgesAre(g.NodeSet(), UsableEdges(g.edges, prune), m)
    ensures WalkBetween(NetOf(m, ops), a, b, p) <==> OpenWalk(g.edges, prune, a, b, p)
  {
    hide MinEdgesAre, UsableEdges, NetOf, OpenHop;
    forall u: Node, v: Node ensures (u, v) in NetOf(m, ops) <==> u != v && OpenHop(g.edges, prune, u, v) {
      OpenHopIsLink(g, prune, m, ops, u, v);
    }
  }

  /** Pruning removes links but never adds one. */
  lemma UsableLinks(g: Graph, prune: Option<uint32>, m: map<(Node, Node), Edge>, ops: CostOps, p: seq<Node>)
    requires g.Finalized() && MinEdgesAre(g.NodeSet(), UsableEdges(g.edges, prune), m)
    requires Walk(NetOf(m, ops), p)
    ensures Walk(IgpNet(g), p)
  {
    if prune.Some? {
      WideEnoughIs(g.edges, prune.value);
    }
    var used := UsableEdges(g.edges, prune);
    forall i | 0 <= i < |p| - 1 ensures (p[i], p[i+1]) in IgpNet(g) {
      assert (p[i], p[i+1]) in NetOf(m, ops);
      assert (p[i], p[i+1]) in m;
      var k :| 0 <= k < |used| && Joins(used[k], p[i], p[i+1]);
      assert used[k] in g.edges;
      var j :| 0 <= j < |g.edges| && g.edges[j] == used[k];
      assert Joins(g.edges[j], p[i], p[i+1]);
      assert (p[i], p[i+1]) in g.minEdges;
    }
  }

  method PathsFrom(gc: Graph, ops: CostOps, cur: Node, stop: Node) returns (paths: seq<seq<Node>>)
    requires gc.Finalized() && cur in gc.nodes && stop in gc.nodes
    requires Positive(NetOf(gc.minEdges, ops)) && PathSumsFit(NetOf(gc.minEdges, ops), cur)
    ensures PathsOK(NetOf(gc.minEdges, ops), cur, stop, paths)
  {
    var gres := gc.Dijkstra(cur, ops);
    paths := gres.path[stop];
  }

  /** The first enumerated path from `cur` to `stop`, if there is any. */
  method FirstPath(gc: Graph, ops: CostOps, cur: Node, stop: Node) returns (path: Option<seq<Node>>)
    requires gc.Finalized() && cur in gc.nodes && stop in gc.nodes
    requires Positive(NetOf(gc.minEdges, ops)) && PathSumsFit(NetOf(gc.minEdges, ops), cur)
    ensures path.Some? <==> Reachable(NetOf(gc.minEdges, ops), cur, stop)
    ensures path.Some? ==> ShortestBetween(NetOf(gc.minEdges, ops), cur, stop, path.value)
  {
    var paths := PathsFrom(gc, ops, cur, stop);
    SomePathListed(NetOf(gc.minEdges, ops), cur, stop, paths);
    if paths == [] {
      return None;
    }
    path := Some([cur] + Reverse(paths[0]));
  }

  lemma {:induction false} ReverseTwice(s: seq<Node>)
    ensures Reverse(Reverse(s)) == s
    decreases s
  {
    if s != [] {
      ReverseTwice(s[1..]);
      ReverseAppend(Reverse(s[1..]), s[0]);
      assert s == [s[0]] + s[1..];
    }
  }

  lemma {:induction false} ReverseAppend(s: seq<Node>, x: Node)
    ensures Reverse(s + [x]) == [x] + Reverse(s)
    decreases s
  {
    if s == [] {
      assert s + [x] == [x];
    } else {
      assert (s + [x])[1..] == s[1..] + [x];
      ReverseAppend(s[1..], x);
    }
  }

  lemma SomePathListed(net: Links, s: Node, v: Node, paths: seq<seq<Node>>)
    requires PathsOK(net, s, v, paths)
    ensures paths == [] ==> !Reachable(net, s, v)
    ensures paths != [] ==> ShortestBetween(net, s, v, [s] + Reverse(paths[0])) && Reachable(net, s, v)
  {
    if paths != [] {
      assert paths[0] in paths;
      assert WalkBetween(net, s, v, [s] + Reverse(paths[0]));
    }
    if p :| WalkBetween(net, s, v, p) {
      ReachedIsListed(net, s, v, paths, p);
    }
  }

  lemma ReachedIsListed(net: Links, s: Node, v: Node, paths: seq<seq<Node>>, p: seq<Node>)
    requires PathsOK(net, s, v, paths) && WalkBetween(net, s, v, p)
    ensures paths != []
  {
    var q := ShortestExists(net, s, v, p);
    ReverseTwice(q[1..]);
    assert [s] + Reverse(Reverse(q[1..])) == q;
    assert Reverse(q[1..]) in paths;
  }

  /** Compiles one leg and closes it with a node segment for its end, unless an
      adjacency segment has already brought the packet there. */
  method CompileLeg(g: Graph, leg: seq<Node>, res: seq<Segment>)
    returns (ok: bool, res': seq<Segment>, ghost added: seq<Segment>)
    requires Routable(g) && Walk(IgpNet(g), leg) && leg[0] in g.nodes
    requires leg[0] == leg[|leg|-1] ==> |leg| == 1
    requires res != [] ==> Target(res[|res|-1]) == leg[0]
    ensures ok && res' == res + added
    ensures res' != [] && Target(res'[|res'|-1]) == leg[|leg|-1]
    ensures AdjSound(IgpNet(g), added) && UsesMinEdges(g.minEdges, added)
    ensures AllPinnable(IgpNet(g), leg) ==> Forces(IgpNet(g), leg[0], added, leg) && Fewest(IgpNet(g), leg, added)
  {
    ghost var r;
    ghost var pinned;
    ok, res', pinned, r := MinSeg(g, leg, res);
    if !ok {
      added := pinned;
      return;
    }
    CloseLeg(IgpNet(g), leg, r, res, pinned);
    res', added := AddStop(leg[|leg|-1], res', res, pinned);
  }

  ghost predicate EndsByAdjacency(segs: seq<Segment>, stop: Node) {
    segs != [] && segs[|segs|-1].AdjSegment? && segs[|segs|-1].edge.remote == stop
  }

  method AddStop(stop: Node, segs: seq<Segment>, ghost res: seq<Segment>, ghost pinned: seq<Segment>)
    returns (segs': seq<Segment>, ghost added: seq<Segment>)
    requires segs == res + pinned
    ensures segs' == res + added && segs' != [] && Target(segs'[|segs'|-1]) == stop
    ensures if EndsByAdjacency(segs, stop) then added == pinned else added == pinned + [NodeSegment(stop)]
    ensures forall s :: s in added && s.AdjSegment? ==> s in pinned
  {
    segs', added := segs, pinned;
    if segs == [] || !(segs[|segs|-1].AdjSegment? && segs[|segs|-1].edge.remote == stop) {
      AppendAssoc(res, pinned, [NodeSegment(stop)]);
      segs' := segs + [NodeSegment(stop)];
      added := pinned + [NodeSegment(stop)];
    }
  }

  lemma CloseLeg(net: Links, leg: seq<Node>, r: int, res: seq<Segment>, added: seq<Segment>)
    requires Positive(net) && |leg| >= 1
    requires leg[0] == leg[|leg|-1] ==> |leg| == 1
    requires res != [] ==> Target(res[|res|-1]) == leg[0]
    requires AllPinnable(net, leg) ==> LegInv(net, leg, |leg| - 1, r, added)
    ensures var stop, res' := leg[|leg|-1], res + added;
      AllPinnable(net, leg) ==>
        && Forces(net, leg[0], added + [NodeSegment(stop)], leg)
        && Fewest(net, leg, added + [NodeSegment(stop)])
        && (EndsByAdjacency(res', stop) ==>
              Forces(net, leg[0], added, leg) && Fewest(net, leg, added))
  {
    if AllPinnable(net, leg) {
      LegEnds(net, leg, r, added);
      LegAtEnd(net, leg, r, added);
      if added == [] {
        assert res + added == res;
      }
    }
  }

  lemma LegAtEnd(net: Links, leg: seq<Node>, r: int, segs: seq<Segment>)
    requires Positive(net) && LegInv(net, leg, |leg| - 1, r, segs)
    ensures leg[r] == leg[|leg|-1] ==> r == |leg| - 1
  {
    if leg[r] == leg[|leg|-1] {
      assert OnlyShortest(net, leg[r], leg[r], leg[r..|leg|]);
      StayingIsShortest(net, leg[r], leg[r..|leg|]);
    }
  }

  /** The edges along a node path, unless some consecutive pair has none. */
  method NodesToEdges(g: Graph, path: seq<Node>) returns (res: Option<seq<Edge>>)
    ensures res.Some? <==> forall i :: 0 <= i < |path| - 1 ==> (path[i], path[i+1]) in g.minEdges
    ensures res.Some? && path != [] ==> EdgesAlong(g.minEdges, path, res.value)
  {
    if path == [] {
      return Some([]);
    }
    var es: seq<Edge> := [];
    var i := 0;
    while i < |path| - 1
      invariant 0 <= i < |path| && |es| == i
      invariant forall j :: 0 <= j < i ==>
        (path[j], path[j+1]) in g.minEdges && es[j] == g.minEdges[(path[j], path[j+1])]
    {
      if (path[i], path[i+1]) !in g.minEdges {
        return None;
      }
      es := es + [g.minEdges[(path[i], path[i+1])]];
      i := i + 1;
    }
    res := Some(es);
  }

  ghost predicate EdgesAlong(m: map<(Node, Node), Edge>, path: seq<Node>, es: seq<Edge>) {
    |es| + 1 == |path| && forall j :: 0 <= j < |es| ==> (path[j], path[j+1]) in m && es[j] == m[(path[j], path[j+1])]
  }
}
