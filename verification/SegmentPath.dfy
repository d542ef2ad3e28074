/** Building the segment list for a flow: shortest paths through the waypoints,
    compiled leg by leg.  The main theorem is on `BuildSegPath`. */
module SegmentPath {
  import opened Wrappers
  import opened Network
  import opened ShortestPathDag
  import opened Graphs
  import opened SegmentRouting
  import opened MinSegSpec
  import opened SegmentEngine

  /** Follows one walk with another that starts where it ends. */
  function Onto(a: seq<Node>, b: seq<Node>): seq<Node>
    requires b != []
  {
    a + b[1..]
  }

  lemma OntoParts(a: seq<Node>, b: seq<Node>)
    requires a != [] && b != [] && a[|a|-1] == b[0]
    ensures var p, k := Onto(a, b), |a| - 1; p != [] && k < |p| && p[..k+1] == a && p[k..] == b
  {
  }

  lemma WalkOnto(net: Links, a: seq<Node>, b: seq<Node>)
    requires Walk(net, a) && Walk(net, b) && a[|a|-1] == b[0]
    ensures Walk(net, Onto(a, b)) && Onto(a, b)[0] == a[0] && Onto(a, b)[|Onto(a, b)|-1] == b[|b|-1]
  {
    CostJoin(net, a, b);
  }

  lemma PinnableOnto(net: Links, a: seq<Node>, b: seq<Node>)
    requires a != [] && b != [] && a[|a|-1] == b[0]
    ensures AllPinnable(net, Onto(a, b)) ==> AllPinnable(net, a) && AllPinnable(net, b)
  {
    OntoParts(a, b);
    var p, k := Onto(a, b), |a| - 1;
    if AllPinnable(net, p) {
      forall j | 0 <= j < |a| - 1 ensures Pinnable(net, a[j], a[j+1]) {
        assert a[j] == p[j] && a[j+1] == p[j+1];
      }
      forall j | 0 <= j < |b| - 1 ensures Pinnable(net, b[j], b[j+1]) {
        assert b[j] == p[k+j] && b[j+1] == p[k+j+1];
      }
    }
  }

  /** The route through one more stop. */
  lemma RouteGrows(net: Links, src: Node, stops: seq<Node>, i: nat, route: seq<Node>, leg: seq<Node>)
    requires i < |stops| && RouteThrough(net, src, stops[..i], route)
    requires route != [] && ShortestBetween(net, route[|route|-1], stops[i], leg)
    ensures RouteThrough(net, src, stops[..i+1], Onto(route, leg))
  {
    var a, s := AsNodeSegments(stops[..i]), NodeSegment(stops[i]);
    assert AsNodeSegments(stops[..i+1]) == a + [s];
    OntoParts(route, leg);
    ForwardsEnds(net, src, a, route);
    ForwardsOne(net, route[|route|-1], s, leg);
    ForwardsJoin(net, src, a, [s], Onto(route, leg), |route| - 1);
  }

  /** Where the loop over the stops stands. */
  ghost predicate Progress(net: Links, m: map<(Node, Node), Edge>, gnet: Links, src: Node, stops: seq<Node>, i: nat,
                           route: seq<Node>, segs: seq<Segment>) {
    && i <= |stops|
    && Walk(net, route) && RouteThrough(gnet, src, stops[..i], route)
    && route[0] == src && route[|route|-1] == (if i == 0 then src else stops[i-1])
    && AdjSound(net, segs) && UsesMinEdges(m, segs)
    && (AllPinnable(net, route) ==> Forces(net, src, segs, route))
    && (segs == [] <==> i == 0) && (i > 0 ==> Target(segs[|segs|-1]) == stops[i-1])
    && (i == 1 && AllPinnable(net, route) ==> Fewest(net, route, segs))
  }

  lemma RouteThere(net: Links, m: map<(Node, Node), Edge>, gnet: Links, src: Node, stops: seq<Node>, i: nat,
                   route: seq<Node>, segs: seq<Segment>)
    requires Progress(net, m, gnet, src, stops, i, route, segs)
    ensures route != [] && (segs != [] ==> Target(segs[|segs|-1]) == route[|route|-1])
  {
  }

  lemma ProgressStarts(net: Links, m: map<(Node, Node), Edge>, gnet: Links, src: Node, stops: seq<Node>)
    ensures Progress(net, m, gnet, src, stops, 0, [src], [])
  {
    assert AsNodeSegments(stops[..0]) == [];
    assert Forces(net, src, [], [src]);
  }

  lemma ProgressStep(net: Links, m: map<(Node, Node), Edge>, gnet: Links, src: Node, stops: seq<Node>, i: nat,
                     route: seq<Node>, segs: seq<Segment>, leg: seq<Node>, added: seq<Segment>)
    requires Progress(net, m, gnet, src, stops, i, route, segs) && i < |stops|
    requires ShortestBetween(gnet, route[|route|-1], stops[i], leg) && Walk(net, leg)
    requires AdjSound(net, added) && UsesMinEdges(m, added)
    requires segs + added != [] && Target((segs + added)[|segs + added|-1]) == stops[i]
    requires AllPinnable(net, leg) ==> Forces(net, leg[0], added, leg) && Fewest(net, leg, added)
    ensures Progress(net, m, gnet, src, stops, i + 1, Onto(route, leg), segs + added)
  {
    WalkOnto(net, route, leg);
    RouteGrows(gnet, src, stops, i, route, leg);
    PinnableOnto(net, route, leg);
    OntoParts(route, leg);
    var route' := Onto(route, leg);
    if AllPinnable(net, route') {
      assert Forwards(net, src, segs, route);
      ForwardsEnds(net, src, segs, route);
      ForcesJoin(net, src, segs, added, route', |route| - 1);
      if i == 0 {
        FirstLegAlone(net, gnet, src, stops, route, leg, segs, added);
      }
    }
  }

  lemma FirstLegAlone(net: Links, gnet: Links, src: Node, stops: seq<Node>, route: seq<Node>, leg: seq<Node>,
                      segs: seq<Segment>, added: seq<Segment>)
    requires RouteThrough(gnet, src, stops[..0], route) && leg != [] && leg[0] == src
    requires segs == [] && Fewest(net, leg, added)
    ensures Fewest(net, Onto(route, leg), segs + added)
  {
    assert AsNodeSegments(stops[..0]) == [];
    assert route == [src];
    assert Onto(route, leg) == leg && segs + added == added;
  }

  /** The outcome for a flow from `src` to `dst` through `via`, when path search works on
      the minimal edges `m` and forwarding on the network `net`. */
  ghost predicate SegPathRight(net: Links, m0: map<(Node, Node), Edge>, gnet: Links, src: Node, via: seq<Node>,
                               dst: Node,
                               route: seq<Node>, segs: seq<Segment>) {
    && RouteThrough(gnet, src, via + [dst], route) && Walk(net, route) && route[0] == src
    && UsesMinEdges(m0, segs)
    && (Forces(net, src, segs, route) <==> AllPinnable(net, route))
    && (via == [] && AllPinnable(net, route) ==> Fewest(net, route, segs))
  }

  /** The edges a search is run on: the least metric among those open to the flow. */
  lemma OpenMinEdges(g: Graph, prune: Option<uint32>, m: map<(Node, Node), Edge>)
    requires MinEdgesAre(g.NodeSet(), UsableEdges(g.edges, prune), m)
    ensures forall u, v :: (u, v) in m ==>
      var e := m[(u, v)];
      && e in g.edges && e.local == u && e.remote == v && (prune.Some? ==> e.bandwidth >= prune.value)
      && (forall f :: f in g.edges && f.local == u && f.remote == v && (prune.Some? ==> f.bandwidth >= prune.value) ==>
            e.metric <= f.metric)
  {
    UsableMeans(g.edges, prune);
    MinEdgesMean(g.NodeSet(), UsableEdges(g.edges, prune), m);
  }

  /** An open walk leads to the stop of index `i` from the one before it. */
  ghost predicate StopOpen(edges: seq<Edge>, prune: Option<uint32>, src: Node, stops: seq<Node>, i: nat) {
    i < |stops| &&
    var a := if i == 0 then src else stops[i-1];
    exists p :: OpenWalk(edges, prune, a, stops[i], p)
  }

  lemma ReachedMeans(g: Graph, prune: Option<uint32>, m: map<(Node, Node), Edge>, ops: CostOps, src: Node,
                     stops: seq<Node>)
    requires g.WellFormed() && MinEdgesAre(g.NodeSet(), UsableEdges(g.edges, prune), m)
    ensures StopsReached(NetOf(m, ops), src, stops, |stops|) <==>
      forall i :: 0 <= i < |stops| ==> StopOpen(g.edges, prune, src, stops, i)
  {
    hide MinEdgesAre, NetOf, WalkBetween, OpenWalk, UsableEdges;
    var gnet := NetOf(m, ops);
    forall i: nat | i < |stops| ensures StopReached(gnet, src, stops, i) <==> StopOpen(g.edges, prune, src, stops, i) {
      var a := StopBefore(src, stops, i);
      forall p ensures WalkBetween(gnet, a, stops[i], p) <==> OpenWalk(g.edges, prune, a, stops[i], p) {
        OpenWalkIsWalk(g, prune, m, ops, a, stops[i], p);
      }
    }
  }

  /** A route through stops runs over open links and ends at the last stop. */
  lemma RouteMeans(g: Graph, prune: Option<uint32>, m: map<(Node, Node), Edge>, ops: CostOps, src: Node,
                   stops: seq<Node>, route: seq<Node>)
    requires g.WellFormed() && MinEdgesAre(g.NodeSet(), UsableEdges(g.edges, prune), m) && stops != []
    requires RouteThrough(NetOf(m, ops), src, stops, route)
    ensures OpenWalk(g.edges, prune, src, stops[|stops|-1], route)
  {
    hide MinEdgesAre, NetOf, UsableEdges, OpenWalk;
    var segs := AsNodeSegments(stops);
    ForwardsEnds(NetOf(m, ops), src, segs, route);
    assert segs[|segs|-1] == NodeSegment(stops[|stops|-1]);
    ForwardsWalk(NetOf(m, ops), src, segs, route);
    OpenWalkIsWalk(g, prune, m, ops, src, stops[|stops|-1], route);
  }

  lemma RouteIsOpen(g: Graph, prune: Option<uint32>, m: map<(Node, Node), Edge>, ops: CostOps, src: Node,
                    via: seq<Node>, dst: Node, route: seq<Node>, segs: seq<Segment>)
    requires g.WellFormed() && MinEdgesAre(g.NodeSet(), UsableEdges(g.edges, prune), m)
    requires SegPathRight(IgpNet(g), g.minEdges, NetOf(m, ops), src, via, dst, route, segs)
    ensures OpenWalk(g.edges, prune, src, dst, route)
  {
    RouteMeans(g, prune, m, ops, src, via + [dst], route);
  }

  lemma {:induction false} ForwardsWalk(net: Links, cur: Node, segs: seq<Segment>, p: seq<Node>)
    requires Forwards(net, cur, segs, p)
    ensures Walk(net, p)
    decreases segs
  {
    if segs != [] {
      var k := FirstLeg(net, cur, segs, p);
      ForwardsWalk(net, Target(segs[0]), segs[1..], p[k..]);
      assert p[..k+1] + p[k..][1..] == p;
      CostJoin(net, p[..k+1], p[k..]);
    }
  }

  /** Builds the segment list for a flow, with the edges along its path.

      It fails exactly when some stop cannot be reached from the one before over links
      that offer the wanted bandwidth.
      Otherwise the list forwards every packet along the chosen route and along no
      other, if and only if every hop of the route can be pinned; and for a flow
      without waypoints no shorter list does so. */
  method BuildSegPath(g: Graph, src: Node, dst: Node, via: seq<Node>, prune: Option<uint32>, ops: CostOps)
    returns (segs: Option<seq<Segment>>, epath: Option<seq<Edge>>, ghost route: seq<Node>,
             ghost m: map<(Node, Node), Edge>)
    requires Routable(g) && SearchSafe(g, prune, ops)
    requires src in g.nodes && dst in g.nodes && forall v :: v in via ==> v in g.nodes
    ensures MinEdgesAre(g.NodeSet(), UsableEdges(g.edges, prune), m)
    ensures forall u, v :: (u, v) in m ==>
      var e := m[(u, v)];
      && e in g.edges && e.local == u && e.remote == v && (prune.Some? ==> e.bandwidth >= prune.value)
      && (forall f :: f in g.edges && f.local == u && f.remote == v && (prune.Some? ==> f.bandwidth >= prune.value) ==>
            e.metric <= f.metric)
    ensures segs.Some? ==> OpenWalk(g.edges, prune, src, dst, route)
    ensures segs.None? <==> exists i :: 0 <= i <= |via| && !StopOpen(g.edges, prune, src, via + [dst], i)
    ensures segs.Some? <==> StopsReached(NetOf(m, ops), src, via + [dst], |via| + 1)
    ensures segs.Some? ==> SegPathRight(IgpNet(g), g.minEdges, NetOf(m, ops), src, via, dst, route, segs.value)
    ensures segs.Some? && via == [] ==> epath.Some? && EdgesAlong(g.minEdges, route, epath.value)
    ensures segs.Some? && via == [] ==>
      && |epath.value| + 1 == |route|
      && forall j :: 0 <= j < |epath.value| ==>
        epath.value[j] in g.edges && epath.value[j].local == route[j] && epath.value[j].remote == route[j+1]
    ensures segs.Some? && via != [] ==> epath.None?
  {
    hide MinEdgesAre, NeighsAre, StopOpen, OpenWalk, Progress, FullPath, UsableEdges, SegPathRight, EdgesAlong;
    var gc, _ := SearchGraph(g, prune);
    m := gc.minEdges;
    var path := via + [dst];
    OpenMinEdges(g, prune, m);
    ReachedMeans(g, prune, m, ops, src, path);
    assert forall i :: 0 <= i < |path| ==> path[i] in g.nodes;
    assert path[..|path|-1] == via;
    var ok, res, fpath;
    ok, res, fpath, route := BuildLegs(g, gc, prune, ops, src, path);
    if !ok {
      return None, None, route, m;
    }
    segs := Some(res);
    epath := NodesToEdges(g, fpath);
    Outcome(g, NetOf(m, ops), src, path, route, res, fpath);
    RouteIsOpen(g, prune, m, ops, src, via, dst, route, res);
    if via == [] {
      EdgesMean(g, route, epath.value);
    }
  }

  lemma EdgesMean(g: Graph, route: seq<Node>, es: seq<Edge>)
    requires g.Finalized() && EdgesAlong(g.minEdges, route, es)
    ensures |es| + 1 == |route|
    ensures forall j :: 0 <= j < |es| ==> es[j] in g.edges && es[j].local == route[j] && es[j].remote == route[j+1]
  {
    MinEdgesMean(g.NodeSet(), g.edges, g.minEdges);
    forall j | 0 <= j < |es| ensures es[j] in g.edges && es[j].local == route[j] && es[j].remote == route[j+1] {
      assert (route[j], route[j+1]) in g.minEdges;
    }
  }

  /** The loop over the stops. */
  method BuildLegs(g: Graph, gc: Graph, prune: Option<uint32>, ops: CostOps, src: Node, path: seq<Node>)
    returns (ok: bool, res: seq<Segment>, fpath: seq<Node>, ghost route: seq<Node>)
    requires Searchable(g, gc, prune, ops)
    requires src in g.nodes && path != [] && forall i :: 0 <= i < |path| ==> path[i] in g.nodes
    ensures ok <==> StopsReached(NetOf(gc.minEdges, ops), src, path, |path|)
    ensures ok ==> Stage(g, NetOf(gc.minEdges, ops), src, path, |path|, path[|path|-1], route, res, fpath)
  {
    ghost var gnet := NetOf(gc.minEdges, ops);
    var curNode := src;
    res, fpath, route := [], [], [src];
    ProgressStarts(IgpNet(g), g.minEdges, gnet, src, path);
    var i := 0;
    while i < |path|
      invariant i <= |path| && curNode in g.nodes && curNode == StopBefore(src, path, i)
      invariant Stage(g, gnet, src, path, i, curNode, route, res, fpath)
      invariant StopsReached(gnet, src, path, i)
    {
      ok, res, fpath, route := AddLeg(g, gc, prune, ops, src, path, i, curNode, res, fpath, route);
      ReachedNext(gnet, src, path, i, ok);
      if !ok {
        return;
      }
      curNode := path[i];
      i := i + 1;
    }
    ok := true;
  }

  ghost predicate Stage(g: Graph, gnet: Links, src: Node, path: seq<Node>, i: nat, curNode: Node,
                        route: seq<Node>, res: seq<Segment>, fpath: seq<Node>)
    reads g
  {
    && Progress(IgpNet(g), g.minEdges, gnet, src, path, i, route, res)
    && curNode == route[|route|-1] && FullPath(i, route, fpath)
  }

  ghost predicate Searchable(g: Graph, gc: Graph, prune: Option<uint32>, ops: CostOps)
    reads g, gc
  {
    && Routable(g)
    && gc.Finalized() && gc.nodes == g.nodes && gc.edges == UsableEdges(g.edges, prune)
    && Positive(NetOf(gc.minEdges, ops)) && forall s :: s in g.nodes ==> PathSumsFit(NetOf(gc.minEdges, ops), s)
  }

  /** One round of the loop over the stops. */
  method AddLeg(g: Graph, gc: Graph, prune: Option<uint32>, ops: CostOps, ghost src: Node,
                path: seq<Node>, i: nat, curNode: Node,
                res: seq<Segment>, fpath: seq<Node>, ghost route: seq<Node>)
    returns (ok: bool, res': seq<Segment>, fpath': seq<Node>, ghost route': seq<Node>)
    requires Searchable(g, gc, prune, ops)
    requires i < |path| && curNode in g.nodes && path[i] in g.nodes
    requires Stage(g, NetOf(gc.minEdges, ops), src, path, i, curNode, route, res, fpath)
    ensures ok <==> Reachable(NetOf(gc.minEdges, ops), curNode, path[i])
    ensures ok ==> Stage(g, NetOf(gc.minEdges, ops), src, path, i + 1, path[i], route', res', fpath')
  {
    hide Progress, FullPath, PathSumsFit, MinEdgesAre, NeighsAre;
    res', fpath', route' := res, fpath, route;
    RouteThere(IgpNet(g), g.minEdges, NetOf(gc.minEdges, ops), src, path, i, route, res);
    var leg := FirstPath(gc, ops, curNode, path[i]);
    if leg.None? {
      return false, res, fpath, route;
    }
    LegFacts(g, prune, gc.minEdges, ops, curNode, path[i], leg.value);
    ghost var added;
    ok, res', added := CompileLeg(g, leg.value, res);
    ProgressStep(IgpNet(g), g.minEdges, NetOf(gc.minEdges, ops), src, path, i, route, res, leg.value, added);
    FullPathGrows(IgpNet(g), i, route, fpath, leg.value);
    fpath' := fpath + leg.value;
    route' := Onto(route, leg.value);
  }

  function StopBefore(src: Node, stops: seq<Node>, i: nat): Node
    requires i <= |stops|
  {
    if i == 0 then src else stops[i-1]
  }

  ghost predicate StopReached(gnet: Links, src: Node, stops: seq<Node>, i: nat) {
    i < |stops| && Reachable(gnet, StopBefore(src, stops, i), stops[i])
  }

  lemma LegFacts(g: Graph, prune: Option<uint32>, m: map<(Node, Node), Edge>, ops: CostOps, cur: Node, stop: Node,
                 leg: seq<Node>)
    requires g.Finalized() && MinEdgesAre(g.NodeSet(), UsableEdges(g.edges, prune), m) && Positive(NetOf(m, ops))
    requires ShortestBetween(NetOf(m, ops), cur, stop, leg)
    ensures Walk(IgpNet(g), leg)
    ensures leg[0] == leg[|leg|-1] ==> |leg| == 1
  {
    UsableLinks(g, prune, m, ops, leg);
    if cur == stop {
      StayingIsShortest(NetOf(m, ops), cur, leg);
    }
  }

  /** Each of the first `n` stops can be reached from the one before it. */
  ghost predicate StopsReached(gnet: Links, src: Node, stops: seq<Node>, n: nat) {
    forall j :: 0 <= j < n ==> StopReached(gnet, src, stops, j)
  }

  lemma ReachedNext(gnet: Links, src: Node, stops: seq<Node>, i: nat, ok: bool)
    requires StopsReached(gnet, src, stops, i) && i < |stops|
    requires ok <==> Reachable(gnet, StopBefore(src, stops, i), stops[i])
    ensures if ok then StopsReached(gnet, src, stops, i + 1) else !StopsReached(gnet, src, stops, |stops|)
  {
    assert StopReached(gnet, src, stops, i) <==> ok;
  }

  /** The node list kept for the edge path repeats every waypoint. */
  ghost predicate FullPath(i: nat, route: seq<Node>, fpath: seq<Node>) {
    && (i == 0 ==> fpath == [] && |route| == 1)
    && (i == 1 ==> fpath == route)
    && (i > 0 ==> fpath != [] && route != [] && fpath[|fpath|-1] == route[|route|-1])
    && (i > 1 ==> exists j :: 0 <= j < |fpath| - 1 && fpath[j] == fpath[j+1])
  }

  lemma FullPathGrows(net: Links, i: nat, route: seq<Node>, fpath: seq<Node>, leg: seq<Node>)
    requires FullPath(i, route, fpath) && Walk(net, leg) && route != [] && leg[0] == route[|route|-1]
    ensures FullPath(i + 1, Onto(route, leg), fpath + leg)
  {
    var fpath' := fpath + leg;
    if i == 0 {
      assert Onto(route, leg) == leg && fpath' == leg;
    } else if i == 1 {
      assert fpath'[|fpath|-1] == fpath'[|fpath|];
    } else {
      var j :| 0 <= j < |fpath| - 1 && fpath[j] == fpath[j+1];
      assert fpath'[j] == fpath'[j+1];
    }
  }

  lemma Outcome(g: Graph, gnet: Links, src: Node, stops: seq<Node>, route: seq<Node>, segs: seq<Segment>,
                fpath: seq<Node>)
    requires g.Finalized() && stops != []
    requires Progress(IgpNet(g), g.minEdges, gnet, src, stops, |stops|, route, segs)
    requires FullPath(|stops|, route, fpath)
    ensures SegPathRight(IgpNet(g), g.minEdges, gnet, src, stops[..|stops|-1], stops[|stops|-1], route, segs)
    ensures |stops| == 1 ==> fpath == route && forall j :: 0 <= j < |fpath| - 1 ==> (fpath[j], fpath[j+1]) in g.minEdges
    ensures |stops| > 1 ==> exists j :: 0 <= j < |fpath| - 1 && (fpath[j], fpath[j+1]) !in g.minEdges
  {
    EdgesOutcome(g, |stops|, route, fpath);
    hide Forces, Fewest, RouteThrough, Pinnable, FullPath;
    AllStops(stops);
    if !AllPinnable(IgpNet(g), route) {
      UnpinnedBreaks(IgpNet(g), route, segs);
    }
  }

  lemma AllStops(stops: seq<Node>)
    requires stops != []
    ensures stops[..|stops|] == stops && stops[..|stops|-1] + [stops[|stops|-1]] == stops
  {
  }

  lemma EdgesOutcome(g: Graph, n: nat, route: seq<Node>, fpath: seq<Node>)
    requires g.Finalized() && n >= 1 && FullPath(n, route, fpath) && Walk(IgpNet(g), route)
    ensures n == 1 ==> fpath == route && forall j :: 0 <= j < |fpath| - 1 ==> (fpath[j], fpath[j+1]) in g.minEdges
    ensures n > 1 ==> exists j :: 0 <= j < |fpath| - 1 && (fpath[j], fpath[j+1]) !in g.minEdges
  {
    if n > 1 {
      var j :| 0 <= j < |fpath| - 1 && fpath[j] == fpath[j+1];
      assert (fpath[j], fpath[j+1]) !in g.minEdges;
    }
    forall j | 0 <= j < |route| - 1 ensures (route[j], route[j+1]) in g.minEdges {
      assert (route[j], route[j+1]) in IgpNet(g);
    }
  }
}
