/** Two parallel links, a cheap thin one and a dear wide one: the path for a flow is sought
    over the wide link, but the edges that are given back for it are looked up in the whole
    graph and name the thin one. */
module ParallelLinks {
  import opened Wrappers
  import opened Network
  import opened ShortestPathDag
  import opened Graphs
  import opened SegmentRouting
  import opened SegmentEngine
  import opened SegmentPath

  const THIN: Edge := Edge(0, 0, 1, 1, 1, 0)
  const WIDE: Edge := Edge(1, 0, 1, 2, 1, 100)

  /** Only one hop is possible. */
  lemma OneHop(net: Links)
    requires forall e :: e in net ==> e == (0, 1) && 1 <= net[e] <= 2
    ensures Positive(net) && forall s :: PathSumsFit(net, s)
  {
    forall p | Walk(net, p) ensures Cost(net, p) < UINT32_MAX {
      forall i | 1 <= i < |p| ensures p[i] == 1 {
        assert (p[i-1], p[i]) in net;
      }
      forall i | 0 <= i < |p| - 1 ensures p[i] == 0 {
        assert (p[i], p[i+1]) in net;
      }
      if |p| == 2 {
        assert Cost(net, p[..1]) == 0;
      }
    }
  }

  /** What is searched, with all links or with some. */
  lemma SearchedNet(edges: seq<Edge>, m: map<(Node, Node), Edge>)
    requires MinEdgesAre(ToSet([0, 1]), edges, m) && forall e :: e in edges ==> e == THIN || e == WIDE
    ensures var net := NetOf(m, IgpMetric); Positive(net) && forall s :: PathSumsFit(net, s)
  {
    MinEdgesMean(ToSet([0, 1]), edges, m);
    hide MinEdgesAre;
    forall e | e in NetOf(m, IgpMetric) ensures e == (0, 1) && 1 <= NetOf(m, IgpMetric)[e] <= 2 {
      assert (e.0, e.1) in m && m[(e.0, e.1)] in edges;
    }
    OneHop(NetOf(m, IgpMetric));
  }

  lemma HopIs(u: Node, v: Node)
    ensures OpenHop([THIN, WIDE], Some(100), u, v) <==> u == 0 && v == 1
  {
    assert WIDE in [THIN, WIDE];
  }

  lemma RouteIs(p: seq<Node>)
    ensures OpenWalk([THIN, WIDE], Some(100), 0, 1, p) <==> p == [0, 1]
  {
    HopIs(0, 1);
    if OpenWalk([THIN, WIDE], Some(100), 0, 1, p) {
      HopIs(p[0], p[1]);
      if |p| >= 3 {
        HopIs(p[1], p[2]);
      }
    }
  }

  method TwoLinks() returns (g: Graph)
    ensures fresh(g) && g.nodes == [0, 1] && g.edges == [THIN, WIDE]
    ensures Routable(g) && SearchSafe(g, Some(100), IgpMetric)
  {
    g := new Graph([0, 1], [THIN, WIDE]);
    g.Finalize();
    SearchedNet(g.edges, g.minEdges);
    hide MinEdgesAre, Positive, PathSumsFit;
    UsableMeans(g.edges, Some(100));
    forall m | MinEdgesAre(g.NodeSet(), UsableEdges(g.edges, Some(100)), m)
      ensures Positive(NetOf(m, IgpMetric)) && forall s :: s in g.nodes ==> PathSumsFit(NetOf(m, IgpMetric), s)
    {
      SearchedNet(UsableEdges(g.edges, Some(100)), m);
    }
  }

  /** A flow that asks for a bandwidth of 100 gets a segment list, and as its edges the one
      link that offers nothing. */
  method ThinEdge() returns (segs: Option<seq<Segment>>, epath: Option<seq<Edge>>)
    ensures segs.Some? && epath == Some([THIN]) && THIN.bandwidth < 100
  {
    hide MinEdgesAre, NeighsAre, SegPathRight, StopsReached, OpenWalk, StopOpen, Positive, PathSumsFit, SearchSafe;
    var g := TwoLinks();
    ghost var route, m;
    segs, epath, route, m := BuildSegPath(g, 0, 1, [], Some(100), IgpMetric);
    OneStop();
    RouteIs(route);
    MinEdgesMean(g.NodeSet(), g.edges, g.minEdges);
    assert THIN in g.edges && epath.value[0] == g.minEdges[(0, 1)];
    assert epath.value == [THIN];
  }

  /* ---- When the edges do offer the bandwidth ---- */

  ghost predicate AllOffer(es: seq<Edge>, bandwidth: uint32) {
    forall i :: 0 <= i < |es| ==> es[i].bandwidth >= bandwidth
  }

  /** Where some edge between two nodes offers the bandwidth, the minimal one does. */
  ghost predicate WideBundles(g: Graph, bandwidth: uint32)
    reads g
  {
    forall e :: e in g.edges && e.metric < 0xFFFF_FFFF && e.local != e.remote && e.bandwidth >= bandwidth ==>
      (e.local, e.remote) in g.minEdges && g.minEdges[(e.local, e.remote)].bandwidth >= bandwidth
  }

  ghost predicate RouteOffers(g: Graph, bandwidth: uint32, p: seq<Node>)
    reads g
  {
    forall es: seq<Edge> {:trigger EdgesAlong(g.minEdges, p, es)} ::
      EdgesAlong(g.minEdges, p, es) ==> AllOffer(es, bandwidth)
  }

  /** The edges given back offer the bandwidth on every route over open links exactly when
      no minimal edge is narrower than a parallel one that is open. */
  lemma RoutesOfferIff(g: Graph, bandwidth: uint32)
    requires g.Finalized()
    ensures (forall a, b, p {:trigger OpenWalk(g.edges, Some(bandwidth), a, b, p)} ::
      OpenWalk(g.edges, Some(bandwidth), a, b, p) ==> RouteOffers(g, bandwidth, p)) <==> WideBundles(g, bandwidth)
  {
    MinEdgesMean(g.NodeSet(), g.edges, g.minEdges);
    if forall a, b, p {:trigger OpenWalk(g.edges, Some(bandwidth), a, b, p)} ::
         OpenWalk(g.edges, Some(bandwidth), a, b, p) ==> RouteOffers(g, bandwidth, p)
    {
      forall e | e in g.edges && e.metric < 0xFFFF_FFFF && e.local != e.remote && e.bandwidth >= bandwidth
        ensures (e.local, e.remote) in g.minEdges && g.minEdges[(e.local, e.remote)].bandwidth >= bandwidth
      {
        OneEdgeRoute(g, bandwidth, e);
      }
    }
    if WideBundles(g, bandwidth) {
      forall a, b, p | OpenWalk(g.edges, Some(bandwidth), a, b, p) ensures RouteOffers(g, bandwidth, p) {
        WideRoute(g, bandwidth, a, b, p);
      }
    }
  }

  lemma OneEdgeRoute(g: Graph, bandwidth: uint32, e: Edge)
    requires g.Finalized()
    requires e in g.edges && e.metric < 0xFFFF_FFFF && e.local != e.remote && e.bandwidth >= bandwidth
    ensures (e.local, e.remote) in g.minEdges
    ensures OpenWalk(g.edges, Some(bandwidth), e.local, e.remote, [e.local, e.remote])
    ensures RouteOffers(g, bandwidth, [e.local, e.remote]) ==>
      g.minEdges[(e.local, e.remote)].bandwidth >= bandwidth
  {
    MinEdgesMean(g.NodeSet(), g.edges, g.minEdges);
    var p := [e.local, e.remote];
    assert OpenHop(g.edges, Some(bandwidth), e.local, e.remote);
    var es := [g.minEdges[(e.local, e.remote)]];
    assert EdgesAlong(g.minEdges, p, es);
    assert es[0].bandwidth >= bandwidth <==> AllOffer(es, bandwidth);
  }

  lemma WideRoute(g: Graph, bandwidth: uint32, a: Node, b: Node, p: seq<Node>)
    requires WideBundles(g, bandwidth) && OpenWalk(g.edges, Some(bandwidth), a, b, p)
    ensures RouteOffers(g, bandwidth, p)
  {
    forall es: seq<Edge> | EdgesAlong(g.minEdges, p, es) ensures AllOffer(es, bandwidth) {
      forall i | 0 <= i < |es| ensures es[i].bandwidth >= bandwidth {
        assert OpenHop(g.edges, Some(bandwidth), p[i], p[i+1]);
      }
    }
  }

  lemma OneStop()
    ensures [] + [1] == [1] && StopOpen([THIN, WIDE], Some(100), 0, [1], 0)
  {
    var p: seq<Node> := [0, 1];
    RouteIs(p);
    assert OpenWalk([THIN, WIDE], Some(100), 0, [1][0], p);
  }
}
