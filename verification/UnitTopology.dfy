/** The six-router topology of the repository's own unit program, as evidence that
    the pinnability condition of `SegmentPath` cannot be dropped. */
module UnitTopology {
  import opened Wrappers
  import opened Network
  import opened ShortestPathDag
  import opened Graphs
  import opened SegmentRouting
  import opened MinSegSpec
  import opened SegmentEngine
  import opened SegmentPath

  const A: Node := 1
  const B: Node := 2
  const C: Node := 3
  const D: Node := 4
  const E: Node := 5
  const F: Node := 6

  const ROUTERS: seq<Node> := [A, B, C, D, E, F]

  /** The metric of the link between two routers, zero when there is none. */
  function Metric(u: Node, v: Node): nat {
    var a, b := if u < v then u else v, if u < v then v else u;
    if a == A then (if b == B || b == D then 1 else 0)
    else if a == B then (if b == C then 1 else if b == E then 50 else 0)
    else if a == C then (if b == F then 1 else 0)
    else if a == D then (if b == E then 50 else 0)
    else if a == E then (if b == F then 1 else 0)
    else 0
  }

  function Delay(u: Node, v: Node): nat {
    if Metric(u, v) == 0 then 0
    else if (u == B && v == C) || (u == C && v == B) then 10
    else 1
  }

  function Pairs(): set<(Node, Node)> {
    set u, v | u in {A, B, C, D, E, F} && v in {A, B, C, D, E, F} :: (u, v)
  }

  function Metrics(): Links {
    map e | e in Pairs() && Metric(e.0, e.1) > 0 :: Metric(e.0, e.1)
  }

  function Delays(): Links {
    map e | e in Pairs() && Delay(e.0, e.1) > 0 :: Delay(e.0, e.1)
  }

  /* ---- The graph ---- */

  /** The links, in the order in which the program adds them. */
  const ENDS: seq<(Node, Node)> := [(A, B), (A, D), (B, E), (B, C), (F, C), (F, E), (D, E)]

  /** Each link is an edge either way. */
  function EdgeAt(k: nat): Edge
    requires k < 14
  {
    var (u, v) := ENDS[k / 2];
    var (a, b) := if k % 2 == 0 then (u, v) else (v, u);
    MetricsSmall(a, b);
    Edge(k, a, b, Metric(a, b), Delay(a, b), 0)
  }

  lemma MetricsSmall(u: Node, v: Node)
    ensures Metric(u, v) <= 50 && Delay(u, v) <= 10 && (Metric(u, v) > 0 <==> Delay(u, v) > 0)
    ensures Metric(u, v) > 0 ==> u != v && u in {A, B, C, D, E, F} && v in {A, B, C, D, E, F}
  {
  }

  function Edges(): seq<Edge> {
    seq(14, k requires 0 <= k < 14 => EdgeAt(k))
  }

  /** Where the edge from one router to another stands in the list. */
  function Place(u: Node, v: Node): nat {
    var a, b := if u < v then u else v, if u < v then v else u;
    if a == A then (if b == B then (if u == A then 0 else 1) else (if u == A then 2 else 3))
    else if a == B then (if b == E then (if u == B then 4 else 5) else (if u == B then 6 else 7))
    else if a == C then (if u == F then 8 else 9)
    else if a == D then (if u == D then 12 else 13)
    else (if u == F then 10 else 11)
  }

  lemma EdgesAre(u: Node, v: Node)
    ensures Linked(Edges(), u, v) <==> Metric(u, v) > 0
    ensures forall k: nat :: k < 14 ==> EdgeAt(k).metric == Metric(EdgeAt(k).local, EdgeAt(k).remote)
    ensures forall k: nat :: k < 14 ==> EdgeAt(k).delay == Delay(EdgeAt(k).local, EdgeAt(k).remote)
  {
    if Metric(u, v) > 0 {
      assert EdgeAt(Place(u, v)).local == u && EdgeAt(Place(u, v)).remote == v;
      assert Joins(Edges()[Place(u, v)], u, v);
    }
    if Linked(Edges(), u, v) {
      var k :| 0 <= k < 14 && Joins(Edges()[k], u, v);
      assert EdgeAt(k).local == u && EdgeAt(k).remote == v;
      EdgeIsLink(k);
    }
  }

  lemma EdgeIsLink(k: nat)
    requires k < 14
    ensures Metric(EdgeAt(k).local, EdgeAt(k).remote) > 0
    ensures EdgeAt(k).local in ROUTERS && EdgeAt(k).remote in ROUTERS
  {
    assert k / 2 == 0 || k / 2 == 1 || k / 2 == 2 || k / 2 == 3 || k / 2 == 4 || k / 2 == 5 || k / 2 == 6;
  }

  lemma MinEdgeIs(m: map<(Node, Node), Edge>, u: Node, v: Node)
    requires MinEdgesAre(ToSet(ROUTERS), Edges(), m)
    ensures (u, v) in m <==> Metric(u, v) > 0
    ensures (u, v) in m ==> m[(u, v)].metric == Metric(u, v) && m[(u, v)].delay == Delay(u, v)
  {
    EdgesAre(u, v);
    MetricsSmall(u, v);
    if (u, v) in m {
      assert CheapestEdge(Edges(), u, v, m[(u, v)]);
      var k :| FirstCheapest(Edges(), u, v, k) && Edges()[k] == m[(u, v)];
      assert EdgeAt(k).local == u && EdgeAt(k).remote == v;
    }
  }

  lemma LinkIs(u: Node, v: Node)
    ensures (u, v) in Metrics() <==> Metric(u, v) > 0
    ensures (u, v) in Delays() <==> Metric(u, v) > 0
  {
    MetricsSmall(u, v);
  }

  /** The networks that metrics and delays make of the minimal edges. */
  lemma NetsAre(m: map<(Node, Node), Edge>)
    requires MinEdgesAre(ToSet(ROUTERS), Edges(), m)
    ensures NetOf(m, IgpMetric) == Metrics() && NetOf(m, MinDelay) == Delays()
  {
    hide MinEdgesAre, Metric, Delay;
    var igp, delay := NetOf(m, IgpMetric), NetOf(m, MinDelay);
    forall e: (Node, Node)
      ensures e in igp <==> e in Metrics()
      ensures e in delay <==> e in Delays()
      ensures e in igp ==> igp[e] == Metrics()[e]
      ensures e in delay ==> delay[e] == Delays()[e]
    {
      MinEdgeIs(m, e.0, e.1);
      LinkIs(e.0, e.1);
      assert e == (e.0, e.1);
    }
  }

  /* ---- Path sums ---- */

  lemma {:induction false} SimpleSet(p: seq<Node>)
    requires Simple(p)
    ensures |ToSet(p)| == |p|
    decreases |p|
  {
    if p != [] {
      var r := p[..|p|-1];
      SimpleSet(r);
      assert p == r + [p[|p|-1]];
      assert ToSet(p) == ToSet(r) + {p[|p|-1]} && p[|p|-1] !in ToSet(r);
    }
  }

  lemma {:induction false} CostBounds(net: Links, p: seq<Node>, most: nat)
    requires Walk(net, p) && forall e :: e in net ==> 1 <= net[e] <= most
    ensures |p| - 1 <= Cost(net, p) <= (|p| - 1) * most
    decreases |p|
  {
    if |p| > 1 {
      var r := p[..|p|-1];
      CostBounds(net, r, most);
      assert (p[|p|-2], p[|p|-1]) in net;
      assert (|p| - 1) * most == (|r| - 1) * most + most;
    }
  }

  lemma SumsFit(net: Links, s: Node)
    requires s in ROUTERS && forall e :: e in net ==> e in Pairs() && 1 <= net[e] <= 50
    ensures PathSumsFit(net, s)
  {
    forall p | Walk(net, p) && p[0] == s && Simple(p) ensures Cost(net, p) < UINT32_MAX {
      forall i | 0 <= i < |p| ensures p[i] in {A, B, C, D, E, F} {
        assert i > 0 ==> (p[i-1], p[i]) in net;
      }
      SimpleSet(p);
      assert ToSet(p) <= {A, B, C, D, E, F};
      SubsetSmaller(ToSet(p), {A, B, C, D, E, F});
      CostBounds(net, p, 50);
      assert (|p| - 1) * 50 <= 5 * 50;
    }
  }

  lemma {:induction false} SubsetSmaller(s: set<Node>, t: set<Node>)
    requires s <= t
    ensures |s| <= |t|
    decreases s
  {
    if x :| x in s {
      SubsetSmaller(s - {x}, t - {x});
    }
  }

  lemma NetsSafe()
    ensures Positive(Metrics()) && Positive(Delays())
    ensures forall s :: s in ROUTERS ==> PathSumsFit(Metrics(), s) && PathSumsFit(Delays(), s)
  {
    forall e | e in Metrics() ensures e in Pairs() && 1 <= Metrics()[e] <= 50 {
      MetricsSmall(e.0, e.1);
    }
    forall e | e in Delays() ensures e in Pairs() && 1 <= Delays()[e] <= 50 {
      MetricsSmall(e.0, e.1);
    }
    forall s | s in ROUTERS ensures PathSumsFit(Metrics(), s) && PathSumsFit(Delays(), s) {
      SumsFit(Metrics(), s);
      SumsFit(Delays(), s);
    }
  }

  /* ---- The flow from D to E ---- */

  function MetricFromD(v: Node): nat {
    if v == D then 0 else if v == A then 1 else if v == B then 2 else if v == C then 3 else if v == F then 4 else 5
  }

  function FromD(): map<Node, nat> { map v | v in {A, B, C, D, E, F} :: MetricFromD(v) }

  lemma MetricsFeasible(u: Node, v: Node)
    requires Metric(u, v) > 0
    ensures MetricFromD(v) <= MetricFromD(u) + Metric(u, v)
  {
  }

  lemma MetricCertificate()
    ensures Certificate(Metrics(), D, FromD())
  {
    hide Attained;
    var net, d := Metrics(), FromD();
    forall e | e in net && e.0 in d ensures e.1 in d && d[e.1] <= d[e.0] + net[e] {
      MetricsFeasible(e.0, e.1);
    }
    forall v | v in d && v != D ensures Attained(net, d, v) {
      MetricAttained(v);
    }
  }

  lemma MetricAttained(v: Node)
    requires v in FromD() && v != D
    ensures Attained(Metrics(), FromD(), v)
  {
    var u := if v == A then D else if v == B then A else if v == C then B else if v == F then C else F;
    assert u in FromD() && (u, v) in Pairs() && Metric(u, v) > 0;
    assert (u, v) in Metrics() && FromD()[v] == FromD()[u] + Metrics()[(u, v)];
  }

  lemma OnlyFPrecedesE()
    ensures TightPreds(Metrics(), D, E) == {F}
  {
    var net, d := Metrics(), FromD();
    MetricCertificate();
    TightPredsAre(net, D, E);
    forall u ensures u in TightPreds(net, D, E) <==> u == F {
      CertificateTight(net, D, d, u, E);
      assert (F, E) in Pairs();
      if (u, E) in net {
        assert net[(u, E)] == Metric(u, E);
      }
    }
  }

  lemma DirectWalk()
    ensures Walk(Metrics(), [D, E]) && Cost(Metrics(), [D, E]) == 50
    ensures Walk(Delays(), [D, E]) && Cost(Delays(), [D, E]) == 1
  {
    assert (D, E) in Pairs() && (D, E) in Metrics() && (D, E) in Delays();
    CostSnoc(Metrics(), [D], E);
    CostSnoc(Delays(), [D], E);
    assert [D] + [E] == [D, E];
  }

  /** The direct link is the only route of least delay from D to E. */
  lemma OnlyDelayRoute(route: seq<Node>)
    requires RouteThrough(Delays(), D, [E], route)
    ensures route == [D, E]
  {
    assert AsNodeSegments([E]) == [NodeSegment(E)];
    ForwardsOne(Delays(), D, NodeSegment(E), route);
    DirectWalk();
    assert WalkBetween(Delays(), D, E, [D, E]);
    NetsSafe();
    CostBounds(Delays(), route, Cost(Delays(), route) + 10);
  }

  /** Under the metrics it cannot be pinned: the link is no shortest path, and E has one
      tight predecessor seen from D, which is F and not D. */
  lemma NotPinnable()
    ensures TightPreds(Metrics(), D, E) == {F} && !Shortest(Metrics(), [D, E]) && !AllPinnable(Metrics(), [D, E])
  {
    DirectWalk();
    MetricCertificate();
    OnlyFPrecedesE();
    CertificateShortest(Metrics(), D, FromD(), [D, E]);
    assert !Pinnable(Metrics(), [D, E][0], [D, E][1]);
  }

  method BuildUnit() returns (g: Graph)
    ensures fresh(g) && g.nodes == ROUTERS && g.edges == Edges() && g.dcache == map[] && g.Finalized()
  {
    g := new Graph(ROUTERS, Edges());
    forall k | 0 <= k < |g.edges| ensures g.edges[k].local in g.nodes && g.edges[k].remote in g.nodes {
      EdgeIsLink(k);
    }
    g.Finalize();
  }

  /** The graph of the unit program, finalized. */
  method UnitGraph() returns (g: Graph)
    ensures fresh(g) && g.nodes == ROUTERS && g.edges == Edges()
    ensures Routable(g) && SearchSafe(g, None, MinDelay)
    ensures IgpNet(g) == Metrics() && NetOf(g.minEdges, MinDelay) == Delays()
  {
    hide MinEdgesAre, PathSumsFit, Positive, Metrics, Delays;
    g := BuildUnit();
    NetsSafe();
    NetsAre(g.minEdges);
    forall m | MinEdgesAre(g.NodeSet(), UsableEdges(g.edges, None), m)
      ensures Positive(NetOf(m, MinDelay)) && forall s :: s in g.nodes ==> PathSumsFit(NetOf(m, MinDelay), s)
    {
      NetsAre(m);
    }
  }

  lemma DelayOutcome(m: map<(Node, Node), Edge>, route: seq<Node>, segs: seq<Segment>)
    requires SegPathRight(Metrics(), m, Delays(), D, [], E, route, segs)
    ensures route == [D, E] && !Forces(Metrics(), D, segs, [D, E])
  {
    assert [] + [E] == [E];
    OnlyDelayRoute(route);
    NotPinnable();
  }

  lemma DelayReached()
    ensures StopsReached(Delays(), D, [E], 1)
  {
    DirectWalk();
    assert WalkBetween(Delays(), D, E, [D, E]);
    assert StopReached(Delays(), D, [E], 0);
  }

  /** A flow of least delay from D to E on the graph of the unit program: the path search
      chooses the direct link, and the segment list that is built does not force it. */
  method DelayFlow() returns (segs: Option<seq<Segment>>, epath: Option<seq<Edge>>)
    ensures segs.Some? && !Forces(Metrics(), D, segs.value, [D, E])
    ensures epath.Some? && |epath.value| == 1 && epath.value[0].metric == 50 && epath.value[0].delay == 1
  {
    var g := UnitGraph();
    ghost var route, m;
    segs, epath, route, m := BuildSegPath(g, D, E, [], None, MinDelay);
    FlowIs(g.minEdges, m, route, segs, epath);
  }

  lemma FlowIs(m0: map<(Node, Node), Edge>, m: map<(Node, Node), Edge>, route: seq<Node>,
               segs: Option<seq<Segment>>, epath: Option<seq<Edge>>)
    requires MinEdgesAre(ToSet(ROUTERS), Edges(), m0)
    requires MinEdgesAre(ToSet(ROUTERS), UsableEdges(Edges(), None), m)
    requires segs.Some? <==> StopsReached(NetOf(m, MinDelay), D, [] + [E], 1)
    requires segs.Some? ==> SegPathRight(Metrics(), m0, NetOf(m, MinDelay), D, [], E, route, segs.value)
    requires segs.Some? ==> epath.Some? && EdgesAlong(m0, route, epath.value)
    ensures segs.Some? && !Forces(Metrics(), D, segs.value, [D, E])
    ensures epath.Some? && |epath.value| == 1 && epath.value[0].metric == 50 && epath.value[0].delay == 1
  {
    hide MinEdgesAre, StopsReached, SegPathRight, Forces, Metrics, Delays, Edges, NetOf, RouteThrough;
    NetsAre(m);
    DelayReached();
    assert [] + [E] == [E];
    DelayOutcome(m0, route, segs.value);
    MinEdgeIs(m0, D, E);
    assert route[0] == D && route[1] == E && epath.value[0] == m0[(D, E)];
    assert Metric(D, E) == 50 && Delay(D, E) == 1;
  }
}
