/** The controller's topology graph: finalization and the ECMP Dijkstra. */
module Graphs {
  import opened Network
  import opened ShortestPathDag

  /** An edge with the link data the cost operations and pruning look at. */
  datatype Edge = Edge(id: nat, local: Node, remote: Node, metric: uint32, delay: uint32, bandwidth: uint32)

  /** What a search adds up: the IGP metric, or the link delay under `delay_min_ops`. */
  datatype CostOps = IgpMetric | MinDelay

  function EdgeCost(ops: CostOps, e: Edge): uint32 {
    match ops
    case IgpMetric => e.metric
    case MinDelay => e.delay
  }

  /** Edges of the largest metric count as absent. */
  predicate Joins(e: Edge, u: Node, v: Node) {
    e.local == u && e.remote == v && e.metric < UINT32_MAX
  }

  ghost predicate Linked(edges: seq<Edge>, u: Node, v: Node) {
    exists k :: 0 <= k < |edges| && Joins(edges[k], u, v)
  }

  /** `edges[k]` is the cheapest of its bundle and the first such in list order. */
  ghost predicate FirstCheapest(edges: seq<Edge>, u: Node, v: Node, k: int) {
    && 0 <= k < |edges| && Joins(edges[k], u, v)
    && forall j :: 0 <= j < |edges| && Joins(edges[j], u, v) ==>
      edges[k].metric <= edges[j].metric && (j < k ==> edges[k].metric < edges[j].metric)
  }

  ghost predicate CheapestEdge(edges: seq<Edge>, u: Node, v: Node, e: Edge) {
    exists k :: FirstCheapest(edges, u, v, k) && edges[k] == e
  }

  ghost predicate MinEdgesAre(nodes: set<Node>, edges: seq<Edge>, m: map<(Node, Node), Edge>) {
    && (forall u, v :: (u, v) in m <==> u in nodes && v in nodes && u != v && Linked(edges, u, v))
    && (forall u, v :: (u, v) in m ==> CheapestEdge(edges, u, v, m[(u, v)]))
  }

  /** Progress of the double loop: the rows of `us` are done, and of the row of `x`
      the columns in `vs`. */
  ghost predicate PairsLooked(edges: seq<Edge>, m: map<(Node, Node), Edge>, us: set<Node>, all: set<Node>, x: Node,
                              vs: set<Node>)
  {
    && (forall u: Node, v: Node :: (u, v) in m <==> PairSeen(us, all, x, vs, u, v) && u != v && Linked(edges, u, v))
    && (forall u, v :: (u, v) in m ==> CheapestEdge(edges, u, v, m[(u, v)]))
  }

  ghost predicate PairSeen(us: set<Node>, all: set<Node>, x: Node, vs: set<Node>, u: Node, v: Node) {
    (u in us && v in all) || (u == x && v in vs)
  }

  ghost predicate NeighsAre(nodes: set<Node>, edges: seq<Edge>, neighs: map<Node, seq<Node>>) {
    && neighs.Keys == nodes
    && forall u :: u in nodes ==> NeighboursAre(edges, u, neighs[u])
  }

  ghost predicate NeighboursAre(edges: seq<Edge>, u: Node, ns: seq<Node>) {
    NoDup(ns) && forall v :: v in ns <==> Linked(edges, u, v)
  }

  /** The weighted network a search over the minimal edges sees. */
  function NetOf(m: map<(Node, Node), Edge>, ops: CostOps): Links {
    map p | p in m :: EdgeCost(ops, m[p])
  }

  /** The edges that offer at least the wanted bandwidth. */
  function WideEnough(edges: seq<Edge>, bandwidth: uint32): seq<Edge> {
    if edges == [] then []
    else WideEnough(edges[..|edges|-1], bandwidth) +
         (if edges[|edges|-1].bandwidth < bandwidth then [] else [edges[|edges|-1]])
  }

  lemma {:induction false} WideEnoughIs(edges: seq<Edge>, bandwidth: uint32)
    ensures forall e :: e in WideEnough(edges, bandwidth) <==> e in edges && e.bandwidth >= bandwidth
    decreases edges
  {
    if edges != [] {
      WideEnoughIs(edges[..|edges|-1], bandwidth);
      assert edges == edges[..|edges|-1] + [edges[|edges|-1]];
    }
  }

  /** `at` lists the places of exactly the edges that offer enough, from first to last,
      and `kept` the edges there. */
  ghost predicate OffersAt(edges: seq<Edge>, bandwidth: uint32, kept: seq<Edge>, at: seq<nat>) {
    && |at| == |kept|
    && (forall i :: 0 <= i < |at| ==> at[i] < |edges| && kept[i] == edges[at[i]])
    && (forall i, j :: 0 <= i < j < |at| ==> at[i] < at[j])
    && (forall k: nat :: k < |edges| ==> (k in at <==> edges[k].bandwidth >= bandwidth))
  }

  /** Dropping keeps the order of the others. */
  lemma {:induction false} WideEnoughPlaces(edges: seq<Edge>, bandwidth: uint32) returns (at: seq<nat>)
    ensures OffersAt(edges, bandwidth, WideEnough(edges, bandwidth), at)
    decreases edges
  {
    at := [];
    if edges != [] {
      hide OffersAt;
      var n := |edges| - 1;
      at := WideEnoughPlaces(edges[..n], bandwidth);
      OnePlace(edges[..n], edges[n], bandwidth, WideEnough(edges[..n], bandwidth), at);
      assert edges == edges[..n] + [edges[n]];
      at := if edges[n].bandwidth < bandwidth then at else at + [n];
    } else {
      assert OffersAt([], bandwidth, [], []);
    }
  }

  lemma OnePlace(edges: seq<Edge>, e: Edge, bandwidth: uint32, kept: seq<Edge>, at: seq<nat>)
    requires OffersAt(edges, bandwidth, kept, at)
    ensures if e.bandwidth < bandwidth then OffersAt(edges + [e], bandwidth, kept, at)
      else OffersAt(edges + [e], bandwidth, kept + [e], at + [|edges|])
  {
    var edges', at' := edges + [e], at + [|edges|];
    forall k: nat | k < |edges'|
      ensures k in at' <==> k in at || k == |edges|
      ensures k in at ==> k < |edges|
    {
    }
  }

  function ToSet(s: seq<Node>): set<Node> {
    set v | v in s
  }

  /** The minimal edges in the terms of an edge: a pair has one exactly when an edge of a
      metric below the largest joins it, and it is one of least metric among those. */
  lemma MinEdgesMean(nodes: set<Node>, edges: seq<Edge>, m: map<(Node, Node), Edge>)
    requires MinEdgesAre(nodes, edges, m)
    ensures forall u, v :: (u, v) in m <==>
      && u in nodes && v in nodes && u != v
      && exists e :: e in edges && e.local == u && e.remote == v && e.metric < 0xFFFF_FFFF
    ensures forall u, v :: (u, v) in m ==>
      m[(u, v)] in edges && m[(u, v)].local == u && m[(u, v)].remote == v && m[(u, v)].metric < 0xFFFF_FFFF &&
      (forall f :: f in edges && f.local == u && f.remote == v ==> m[(u, v)].metric <= f.metric)
  {
    forall u, v
      ensures Linked(edges, u, v) <==>
        exists e :: e in edges && e.local == u && e.remote == v && e.metric < 0xFFFF_FFFF
    {
      LinkedMeans(edges, u, v);
    }
    forall u, v | (u, v) in m
      ensures m[(u, v)] in edges && Joins(m[(u, v)], u, v)
      ensures forall f :: f in edges && f.local == u && f.remote == v ==> m[(u, v)].metric <= f.metric
    {
      var k :| FirstCheapest(edges, u, v, k) && edges[k] == m[(u, v)];
      forall f | f in edges && f.local == u && f.remote == v ensures m[(u, v)].metric <= f.metric {
        var j :| 0 <= j < |edges| && edges[j] == f;
        if f.metric < UINT32_MAX {
          assert Joins(edges[j], u, v);
        }
      }
    }
  }

  lemma LinkedMeans(edges: seq<Edge>, u: Node, v: Node)
    ensures Linked(edges, u, v) <==>
      exists e :: e in edges && e.local == u && e.remote == v && e.metric < 0xFFFF_FFFF
  {
    if e :| e in edges && e.local == u && e.remote == v && e.metric < 0xFFFF_FFFF {
      var k :| 0 <= k < |edges| && edges[k] == e;
      assert Joins(edges[k], u, v);
    }
  }

  lemma NeighboursMean(nodes: set<Node>, edges: seq<Edge>, neighs: map<Node, seq<Node>>)
    requires NeighsAre(nodes, edges, neighs)
    ensures forall u :: u in nodes ==>
      && u in neighs
      && forall v :: v in neighs[u] <==>
           exists e :: e in edges && e.local == u && e.remote == v && e.metric < 0xFFFF_FFFF
  {
    forall u, v
      ensures Linked(edges, u, v) <==>
        exists e :: e in edges && e.local == u && e.remote == v && e.metric < 0xFFFF_FFFF
    {
      LinkedMeans(edges, u, v);
    }
    forall u | u in nodes ensures NeighboursAre(edges, u, neighs[u]) {
    }
  }

  /** Enumerates the chains from `u` behind the partial path `tmp`, appending them to
      `res`; the recursion descends because `rank` falls along predecessor lists. */
  method ComputePathsFrom(res: seq<seq<Node>>, tmp: seq<Node>, prev: map<Node, seq<Node>>, u: Node,
                          ghost rank: map<Node, uint32>, ghost nodes: set<Node>, ghost s: Node)
    returns (res': seq<seq<Node>>)
    requires u in nodes && Rooted(prev, rank, nodes, s)
    ensures res <= res'
    ensures NoDup(res'[|res|..])
    ensures forall q :: q in res'[|res|..] <==> tmp <= q && Chain(prev, u, q[|tmp|..])
    decreases rank[u]
  {
    var w := prev[u];
    if w == [] {
      res' := res + [tmp];
      forall q ensures q in res'[|res|..] <==> tmp <= q && Chain(prev, u, q[|tmp|..]) {
        if tmp <= q && q[|tmp|..] == [] {
          assert q == tmp;
        }
      }
      return;
    }
    res' := res;
    var tmp' := tmp + [u];
    var i := 0;
    while i < |w|
      invariant 0 <= i <= |w|
      invariant res <= res'
      invariant NoDup(res'[|res|..])
      invariant forall q :: q in res'[|res|..] <==> tmp' <= q && ChainVia(prev, w[..i], q[|tmp'|..])
    {
      ghost var before := res';
      res' := ComputePathsFrom(res', tmp', prev, w[i], rank, nodes, s);
      AppendedChains(prev, rank, nodes, s, w, i, tmp', res, before, res');
      i := i + 1;
    }
    forall q ensures q in res'[|res|..] <==> tmp <= q && Chain(prev, u, q[|tmp|..]) {
      assert w[..|w|] == w;
      if tmp <= q && q[|tmp|..] != [] && q[|tmp|..][0] == u {
        assert tmp' <= q;
      }
      if tmp' <= q {
        assert q[|tmp|..][1..] == q[|tmp'|..];
      }
    }
  }

  ghost predicate ChainVia(prev: map<Node, seq<Node>>, w: seq<Node>, t: seq<Node>) {
    exists p :: p in w && Chain(prev, p, t)
  }

  lemma AppendedChains(prev: map<Node, seq<Node>>, rank: map<Node, uint32>, nodes: set<Node>, s: Node,
                       w: seq<Node>, i: nat, tmp: seq<Node>,
                       res: seq<seq<Node>>, before: seq<seq<Node>>, after: seq<seq<Node>>)
    requires Rooted(prev, rank, nodes, s) && NoDup(w) && i < |w| && forall p :: p in w ==> p in nodes
    requires res <= before <= after
    requires NoDup(before[|res|..]) && NoDup(after[|before|..])
    requires forall q :: q in before[|res|..] <==> tmp <= q && ChainVia(prev, w[..i], q[|tmp|..])
    requires forall q :: q in after[|before|..] <==> tmp <= q && Chain(prev, w[i], q[|tmp|..])
    ensures NoDup(after[|res|..])
    ensures forall q :: q in after[|res|..] <==> tmp <= q && ChainVia(prev, w[..i+1], q[|tmp|..])
  {
    var a, b := before[|res|..], after[|before|..];
    assert after[|res|..] == a + b;
    assert w[..i+1] == w[..i] + [w[i]];
    forall q | q in a ensures q !in b {
      var p :| p in w[..i] && Chain(prev, p, q[|tmp|..]);
      ChainStart(prev, rank, nodes, s, p, w[i], q[|tmp|..]);
    }
    NoDupConcat(a, b);
    forall q ensures q in a + b <==> tmp <= q && ChainVia(prev, w[..i+1], q[|tmp|..]) {
      if tmp <= q {
        assert ChainVia(prev, w[..i+1], q[|tmp|..]) <==>
               ChainVia(prev, w[..i], q[|tmp|..]) || Chain(prev, w[i], q[|tmp|..]);
      }
    }
  }

  /** A chain tells which node it starts from. */
  lemma ChainStart(prev: map<Node, seq<Node>>, rank: map<Node, uint32>, nodes: set<Node>, s: Node,
                   p: Node, p': Node, t: seq<Node>)
    requires Rooted(prev, rank, nodes, s) && p in nodes && p' in nodes && p != p'
    requires Chain(prev, p, t)
    ensures !Chain(prev, p', t)
  {
  }

  lemma NoDupConcat<T(!new)>(a: seq<T>, b: seq<T>)
    requires NoDup(a) && NoDup(b) && forall x :: !(x in a && x in b)
    ensures NoDup(a + b)
  {
    forall i, j | 0 <= i < j < |a + b| ensures (a + b)[i] != (a + b)[j] {
      if i < |a| <= j {
        assert (a + b)[i] in a && (a + b)[j] in b;
      }
    }
  }

  method ComputePaths(res: seq<seq<Node>>, prev: map<Node, seq<Node>>, u: Node,
                      ghost rank: map<Node, uint32>, ghost nodes: set<Node>, ghost s: Node)
    returns (res': seq<seq<Node>>)
    requires u in nodes && Rooted(prev, rank, nodes, s)
    requires res == []
    ensures ListsChains(prev, u, res')
  {
    res' := ComputePathsFrom(res, [], prev, u, rank, nodes, s);
    assert res'[|res|..] == res';
    forall t ensures t in res' <==> Chain(prev, u, t) {
      assert [] <= t && t[0..] == t;
    }
  }

  class Graph {
    var nodes: seq<Node>
    var edges: seq<Edge>
    var minEdges: map<(Node, Node), Edge>
    var neighs: map<Node, seq<Node>>
    var dcache: map<Node, Dres>
    var dirty: bool
    var cloned: bool

    constructor (ns: seq<Node>, es: seq<Edge>)
      ensures nodes == ns && edges == es
      ensures minEdges == map[] && neighs == map[] && dcache == map[] && !cloned
    {
      nodes, edges := ns, es;
      minEdges, neighs, dcache := map[], map[], map[];
      dirty, cloned := false, false;
    }

    ghost function NodeSet(): set<Node>
      reads this
    {
      ToSet(nodes)
    }

    /** Node ids are unique and both ends of every edge are nodes of the graph. */
    ghost predicate WellFormed()
      reads this
    {
      NoDup(nodes) && forall k :: 0 <= k < |edges| ==> edges[k].local in nodes && edges[k].remote in nodes
    }

    ghost predicate Finalized()
      reads this
    {
      WellFormed() && MinEdgesAre(NodeSet(), edges, minEdges) && NeighsAre(NodeSet(), edges, neighs)
    }

    method GetMinimalEdge(local: Node, remote: Node) returns (found: bool, res: Edge)
      ensures found <==> Linked(edges, local, remote)
      ensures found ==> CheapestEdge(edges, local, remote, res)
      ensures found <==>
        exists e :: e in edges && e.local == local && e.remote == remote && e.metric < 0xFFFF_FFFF
      ensures found ==>
        exists k :: 0 <= k < |edges| && edges[k] == res && res.local == local && res.remote == remote &&
          (forall j :: 0 <= j < |edges| && edges[j].local == local && edges[j].remote == remote ==>
            res.metric <= edges[j].metric && (j < k ==> res.metric < edges[j].metric))
    {
      found, res := false, Edge(0, 0, 0, 0, 0, 0);
      var metric: uint32 := UINT32_MAX;
      ghost var best := 0;
      var i := 0;
      while i < |edges|
        invariant 0 <= i <= |edges|
        invariant if found then 0 <= best < i && Joins(edges[best], local, remote) && res == edges[best] &&
          metric == res.metric
                  else metric == UINT32_MAX
        invariant forall j :: 0 <= j < i && Joins(edges[j], local, remote) ==>
                    found && metric <= edges[j].metric && (j < best ==> metric < edges[j].metric)
      {
        var edge := edges[i];
        if edge.local == local && edge.remote == remote {
          if edge.metric < metric {
            found, res, metric, best := true, edge, edge.metric, i;
          }
        }
        i := i + 1;
      }
      LinkedMeans(edges, local, remote);
      if found {
        assert FirstCheapest(edges, local, remote, best);
        forall j | 0 <= j < |edges| && edges[j].local == local && edges[j].remote == remote
          ensures res.metric <= edges[j].metric && (j < best ==> res.metric < edges[j].metric)
        {
          assert edges[j].metric < UINT32_MAX ==> Joins(edges[j], local, remote);
        }
      }
    }

    method ComputeMinimalEdges()
      requires WellFormed()
      modifies this`minEdges
      ensures MinEdgesAre(NodeSet(), edges, minEdges)
    {
      minEdges := map[];
      var i := 0;
      while i < |nodes|
        invariant 0 <= i <= |nodes|
        invariant PairsLooked(edges, minEdges, ToSet(nodes[..i]), NodeSet(), 0, {})
      {
        var node1 := nodes[i];
        var j := 0;
        while j < |nodes|
          invariant 0 <= j <= |nodes|
          invariant PairsLooked(edges, minEdges, ToSet(nodes[..i]), NodeSet(), node1, ToSet(nodes[..j]))
        {
          var node2 := nodes[j];
          assert nodes[..j+1] == nodes[..j] + [node2];
          assert ToSet(nodes[..j+1]) == ToSet(nodes[..j]) + {node2};
          if node1 != node2 {
            var found, edge := GetMinimalEdge(node1, node2);
            if found {
              minEdges := minEdges[(edge.local, edge.remote) := edge];
            }
          }
          j := j + 1;
        }
        assert nodes[..|nodes|] == nodes;
        assert nodes[..i+1] == nodes[..i] + [node1];
        assert ToSet(nodes[..i+1]) == ToSet(nodes[..i]) + {node1};
        i := i + 1;
      }
      assert nodes[..|nodes|] == nodes;
    }

    method ComputeNeighbors(node: Node) returns (ns: seq<Node>)
      ensures NeighboursAre(edges, node, ns)
      ensures forall v :: v in ns <==>
        exists e :: e in edges && e.local == node && e.remote == v && e.metric < 0xFFFF_FFFF
    {
      ns := [];
      var i := 0;
      while i < |edges|
        invariant 0 <= i <= |edges|
        invariant NoDup(ns)
        invariant forall v :: v in ns <==> Linked(edges[..i], node, v)
      {
        var edge := edges[i];
        assert edges[..i+1] == edges[..i] + [edge];
        if edge.local == node && edge.metric != UINT32_MAX && edge.remote !in ns {
          ns := ns + [edge.remote];
          assert Joins(edges[..i+1][i], node, edge.remote);
        }
        forall v ensures Linked(edges[..i+1], node, v) <==> Linked(edges[..i], node, v) || Joins(edge, node, v) {
          if k :| 0 <= k < i && Joins(edges[..i][k], node, v) {
            assert Joins(edges[..i+1][k], node, v);
          }
          if Joins(edge, node, v) {
            assert Joins(edges[..i+1][i], node, v);
          }
        }
        i := i + 1;
      }
      assert edges[..|edges|] == edges;
      forall v ensures v in ns <==>
        exists e :: e in edges && e.local == node && e.remote == v && e.metric < 0xFFFF_FFFF
      {
        LinkedMeans(edges, node, v);
      }
    }

    method ComputeAllNeighbors()
      requires WellFormed()
      modifies this`neighs
      ensures NeighsAre(NodeSet(), edges, neighs)
    {
      neighs := map[];
      var i := 0;
      while i < |nodes|
        invariant 0 <= i <= |nodes|
        invariant neighs.Keys == ToSet(nodes[..i])
        invariant forall u :: u in neighs ==> NeighboursAre(edges, u, neighs[u])
      {
        var node := nodes[i];
        var ns := ComputeNeighbors(node);
        neighs := neighs[node := ns];
        assert nodes[..i+1] == nodes[..i] + [node];
        i := i + 1;
      }
      assert nodes[..|nodes|] == nodes;
    }

    method Finalize()
      requires WellFormed()
      modifies this`minEdges, this`neighs, this`dirty
      ensures Finalized() && !dirty
      ensures forall u, v :: (u, v) in minEdges <==>
        && u in nodes && v in nodes && u != v
        && exists e :: e in edges && e.local == u && e.remote == v && e.metric < 0xFFFF_FFFF
      ensures forall u, v :: (u, v) in minEdges ==>
        var e := minEdges[(u, v)];
        && e in edges && e.local == u && e.remote == v && e.metric < 0xFFFF_FFFF
        && (forall f :: f in edges && f.local == u && f.remote == v ==> e.metric <= f.metric)
      ensures forall u :: u in nodes ==>
        && u in neighs
        && forall v :: v in neighs[u] <==>
             exists e :: e in edges && e.local == u && e.remote == v && e.metric < 0xFFFF_FFFF
    {
      ComputeMinimalEdges();
      ComputeAllNeighbors();
      dirty := false;
      MinEdgesMean(NodeSet(), edges, minEdges);
      NeighboursMean(NodeSet(), edges, neighs);
    }

    /** A shallow copy that shares nodes and edges and has no derived tables yet. */
    method Clone() returns (copy: Graph)
      ensures fresh(copy)
      ensures copy.nodes == nodes && copy.edges == edges && copy.dcache == map[] && copy.cloned
    {
      copy := new Graph(nodes, edges);
      copy.cloned := true;
    }

    /** Drops the edges that offer less than `bandwidth`; zero asks for nothing. */
    method Prune(bandwidth: uint32)
      modifies this`edges
      ensures edges == WideEnough(old(edges), bandwidth)
    {
      var kept: seq<Edge> := [];
      var i := 0;
      while i < |edges|
        invariant 0 <= i <= |edges|
        invariant kept == WideEnough(edges[..i], bandwidth)
      {
        assert edges[..i+1][..i] == edges[..i];
        if !(edges[i].bandwidth < bandwidth) {
          kept := kept + [edges[i]];
        }
        i := i + 1;
      }
      assert edges[..|edges|] == edges;
      edges := kept;
    }

    /** The links of the network are the neighbours, self-loops aside: this is why the
        edge looked up for a queued neighbour is always there. */
    lemma NeighboursAreLinks(ops: CostOps, u: Node)
      requires Finalized() && u in nodes
      ensures NeighbourLinks(NetOf(minEdges, ops), NodeSet(), u, neighs[u])
      ensures LinksWithin(NetOf(minEdges, ops), NodeSet())
    {
      assert NeighboursAre(edges, u, neighs[u]);
      forall e | e in NetOf(minEdges, ops) ensures e.0 in NodeSet() && e.1 in NodeSet() {
        assert (e.0, e.1) in minEdges;
      }
    }

    /** Picks the first queued node of least finite distance. */
    method NearestQueued(dist: map<Node, uint32>, Q: seq<Node>) returns (at: int)
      requires forall v :: v in Q ==> v in dist
      ensures -1 <= at < |Q|
      ensures at == -1 ==> forall v :: v in Q ==> dist[v] == UINT32_MAX
      ensures at >= 0 ==> dist[Q[at]] < UINT32_MAX && forall v :: v in Q ==> dist[Q[at]] <= dist[v]
    {
      var tmpcost: uint32 := UINT32_MAX;
      at := -1;
      var i := 0;
      while i < |Q|
        invariant 0 <= i <= |Q| && -1 <= at < i
        invariant tmpcost == if at >= 0 then dist[Q[at]] else UINT32_MAX
        invariant at >= 0 ==> tmpcost < UINT32_MAX
        invariant forall j :: 0 <= j < i ==> tmpcost <= dist[Q[j]]
      {
        if dist[Q[i]] < tmpcost {
          tmpcost, at := dist[Q[i]], i;
        }
        i := i + 1;
      }
    }

    method Dijkstra(src: Node, ops: CostOps) returns (res: Dres)
      requires Finalized() && src in nodes
      requires Positive(NetOf(minEdges, ops)) && PathSumsFit(NetOf(minEdges, ops), src)
      ensures IsSpDag(NetOf(minEdges, ops), NodeSet(), src, res)
      ensures forall e :: e in NetOf(minEdges, ops) <==> e in minEdges
      ensures forall e :: e in minEdges ==>
        NetOf(minEdges, ops)[e] == if ops == MinDelay then minEdges[e].delay else minEdges[e].metric
    {
      ghost var net, all := NetOf(minEdges, ops), NodeSet();
      var dist, prev, path := InitSearch(src);
      var Q := nodes;
      ghost var done: set<Node> := {};
      SearchStarts(net, all, src, dist, prev);
      while Q != []
        invariant Queued(Q, all, done)
        invariant SearchInv(net, all, src, done, LinksFrom(net, done), dist, prev)
        invariant PathsSoFar(all, done, prev, path)
      {
        var at := NearestQueued(dist, Q);
        if at == -1 {
          break;
        }
        ghost var u := Q[at];
        Q, dist, prev, path := Settle(src, ops, at, Q, dist, prev, path, done);
        done := done + {u};
      }
      res := Dres(dist, prev, path);
      NeighboursAreLinks(ops, src);
      SearchMeetsSpec(net, all, src, done, res);
    }

    /** Takes the nearest node off the queue, enumerates its paths and relaxes its links. */
    method Settle(src: Node, ops: CostOps, at: nat, Q: seq<Node>, dist: map<Node, uint32>,
                  prev: map<Node, seq<Node>>, path: map<Node, seq<seq<Node>>>, ghost done: set<Node>)
      returns (Q': seq<Node>, dist': map<Node, uint32>, prev': map<Node, seq<Node>>, path': map<Node, seq<seq<Node>>>)
      requires Finalized() && src in nodes
      requires Positive(NetOf(minEdges, ops)) && PathSumsFit(NetOf(minEdges, ops), src)
      requires Queued(Q, NodeSet(), done) && at < |Q|
      requires SearchInv(NetOf(minEdges, ops), NodeSet(), src, done, LinksFrom(NetOf(minEdges, ops), done), dist, prev)
      requires PathsSoFar(NodeSet(), done, prev, path)
      requires dist[Q[at]] < UINT32_MAX && forall v :: v in Q ==> dist[Q[at]] <= dist[v]
      ensures Q' == Q[..at] + Q[at+1..]
      ensures Queued(Q', NodeSet(), done + {Q[at]})
      ensures SearchInv(NetOf(minEdges, ops), NodeSet(), src, done + {Q[at]},
                        LinksFrom(NetOf(minEdges, ops), done + {Q[at]}), dist', prev')
      ensures PathsSoFar(NodeSet(), done + {Q[at]}, prev', path')
    {
      hide SearchInv, PathSumsFit, MinEdgesAre;
      ghost var net, all := NetOf(minEdges, ops), NodeSet();
      var u := Q[at];
      ghost var done' := done + {u};
      PopStep(net, all, src, done, LinksFrom(net, done), dist, prev, u);
      SearchRooted(net, all, src, done', LinksFrom(net, done), dist, prev);
      var S := ComputePaths([], prev, u, dist, done', src);
      path' := path[u := S];
      assert PathsSoFar(all, done', prev, path');
      Removed(Q, at, all, done);
      Q' := Q[..at] + Q[at+1..];
      assert done' - {u} == done;
      NeighboursAreLinks(ops, u);
      dist', prev' := RelaxNeighbours(src, ops, u, neighs[u], Q', dist, prev, all, done');
      PathsKept(net, all, src, done', LinksFrom(net, done), dist, prev, dist', prev', path');
    }

    ghost predicate CacheAgrees()
      reads this
    {
      CacheIsRight(NetOf(minEdges, IgpMetric), NodeSet(), dcache)
    }

    method BuildCacheOne(node: Node)
      requires Finalized() && node in nodes && CacheAgrees()
      requires Positive(NetOf(minEdges, IgpMetric)) && PathSumsFit(NetOf(minEdges, IgpMetric), node)
      modifies this`dcache
      ensures CacheAgrees() && dcache.Keys == old(dcache.Keys) + {node}
    {
      var res := Dijkstra(node, IgpMetric);
      CacheGrows(NetOf(minEdges, IgpMetric), NodeSet(), dcache, node, res);
      dcache := dcache[node := res];
    }

    method InitSearch(src: Node)
      returns (dist: map<Node, uint32>, prev: map<Node, seq<Node>>, path: map<Node, seq<seq<Node>>>)
      ensures dist.Keys == prev.Keys == path.Keys == NodeSet()
      ensures forall v :: v in dist ==>
        dist[v] == (if v == src then 0 else UINT32_MAX) && prev[v] == [] && path[v] == []
    {
      dist, prev, path := map[], map[], map[];
      var i := 0;
      while i < |nodes|
        invariant 0 <= i <= |nodes|
        invariant dist.Keys == prev.Keys == path.Keys == ToSet(nodes[..i])
        invariant forall v :: v in dist ==>
          dist[v] == (if v == src then 0 else UINT32_MAX) && prev[v] == [] && path[v] == []
      {
        var node := nodes[i];
        assert nodes[..i+1] == nodes[..i] + [node];
        dist := dist[node := if node == src then 0 else UINT32_MAX];
        prev := prev[node := []];
        path := path[node := []];
        i := i + 1;
      }
      assert nodes[..|nodes|] == nodes;
    }

    /** Relaxes every link from `u` to a node still queued. */
    method RelaxNeighbours(src: Node, ops: CostOps, u: Node, ns: seq<Node>, Q: seq<Node>,
                           dist0: map<Node, uint32>, prev0: map<Node, seq<Node>>, ghost all: set<Node>,
                             ghost done: set<Node>)
      returns (dist: map<Node, uint32>, prev: map<Node, seq<Node>>)
      requires Positive(NetOf(minEdges, ops)) && PathSumsFit(NetOf(minEdges, ops), src)
      requires NeighbourLinks(NetOf(minEdges, ops), all, u, ns)
      requires u in done && Queued(Q, all, done)
      requires SearchInv(NetOf(minEdges, ops), all, src, done, LinksFrom(NetOf(minEdges, ops), done - {u}), dist0,
                         prev0)
      requires NearestDone(dist0, done, u)
      ensures SearchInv(NetOf(minEdges, ops), all, src, done, LinksFrom(NetOf(minEdges, ops), done), dist, prev)
      ensures SameOn(done, dist0, prev0, dist, prev)
    {
      hide SearchInv, PathSumsFit;
      ghost var net := NetOf(minEdges, ops);
      DoneMapped(net, all, src, done, LinksFrom(net, done - {u}), dist0, prev0);
      dist, prev := dist0, prev0;
      var i := 0;
      assert LinksFrom(net, done - {u}) + LinksInto(net, u, ns[..0]) == LinksFrom(net, done - {u});
      while i < |ns|
        invariant 0 <= i <= |ns|
        invariant SearchInv(net, all, src, done, LinksFrom(net, done - {u}) + LinksInto(net, u, ns[..i]), dist, prev)
        invariant SameOn(done, dist0, prev0, dist, prev) && NearestDone(dist, done, u)
      {
        ghost var dist1, prev1 := dist, prev;
        RelaxableAt(net, all, src, Q, done, ns, i, dist, prev, u);
        dist, prev := RelaxOne(ops, u, ns[i], Q, dist, prev);
        OneRelaxed(net, all, src, Q, done, ns, i, dist1, prev1, u, dist, prev);
        i := i + 1;
      }
      AllLinksSeen(net, u, ns, done);
    }

    /** One step of the neighbour loop: only a queued neighbour is looked at. */
    method RelaxOne(ops: CostOps, u: Node, v: Node, Q: seq<Node>,
                    dist0: map<Node, uint32>, prev0: map<Node, seq<Node>>)
      returns (dist: map<Node, uint32>, prev: map<Node, seq<Node>>)
      requires u in dist0 && v in dist0 && v in prev0
      requires v in Q ==> (u, v) in minEdges && dist0[u] + NetOf(minEdges, ops)[(u, v)] < UINT32_MAX
      ensures LookedAt(NetOf(minEdges, ops), Q, dist0, prev0, u, v, dist, prev)
    {
      dist, prev := dist0, prev0;
      if v in Q {
        assert (u, v) in minEdges;
        var minEdge := minEdges[(u, v)];
        var alt := (dist[u] + EdgeCost(ops, minEdge)) % (UINT32_MAX + 1);
        if alt < dist[v] {
          prev := prev[v := [u]];
          dist := dist[v := alt];
        } else if alt == dist[v] {
          prev := prev[v := prev[v] + [u]];
        }
      }
    }
  }

  ghost predicate CacheIsRight(net: Links, all: set<Node>, cache: map<Node, Dres>) {
    forall n {:trigger CachedRight(net, all, cache, n)} :: n in cache ==> CachedRight(net, all, cache, n)
  }

  ghost predicate CachedRight(net: Links, all: set<Node>, cache: map<Node, Dres>, n: Node)
    requires n in cache
  {
    n in all && IsSpDag(net, all, n, cache[n])
  }

  lemma CacheGrows(net: Links, all: set<Node>, cache: map<Node, Dres>, n: Node, res: Dres)
    requires CacheIsRight(net, all, cache) && n in all && IsSpDag(net, all, n, res)
    ensures CacheIsRight(net, all, cache[n := res])
  {
    var cache' := cache[n := res];
    forall x | x in cache' ensures CachedRight(net, all, cache', x) {
      if x != n {
        assert CachedRight(net, all, cache, x);
      }
    }
  }

  ghost predicate NearestDone(dist: map<Node, uint32>, done: set<Node>, u: Node) {
    u in done && u in dist && forall x :: x in done ==> x in dist && dist[x] <= dist[u]
  }

  /** `ns` lists the nodes `u` has a link to, itself possibly among them. */
  ghost predicate NeighbourLinks(net: Links, all: set<Node>, u: Node, ns: seq<Node>) {
    && NoDup(ns)
    && (forall v :: v in ns ==> v in all && (v != u ==> (u, v) in net))
    && (forall v :: (u, v) in net ==> v in ns && v != u)
  }

  lemma RelaxableAt(net: Links, all: set<Node>, s: Node, Q: seq<Node>, done: set<Node>, ns: seq<Node>, i: nat,
                    dist: map<Node, uint32>, prev: map<Node, seq<Node>>, u: Node)
    requires NeighbourLinks(net, all, u, ns) && i < |ns| && u in done && Queued(Q, all, done)
    requires Positive(net) && PathSumsFit(net, s)
    requires SearchInv(net, all, s, done, LinksFrom(net, done - {u}) + LinksInto(net, u, ns[..i]), dist, prev)
    ensures u in dist && ns[i] in dist && ns[i] in prev
    ensures ns[i] in Q ==> (u, ns[i]) in net && dist[u] + net[(u, ns[i])] < UINT32_MAX
  {
    if ns[i] in Q {
      RelaxFits(net, all, s, done, LinksFrom(net, done - {u}) + LinksInto(net, u, ns[..i]), dist, prev, u, ns[i]);
    }
  }

  lemma PathsKept(net: Links, all: set<Node>, s: Node, done: set<Node>, relaxed: set<(Node, Node)>,
                  dist0: map<Node, uint32>, prev0: map<Node, seq<Node>>,
                  dist: map<Node, uint32>, prev: map<Node, seq<Node>>, path: map<Node, seq<seq<Node>>>)
    requires Positive(net) && SearchInv(net, all, s, done, relaxed, dist0, prev0)
    requires SameOn(done, dist0, prev0, dist, prev) && PathsSoFar(all, done, prev0, path)
    ensures PathsSoFar(all, done, prev, path)
  {
    SearchRooted(net, all, s, done, relaxed, dist0, prev0);
    forall v | v in done ensures ListsChains(prev, v, path[v]) {
      ListsChainsFrame(prev0, prev, done, v, path[v]);
    }
  }

  /** What one step of the neighbour loop does. */
  ghost predicate LookedAt(net: Links, Q: seq<Node>, dist0: map<Node, uint32>, prev0: map<Node, seq<Node>>,
                           u: Node, v: Node, dist: map<Node, uint32>, prev: map<Node, seq<Node>>)
    requires u in dist0 && v in dist0 && v in prev0 && (v in Q ==> (u, v) in net)
  {
    if v in Q then Relaxed(dist0, prev0, u, v, dist0[u] + net[(u, v)], dist, prev)
    else dist == dist0 && prev == prev0
  }

  lemma OneRelaxed(net: Links, all: set<Node>, s: Node, Q: seq<Node>, done: set<Node>, ns: seq<Node>, i: nat,
                   dist0: map<Node, uint32>, prev0: map<Node, seq<Node>>, u: Node,
                   dist: map<Node, uint32>, prev: map<Node, seq<Node>>)
    requires NeighbourLinks(net, all, u, ns) && i < |ns| && u in done && Queued(Q, all, done)
    requires Positive(net) && NearestDone(dist0, done, u)
    requires SearchInv(net, all, s, done, LinksFrom(net, done - {u}) + LinksInto(net, u, ns[..i]), dist0, prev0)
    requires ns[i] in Q ==> dist0[u] + net[(u, ns[i])] < UINT32_MAX
    requires LookedAt(net, Q, dist0, prev0, u, ns[i], dist, prev)
    ensures SearchInv(net, all, s, done, LinksFrom(net, done - {u}) + LinksInto(net, u, ns[..i+1]), dist, prev)
    ensures SameOn(done, dist0, prev0, dist, prev) && NearestDone(dist, done, u)
  {
    var relaxed := LinksFrom(net, done - {u}) + LinksInto(net, u, ns[..i]);
    NextLink(net, u, ns, i, relaxed, done);
    if ns[i] !in done {
      RelaxStep(net, all, s, done, relaxed, dist0, prev0, u, ns[i], dist, prev);
    } else if ns[i] != u {
      SkipStep(net, all, s, done, relaxed, dist, prev, u, ns[i]);
    }
  }

  ghost predicate Queued(Q: seq<Node>, all: set<Node>, done: set<Node>) {
    NoDup(Q) && forall v :: v in Q <==> v in all && v !in done
  }

  ghost predicate PathsSoFar(all: set<Node>, done: set<Node>, prev: map<Node, seq<Node>>,
                             path: map<Node, seq<seq<Node>>>)
  {
    && path.Keys == all
    && forall v :: v in all ==> if v in done then ListsChains(prev, v, path[v]) else path[v] == []
  }

  ghost predicate SameOn(done: set<Node>, dist0: map<Node, uint32>, prev0: map<Node, seq<Node>>,
                         dist: map<Node, uint32>, prev: map<Node, seq<Node>>) {
    forall x :: x in done ==>
      x in dist0 && x in prev0 && x in dist && x in prev && dist[x] == dist0[x] && prev[x] == prev0[x]
  }

  lemma DoneMapped(net: Links, all: set<Node>, s: Node, done: set<Node>, seen: set<(Node, Node)>,
                   dist: map<Node, uint32>, prev: map<Node, seq<Node>>)
    requires SearchInv(net, all, s, done, seen, dist, prev)
    ensures SameOn(done, dist, prev, dist, prev)
  {
  }

  ghost function LinksInto(net: Links, u: Node, vs: seq<Node>): set<(Node, Node)> {
    set e | e in net.Keys && e.0 == u && e.1 in vs
  }

  lemma NextLink(net: Links, u: Node, ns: seq<Node>, i: nat, relaxed: set<(Node, Node)>, done: set<Node>)
    requires NoDup(ns) && i < |ns|
    requires forall v :: v in ns && v != u ==> (u, v) in net
    requires forall v :: (u, v) in net ==> v != u
    requires relaxed == LinksFrom(net, done - {u}) + LinksInto(net, u, ns[..i])
    ensures (u, ns[i]) !in relaxed
    ensures LinksFrom(net, done - {u}) + LinksInto(net, u, ns[..i+1])
         == if ns[i] == u then relaxed else relaxed + {(u, ns[i])}
  {
    assert ns[..i+1] == ns[..i] + [ns[i]];
    assert ns[i] !in ns[..i];
    forall e ensures e in LinksInto(net, u, ns[..i+1]) <==>
                     e in LinksInto(net, u, ns[..i]) || (ns[i] != u && e == (u, ns[i])) {
      if e in net && e.0 == u && e.1 == ns[i] {
        assert e == (u, ns[i]);
      }
    }
  }

  lemma AllLinksSeen(net: Links, u: Node, ns: seq<Node>, done: set<Node>)
    requires u in done && forall v :: (u, v) in net ==> v in ns
    ensures LinksFrom(net, done - {u}) + LinksInto(net, u, ns[..|ns|]) == LinksFrom(net, done)
  {
    assert ns[..|ns|] == ns;
    forall e | e in net && e.0 == u ensures e.1 in ns {
      assert e == (u, e.1);
    }
  }

  lemma SearchStarts(net: Links, nodes: set<Node>, s: Node, dist: map<Node, uint32>, prev: map<Node, seq<Node>>)
    requires dist.Keys == prev.Keys == nodes && s in nodes
    requires forall v :: v in nodes ==> dist[v] == (if v == s then 0 else UINT32_MAX) && prev[v] == []
    ensures SearchInv(net, nodes, s, {}, LinksFrom(net, {}), dist, prev)
  {
    assert LinksFrom(net, {}) == {};
  }

  lemma Removed(Q: seq<Node>, at: nat, all: set<Node>, done: set<Node>)
    requires Queued(Q, all, done) && at < |Q|
    ensures Queued(Q[..at] + Q[at+1..], all, done + {Q[at]})
  {
    var Q' := Q[..at] + Q[at+1..];
    forall v | v in Q && v != Q[at] ensures v in Q' {
      var i :| 0 <= i < |Q| && Q[i] == v;
      assert if i < at then Q'[i] == v else Q'[i-1] == v;
    }
  }
}
