/** The value-level specification of the ECMP Dijkstra: predecessor lists, the
    paths they spell, and the step-by-step invariant of the search. */
module ShortestPathDag {
  import opened Network

  const UINT32_MAX: nat := 0xFFFF_FFFF
  type uint32 = x: int | 0 <= x <= 0xFFFF_FFFF

  /** What one run of the search leaves behind: distances, predecessor lists and
      enumerated paths, each total over the nodes of the graph. */
  datatype Dres = Dres(dist: map<Node, uint32>, prev: map<Node, seq<Node>>, path: map<Node, seq<seq<Node>>>)

  ghost predicate NoDup<T(!new)>(s: seq<T>) {
    forall i, j :: 0 <= i < j < |s| ==> s[i] != s[j]
  }

  lemma NoMembers<T(!new)>(s: seq<T>)
    ensures s == [] <==> forall x :: x !in s
  {
    if s != [] {
      assert s[0] in s;
    }
  }

  function Reverse(s: seq<Node>): (r: seq<Node>)
    ensures |r| == |s|
  {
    if s == [] then [] else Reverse(s[1..]) + [s[0]]
  }

  /** No walk without repeated nodes costs as much as the "infinite" distance. */
  ghost predicate PathSumsFit(net: Links, s: Node) {
    forall p {:trigger Simple(p)} :: Walk(net, p) && p[0] == s && Simple(p) ==> Cost(net, p) < UINT32_MAX
  }

  ghost predicate DistOK(net: Links, s: Node, v: Node, d: nat) {
    && (d < UINT32_MAX <==> Reachable(net, s, v))
    && (d <= UINT32_MAX)
    && (forall p {:trigger ShortestBetween(net, s, v, p)} :: ShortestBetween(net, s, v, p) ==> Cost(net, p) == d)
  }

  ghost predicate PredsOK(net: Links, s: Node, v: Node, ps: seq<Node>) {
    NoDup(ps) && forall u :: u in ps <==> Tight(net, s, u, v)
  }

  /** `ps` lists every shortest walk from `s` to `v` once, each written backwards
      with the source left out. */
  ghost predicate PathsOK(net: Links, s: Node, v: Node, ps: seq<seq<Node>>) {
    NoDup(ps) && forall q {:trigger q in ps} :: q in ps <==> ShortestBetween(net, s, v, [s] + Reverse(q))
  }

  ghost predicate IsSpDag(net: Links, nodes: set<Node>, s: Node, r: Dres) {
    && r.dist.Keys == r.prev.Keys == r.path.Keys == nodes
    && (forall v :: v in nodes ==>
          DistOK(net, s, v, r.dist[v]) && PredsOK(net, s, v, r.prev[v]) && PathsOK(net, s, v, r.path[v]))
  }

  /** The length of a predecessor list is the number of tight predecessors. */
  lemma {:induction false} NoDupCount(ps: seq<Node>, us: set<Node>)
    requires NoDup(ps) && forall u :: u in ps <==> u in us
    ensures |ps| == |us|
    decreases ps
  {
    if ps != [] {
      assert ps == [ps[0]] + ps[1..];
      NoDupCount(ps[1..], us - {ps[0]});
    } else {
      assert us == {};
    }
  }

  lemma PredsCount(net: Links, s: Node, v: Node, ps: seq<Node>)
    requires PredsOK(net, s, v, ps)
    ensures |ps| == |TightPreds(net, s, v)|
  {
    TightPredsAre(net, s, v);
    NoDupCount(ps, TightPreds(net, s, v));
  }

  /* ---- Chains of predecessors ---- */

  /** `t` walks backwards from `u` along the predecessor lists and stops before the
      first node that has none. */
  ghost predicate Chain(prev: map<Node, seq<Node>>, u: Node, t: seq<Node>)
    decreases t
  {
    u in prev &&
    if t == [] then prev[u] == []
    else t[0] == u && exists p :: p in prev[u] && Chain(prev, p, t[1..])
  }

  /** On `nodes` the lists lead, with falling rank, to `s` and nowhere else. */
  ghost predicate Rooted(prev: map<Node, seq<Node>>, rank: map<Node, uint32>, nodes: set<Node>, s: Node) {
    forall x :: x in nodes ==>
      && x in prev && x in rank && NoDup(prev[x]) && (prev[x] == [] ==> x == s)
      && forall p :: p in prev[x] ==> p in nodes && p in rank && rank[p] < rank[x]
  }

  lemma {:induction false} ChainFrame(prev: map<Node, seq<Node>>, prev': map<Node, seq<Node>>, nodes: set<Node>,
                                      u: Node, t: seq<Node>)
    requires u in nodes
    requires forall x :: x in nodes ==> x in prev && x in prev' && prev[x] == prev'[x]
    requires forall x, p :: x in nodes && p in prev[x] ==> p in nodes
    ensures Chain(prev, u, t) <==> Chain(prev', u, t)
    decreases t
  {
    if t != [] {
      forall p | p in prev[u] ensures Chain(prev, p, t[1..]) <==> Chain(prev', p, t[1..]) {
        ChainFrame(prev, prev', nodes, p, t[1..]);
      }
    }
  }

  /** `ps` lists the chains from `u`, each once. */
  ghost predicate ListsChains(prev: map<Node, seq<Node>>, u: Node, ps: seq<seq<Node>>) {
    NoDup(ps) && forall t :: t in ps <==> Chain(prev, u, t)
  }

  lemma ListsChainsFrame(prev: map<Node, seq<Node>>, prev': map<Node, seq<Node>>, nodes: set<Node>, u: Node,
                         ps: seq<seq<Node>>)
    requires u in nodes && ListsChains(prev, u, ps)
    requires forall x :: x in nodes ==> x in prev && x in prev' && prev[x] == prev'[x]
    requires forall x, p :: x in nodes && p in prev[x] ==> p in nodes
    ensures ListsChains(prev', u, ps)
  {
    forall t ensures t in ps <==> Chain(prev', u, t) {
      ChainFrame(prev, prev', nodes, u, t);
    }
  }

  /* ---- The search invariant ---- */

  ghost predicate LinksWithin(net: Links, nodes: set<Node>) {
    forall e :: e in net ==> e.0 in nodes && e.1 in nodes
  }

  /** State of the search: `done` nodes have left the queue, the links in `relaxed`
      have been looked at. */
  ghost predicate SearchInv(net: Links, nodes: set<Node>, s: Node, done: set<Node>, relaxed: set<(Node, Node)>,
                            dist: map<Node, uint32>, prev: map<Node, seq<Node>>) {
    && dist.Keys == prev.Keys == nodes
    && OrderInv(nodes, s, done, dist)
    && RelaxedInv(net, nodes, done, relaxed, dist)
    && forall v {:trigger PrevInv(net, s, relaxed, dist, prev, v)} :: v in nodes ==>
         PrevInv(net, s, relaxed, dist, prev, v)
  }

  ghost predicate OrderInv(nodes: set<Node>, s: Node, done: set<Node>, dist: map<Node, uint32>)
    requires dist.Keys == nodes
  {
    && s in nodes && dist[s] == 0
    && (s in done || (done == {} && forall v :: v in nodes && v != s ==> dist[v] == UINT32_MAX))
    && (forall u :: u in done ==> u in nodes && dist[u] < UINT32_MAX)
    && (forall u, v :: u in done && v in nodes && v !in done ==> dist[u] <= dist[v])
  }

  ghost predicate RelaxedInv(net: Links, nodes: set<Node>, done: set<Node>, relaxed: set<(Node, Node)>,
                             dist: map<Node, uint32>)
    requires dist.Keys == nodes
  {
    forall e :: e in relaxed ==>
      e in net && e.0 in done && e.0 in nodes && e.1 in nodes && dist[e.1] <= dist[e.0] + net[e]
  }

  ghost predicate PrevInv(net: Links, s: Node, relaxed: set<(Node, Node)>,
                          dist: map<Node, uint32>, prev: map<Node, seq<Node>>, v: Node)
    requires v in dist && v in prev
    requires forall e :: e in relaxed ==> e in net && e.0 in dist
  {
    && NoDup(prev[v])
    && (v != s && dist[v] < UINT32_MAX ==> prev[v] != [])
    && (forall u :: u in prev[v] <==> (u, v) in relaxed && dist[v] == dist[u] + net[(u, v)])
  }

  ghost function LinksFrom(net: Links, us: set<Node>): set<(Node, Node)> {
    set e | e in net.Keys && e.0 in us
  }

  lemma PopStep(net: Links, nodes: set<Node>, s: Node, done: set<Node>, relaxed: set<(Node, Node)>,
                dist: map<Node, uint32>, prev: map<Node, seq<Node>>, u: Node)
    requires SearchInv(net, nodes, s, done, relaxed, dist, prev)
    requires u in nodes && u !in done && dist[u] < UINT32_MAX
    requires forall v :: v in nodes && v !in done ==> dist[u] <= dist[v]
    ensures SearchInv(net, nodes, s, done + {u}, relaxed, dist, prev)
    ensures forall x :: x in done + {u} ==> dist[x] <= dist[u]
  {
  }

  /** Every finished node but the source has a finished node before it. */
  lemma DoneBefore(net: Links, nodes: set<Node>, s: Node, done: set<Node>, relaxed: set<(Node, Node)>,
                   dist: map<Node, uint32>, prev: map<Node, seq<Node>>, u: Node) returns (x: Node)
    requires Positive(net) && SearchInv(net, nodes, s, done, relaxed, dist, prev) && u in done && u != s
    ensures x in done && (x, u) in net && x in dist && u in dist && dist[u] == dist[x] + net[(x, u)]
    ensures dist[x] < dist[u]
  {
    assert PrevInv(net, s, relaxed, dist, prev, u);
    x := prev[u][0];
    assert x in prev[u];
  }

  /** The links of the network spell, inside the finished nodes, a simple walk to
      every finished node whose cost is the recorded distance. */
  lemma {:induction false} WalkBehind(net: Links, nodes: set<Node>, s: Node, done: set<Node>,
                                      relaxed: set<(Node, Node)>, dist: map<Node, uint32>,
                                      prev: map<Node, seq<Node>>, u: Node)
    returns (p: seq<Node>)
    requires Positive(net) && SearchInv(net, nodes, s, done, relaxed, dist, prev)
    requires u in done
    ensures WalkBetween(net, s, u, p) && Cost(net, p) == dist[u]
    ensures forall i :: 0 <= i < |p| ==> p[i] in done
    ensures forall i, j :: 0 <= i < j < |p| ==> dist[p[i]] < dist[p[j]]
    decreases dist[u]
  {
    if u == s {
      p := [s];
    } else {
      hide SearchInv, Cost, Walk;
      var x := DoneBefore(net, nodes, s, done, relaxed, dist, prev, u);
      var q := WalkBehind(net, nodes, s, done, relaxed, dist, prev, x);
      p := q + [u];
      BetweenSnoc(net, s, q, u);
      forall i, j | 0 <= i < j < |p| ensures dist[p[i]] < dist[p[j]] {
        if j == |q| && i < |q| - 1 {
          assert dist[q[i]] < dist[q[|q|-1]];
        }
      }
    }
  }

  /** So relaxing a link out of a finished node cannot wrap around. */
  lemma RelaxFits(net: Links, nodes: set<Node>, s: Node, done: set<Node>, relaxed: set<(Node, Node)>,
                  dist: map<Node, uint32>, prev: map<Node, seq<Node>>, u: Node, v: Node)
    requires Positive(net) && PathSumsFit(net, s) && SearchInv(net, nodes, s, done, relaxed, dist, prev)
    requires u in done && v in nodes && v !in done && (u, v) in net
    ensures dist[u] + net[(u, v)] < UINT32_MAX
  {
    var p := WalkBehind(net, nodes, s, done, relaxed, dist, prev, u);
    CostSnoc(net, p, v);
    assert Simple(p + [v]);
  }

  ghost predicate Relaxed(dist: map<Node, uint32>, prev: map<Node, seq<Node>>, u: Node, v: Node, alt: nat,
                          dist': map<Node, uint32>, prev': map<Node, seq<Node>>)
    requires v in dist && v in prev
  {
    && alt <= UINT32_MAX
    && if alt < dist[v] then dist' == dist[v := alt] && prev' == prev[v := [u]]
    else if alt == dist[v] then dist' == dist && prev' == prev[v := prev[v] + [u]]
    else dist' == dist && prev' == prev
  }

  /** Relaxing `(u, v)` keeps the predecessor list of `v` exact. */
  lemma RelaxedPreds(net: Links, s: Node, done: set<Node>, relaxed: set<(Node, Node)>,
                     dist: map<Node, uint32>, prev: map<Node, seq<Node>>, u: Node, v: Node,
                     dist': map<Node, uint32>, prev': map<Node, seq<Node>>)
    requires v in dist && v in prev && v !in done && u in done
    requires forall e :: e in relaxed ==>
      e in net && e.0 in done && e.0 in dist && e.1 in dist && dist[e.1] <= dist[e.0] + net[e]
    requires PrevInv(net, s, relaxed, dist, prev, v)
    requires u in dist && (u, v) in net && (u, v) !in relaxed
    requires dist[u] + net[(u, v)] < UINT32_MAX
    requires Relaxed(dist, prev, u, v, dist[u] + net[(u, v)], dist', prev')
    ensures PrevInv(net, s, relaxed + {(u, v)}, dist', prev', v)
  {
    var relaxed' := relaxed + {(u, v)};
    assert u !in prev[v];
    forall y ensures y in prev'[v] <==> (y, v) in relaxed' && dist'[v] == dist'[y] + net[(y, v)] {
      if (y, v) in relaxed {
        assert y in done && dist'[y] == dist[y];
      } else if y != u {
        assert y !in prev[v];
      }
    }
  }

  lemma RelaxStep(net: Links, nodes: set<Node>, s: Node, done: set<Node>, relaxed: set<(Node, Node)>,
                  dist: map<Node, uint32>, prev: map<Node, seq<Node>>, u: Node, v: Node,
                  dist': map<Node, uint32>, prev': map<Node, seq<Node>>)
    requires Positive(net) && SearchInv(net, nodes, s, done, relaxed, dist, prev)
    requires u in done && forall x :: x in done ==> dist[x] <= dist[u]
    requires v in nodes && v !in done && (u, v) in net && (u, v) !in relaxed
    requires dist[u] + net[(u, v)] < UINT32_MAX
    requires Relaxed(dist, prev, u, v, dist[u] + net[(u, v)], dist', prev')
    ensures SearchInv(net, nodes, s, done, relaxed + {(u, v)}, dist', prev')
    ensures forall x :: x in done ==> dist'[x] == dist[x] && prev'[x] == prev[x]
  {
    RelaxOthers(net, nodes, s, done, relaxed, dist, prev, u, v, dist', prev');
    forall x | x in nodes ensures PrevInv(net, s, relaxed + {(u, v)}, dist', prev', x) {
      assert PrevInv(net, s, relaxed, dist, prev, x);
      if x == v {
        RelaxedPreds(net, s, done, relaxed, dist, prev, u, v, dist', prev');
      } else {
        UnrelaxedPreds(net, s, done, relaxed, dist, prev, u, v, dist', prev', x);
      }
    }
  }

  /** Relaxing `(u, v)` touches only `v`, which stays behind every finished node. */
  lemma RelaxOthers(net: Links, nodes: set<Node>, s: Node, done: set<Node>, relaxed: set<(Node, Node)>,
                    dist: map<Node, uint32>, prev: map<Node, seq<Node>>, u: Node, v: Node,
                    dist': map<Node, uint32>, prev': map<Node, seq<Node>>)
    requires dist.Keys == prev.Keys == nodes
    requires Positive(net) && OrderInv(nodes, s, done, dist) && RelaxedInv(net, nodes, done, relaxed, dist)
    requires v in nodes && v !in done && u in done && (u, v) in net
    requires forall x :: x in done ==> dist[x] <= dist[u]
    requires Relaxed(dist, prev, u, v, dist[u] + net[(u, v)], dist', prev')
    ensures dist'.Keys == prev'.Keys == nodes
    ensures OrderInv(nodes, s, done, dist') && RelaxedInv(net, nodes, done, relaxed + {(u, v)}, dist')
    ensures forall x :: x in nodes && x != v ==> dist'[x] == dist[x] && prev'[x] == prev[x]
  {
    Lowered(net, nodes, dist, prev, u, v, dist', prev');
    LoweredOrder(net, nodes, s, done, relaxed, dist, u, v, dist');
  }

  lemma Lowered(net: Links, nodes: set<Node>, dist: map<Node, uint32>, prev: map<Node, seq<Node>>, u: Node, v: Node,
                dist': map<Node, uint32>, prev': map<Node, seq<Node>>)
    requires dist.Keys == prev.Keys == nodes && Positive(net)
    requires v in nodes && u in nodes && (u, v) in net && dist[u] <= dist[v]
    requires Relaxed(dist, prev, u, v, dist[u] + net[(u, v)], dist', prev')
    ensures dist'.Keys == prev'.Keys == nodes
    ensures dist[u] <= dist'[v] <= dist[u] + net[(u, v)] && dist'[v] <= dist[v]
    ensures forall x :: x in nodes && x != v ==> dist'[x] == dist[x] && prev'[x] == prev[x]
  {
  }

  lemma LoweredOrder(net: Links, nodes: set<Node>, s: Node, done: set<Node>, relaxed: set<(Node, Node)>,
                     dist: map<Node, uint32>, u: Node, v: Node, dist': map<Node, uint32>)
    requires dist.Keys == dist'.Keys == nodes
    requires OrderInv(nodes, s, done, dist) && RelaxedInv(net, nodes, done, relaxed, dist)
    requires v in nodes && v !in done && u in done && (u, v) in net
    requires forall x :: x in done ==> dist[x] <= dist[u]
    requires forall x :: x in nodes && x != v ==> dist'[x] == dist[x]
    requires dist[u] <= dist'[v] <= dist[u] + net[(u, v)] && dist'[v] <= dist[v]
    ensures OrderInv(nodes, s, done, dist') && RelaxedInv(net, nodes, done, relaxed + {(u, v)}, dist')
  {
  }

  lemma UnrelaxedPreds(net: Links, s: Node, done: set<Node>, relaxed: set<(Node, Node)>,
                       dist: map<Node, uint32>, prev: map<Node, seq<Node>>, u: Node, v: Node,
                       dist': map<Node, uint32>, prev': map<Node, seq<Node>>, x: Node)
    requires x in dist && x in prev && x != v && v !in done && (u, v) in net && u in done && u in dist
    requires forall e :: e in relaxed ==> e in net && e.0 in done && e.0 in dist
    requires PrevInv(net, s, relaxed, dist, prev, x)
    requires dist'.Keys == dist.Keys && prev'.Keys == prev.Keys
    requires forall y :: y in dist && y != v ==> dist'[y] == dist[y]
    requires forall y :: y in prev && y != v ==> prev'[y] == prev[y]
    ensures PrevInv(net, s, relaxed + {(u, v)}, dist', prev', x)
  {
    var relaxed' := relaxed + {(u, v)};
    forall y ensures y in prev'[x] <==> (y, x) in relaxed' && dist'[x] == dist'[y] + net[(y, x)] {
      assert (y, x) in relaxed' <==> (y, x) in relaxed;
    }
  }

  /** A link into a finished node changes nothing and is never tight. */
  lemma SkipStep(net: Links, nodes: set<Node>, s: Node, done: set<Node>, relaxed: set<(Node, Node)>,
                 dist: map<Node, uint32>, prev: map<Node, seq<Node>>, u: Node, v: Node)
    requires Positive(net) && SearchInv(net, nodes, s, done, relaxed, dist, prev)
    requires u in done && forall x :: x in done ==> dist[x] <= dist[u]
    requires v in done && (u, v) in net && (u, v) !in relaxed
    ensures SearchInv(net, nodes, s, done, relaxed + {(u, v)}, dist, prev)
  {
    var relaxed' := relaxed + {(u, v)};
    forall x | x in nodes ensures PrevInv(net, s, relaxed', dist, prev, x) {
      assert PrevInv(net, s, relaxed, dist, prev, x);
    }
  }

  lemma SearchRooted(net: Links, nodes: set<Node>, s: Node, done: set<Node>, relaxed: set<(Node, Node)>,
                     dist: map<Node, uint32>, prev: map<Node, seq<Node>>)
    requires Positive(net) && SearchInv(net, nodes, s, done, relaxed, dist, prev)
    ensures Rooted(prev, dist, done, s)
  {
    forall x | x in done
      ensures NoDup(prev[x]) && (prev[x] == [] ==> x == s)
      ensures forall p :: p in prev[x] ==> p in done && dist[p] < dist[x]
    {
      assert PrevInv(net, s, relaxed, dist, prev, x);
    }
  }

  /* ---- From the final state to the specification ---- */

  ghost function Certified(nodes: set<Node>, dist: map<Node, uint32>): map<Node, nat> {
    map v | v in dist && dist[v] < UINT32_MAX :: dist[v]
  }

  lemma SearchCertifies(net: Links, nodes: set<Node>, s: Node, done: set<Node>,
                        dist: map<Node, uint32>, prev: map<Node, seq<Node>>)
    requires Positive(net) && LinksWithin(net, nodes)
    requires SearchInv(net, nodes, s, done, LinksFrom(net, done), dist, prev)
    requires PathSumsFit(net, s)
    requires forall v :: v in nodes && v !in done ==> dist[v] == UINT32_MAX
    ensures Certificate(net, s, Certified(nodes, dist))
  {
    var d := Certified(nodes, dist);
    var relaxed := LinksFrom(net, done);
    forall e | e in net && e.0 in d ensures e.1 in d && d[e.1] <= d[e.0] + net[e] {
      assert e == (e.0, e.1);
      assert e in relaxed;
      if e.1 !in done {
        RelaxFits(net, nodes, s, done, relaxed, dist, prev, e.0, e.1);
      }
    }
    forall v | v in d && v != s ensures Attained(net, d, v) {
      assert PrevInv(net, s, relaxed, dist, prev, v);
      var u := prev[v][0];
      assert u in prev[v] && (u, v) in relaxed;
      assert u in d;
    }
  }

  ghost predicate PredsFromCertificate(net: Links, d: map<Node, nat>, prev: map<Node, seq<Node>>) {
    && (forall v :: v in d ==> v in prev)
    && (forall u, v :: v in d ==> (u in prev[v] <==> (u, v) in net && u in d && d[v] == d[u] + net[(u, v)]))
  }

  /** Following predecessors backwards spells exactly the shortest walks. */
  lemma {:induction false} ChainIsShortest(net: Links, s: Node, d: map<Node, nat>, prev: map<Node, seq<Node>>, v: Node,
                                           t: seq<Node>)
    requires Certificate(net, s, d) && PredsFromCertificate(net, d, prev) && v in d
    ensures Chain(prev, v, t) <==> ShortestBetween(net, s, v, [s] + Reverse(t))
    decreases t
  {
    if t == [] {
      EmptyChain(net, s, d, prev, v);
      assert [s] + Reverse(t) == [s];
    } else {
      forall x | x in prev[v]
        ensures Chain(prev, x, t[1..]) <==> ShortestBetween(net, s, x, [s] + Reverse(t[1..]))
      {
        ChainIsShortest(net, s, d, prev, x, t[1..]);
      }
      ChainStep(net, s, d, prev, v, t);
    }
  }

  lemma ChainStep(net: Links, s: Node, d: map<Node, nat>, prev: map<Node, seq<Node>>, v: Node, t: seq<Node>)
    requires Certificate(net, s, d) && PredsFromCertificate(net, d, prev) && v in d && t != []
    requires forall x :: x in prev[v] ==>
      (Chain(prev, x, t[1..]) <==> ShortestBetween(net, s, x, [s] + Reverse(t[1..])))
    ensures Chain(prev, v, t) <==> ShortestBetween(net, s, v, [s] + Reverse(t))
  {
    var a := [s] + Reverse(t[1..]);
    assert [s] + Reverse(t) == a + [t[0]];
    ShortestSnoc(net, s, d, v, a, t[0]);
    ChainSnoc(net, s, d, prev, v, t, a);
  }

  lemma ChainSnoc(net: Links, s: Node, d: map<Node, nat>, prev: map<Node, seq<Node>>, v: Node, t: seq<Node>,
                  a: seq<Node>)
    requires PredsFromCertificate(net, d, prev) && v in d && t != [] && a != []
    requires forall x :: x in prev[v] ==> (Chain(prev, x, t[1..]) <==> ShortestBetween(net, s, x, a))
    ensures var p := a[|a|-1]; Chain(prev, v, t) <==>
      t[0] == v && ShortestBetween(net, s, p, a) && p in d && (p, v) in net && d[v] == d[p] + net[(p, v)]
  {
    var p := a[|a|-1];
    if Chain(prev, v, t) {
      var x :| x in prev[v] && Chain(prev, x, t[1..]);
      assert ShortestBetween(net, s, x, a);
    }
    if t[0] == v && ShortestBetween(net, s, p, a) && p in d && (p, v) in net && d[v] == d[p] + net[(p, v)] {
      assert p in prev[v] && Chain(prev, p, t[1..]);
    }
  }

  lemma EmptyChain(net: Links, s: Node, d: map<Node, nat>, prev: map<Node, seq<Node>>, v: Node)
    requires Certificate(net, s, d) && PredsFromCertificate(net, d, prev) && v in d
    ensures prev[v] == [] <==> v == s
    ensures ShortestBetween(net, s, v, [s]) <==> v == s
  {
    StayingIsShortest(net, s, [s]);
    NoMembers(prev[v]);
    if v == s {
      forall u ensures u !in prev[v] {
        if (u, v) in net && u in d {
          assert net[(u, v)] >= 1;
        }
      }
    } else {
      assert Attained(net, d, v);
      var u :| u in d && (u, v) in net && d[v] == d[u] + net[(u, v)];
      assert u in prev[v];
    }
  }

  /** A walk is shortest to `v` when it ends in `v`, is shortest up to its last hop,
      and the last hop is tight. */
  lemma ShortestSnoc(net: Links, s: Node, d: map<Node, nat>, v: Node, a: seq<Node>, x: Node)
    requires Certificate(net, s, d) && v in d
    requires |a| >= 1 && a[0] == s
    ensures var p := a[|a|-1];
      ShortestBetween(net, s, v, a + [x]) <==>
      x == v && ShortestBetween(net, s, p, a) && p in d && (p, v) in net && d[v] == d[p] + net[(p, v)]
  {
    var p, w := a[|a|-1], a + [x];
    CertificateTight(net, s, d, p, v);
    if ShortestBetween(net, s, v, w) {
      PrefixShortest(net, w, |w|-2);
      assert w[..|w|-2+1] == a;
      CertificateShortest(net, s, d, a);
      assert TightVia(net, s, p, v, w);
    }
    if x == v && ShortestBetween(net, s, p, a) && Tight(net, s, p, v) {
      TightExtends(net, p, v, a);
    }
  }

  lemma SearchDistances(net: Links, nodes: set<Node>, s: Node, d: map<Node, nat>, v: Node, x: uint32)
    requires Certificate(net, s, d)
    requires v in d <==> x < UINT32_MAX
    requires v in d ==> d[v] == x
    ensures DistOK(net, s, v, x)
  {
    CertificateReachable(net, s, d, v);
    forall p | ShortestBetween(net, s, v, p) ensures Cost(net, p) == x {
      CertificateShortest(net, s, d, p);
    }
  }

  lemma SearchPreds(net: Links, nodes: set<Node>, s: Node, done: set<Node>, dist: map<Node, uint32>,
                    prev: map<Node, seq<Node>>, v: Node)
    requires SearchInv(net, nodes, s, done, LinksFrom(net, done), dist, prev)
    requires Certificate(net, s, Certified(nodes, dist)) && v in nodes
    requires forall u :: u in nodes && u !in done ==> dist[u] == UINT32_MAX
    ensures PredsOK(net, s, v, prev[v])
    ensures var d := Certified(nodes, dist); v in d ==>
      forall u :: u in prev[v] <==> (u, v) in net && u in d && d[v] == d[u] + net[(u, v)]
  {
    var d, relaxed := Certified(nodes, dist), LinksFrom(net, done);
    assert PrevInv(net, s, relaxed, dist, prev, v);
    forall u ensures u in prev[v] <==> (u, v) in net && u in d && v in d && d[v] == d[u] + net[(u, v)]
             ensures u in prev[v] <==> Tight(net, s, u, v)
    {
      CertificateTight(net, s, d, u, v);
      if (u, v) in net && u in d {
        assert (u, v) in relaxed && d[u] == dist[u];
      }
      if (u, v) in relaxed {
        assert u in done;
      }
    }
  }

  lemma SearchMeetsSpec(net: Links, nodes: set<Node>, s: Node, done: set<Node>, r: Dres)
    requires Positive(net) && LinksWithin(net, nodes) && PathSumsFit(net, s)
    requires SearchInv(net, nodes, s, done, LinksFrom(net, done), r.dist, r.prev)
    requires forall v :: v in nodes && v !in done ==> r.dist[v] == UINT32_MAX
    requires r.path.Keys == nodes
    requires forall v :: v in nodes ==> if v in done then ListsChains(r.prev, v, r.path[v]) else r.path[v] == []
    ensures IsSpDag(net, nodes, s, r)
  {
    var d := Certified(nodes, r.dist);
    SearchCertifies(net, nodes, s, done, r.dist, r.prev);
    forall v | v in nodes ensures DistOK(net, s, v, r.dist[v]) && PredsOK(net, s, v, r.prev[v]) {
      SearchDistances(net, nodes, s, d, v, r.dist[v]);
      SearchPreds(net, nodes, s, done, r.dist, r.prev, v);
    }
    assert PredsFromCertificate(net, d, r.prev) by {
      forall v | v in d
        ensures forall u :: u in r.prev[v] <==> (u, v) in net && u in d && d[v] == d[u] + net[(u, v)]
      {
        SearchPreds(net, nodes, s, done, r.dist, r.prev, v);
      }
    }
    forall v | v in nodes ensures PathsOK(net, s, v, r.path[v]) {
      SearchPaths(net, s, d, r.prev, v, r.path[v]);
    }
  }

  lemma SearchPaths(net: Links, s: Node, d: map<Node, nat>, prev: map<Node, seq<Node>>, v: Node, ps: seq<seq<Node>>)
    requires Certificate(net, s, d) && PredsFromCertificate(net, d, prev)
    requires if v in d then ListsChains(prev, v, ps) else ps == []
    ensures PathsOK(net, s, v, ps)
  {
    forall q ensures q in ps <==> ShortestBetween(net, s, v, [s] + Reverse(q)) {
      if v in d {
        ChainIsShortest(net, s, d, prev, v, q);
      } else if ShortestBetween(net, s, v, [s] + Reverse(q)) {
        CertificateBounds(net, s, d, [s] + Reverse(q));
      }
    }
  }
}
