/** Weighted directed networks and their shortest walks.

    This is the reference notion of "shortest path" against which the path engine
    of `Graphs` is proved.  A network is a finite map from ordered node pairs
    to the weight of the one link that counts for that pair. */
module Network {

  type Node = nat
  type Links = map<(Node, Node), nat>

  ghost predicate Positive(net: Links) {
    forall e :: e in net ==> net[e] >= 1
  }

  predicate Walk(net: Links, p: seq<Node>) {
    |p| >= 1 && forall i :: 0 <= i < |p| - 1 ==> (p[i], p[i+1]) in net
  }

  function Cost(net: Links, p: seq<Node>): nat
    requires Walk(net, p)
  {
    if |p| == 1 then 0 else Cost(net, p[..|p|-1]) + net[(p[|p|-2], p[|p|-1])]
  }

  predicate WalkBetween(net: Links, s: Node, v: Node, p: seq<Node>) {
    Walk(net, p) && p[0] == s && p[|p|-1] == v
  }

  /** No walk from `s` to `v` costs less than `c`. */
  ghost predicate Cheapest(net: Links, s: Node, v: Node, c: nat) {
    forall q {:trigger WalkBetween(net, s, v, q)} :: WalkBetween(net, s, v, q) ==> c <= Cost(net, q)
  }

  ghost predicate Shortest(net: Links, p: seq<Node>) {
    Walk(net, p) && Cheapest(net, p[0], p[|p|-1], Cost(net, p))
  }

  ghost predicate ShortestBetween(net: Links, s: Node, v: Node, p: seq<Node>) {
    Shortest(net, p) && p[0] == s && p[|p|-1] == v
  }

  ghost predicate Reachable(net: Links, s: Node, v: Node) {
    exists p :: WalkBetween(net, s, v, p)
  }

  /** `u` is the last node before `v` on some shortest walk from `s` to `v`. */
  ghost predicate Tight(net: Links, s: Node, u: Node, v: Node) {
    exists p :: TightVia(net, s, u, v, p)
  }

  ghost predicate TightVia(net: Links, s: Node, u: Node, v: Node, p: seq<Node>) {
    ShortestBetween(net, s, v, p) && |p| >= 2 && p[|p|-2] == u
  }

  ghost function TightPreds(net: Links, s: Node, v: Node): set<Node> {
    set e | e in net.Keys && e.1 == v && Tight(net, s, e.0, v) :: e.0
  }

  ghost predicate OnlyShortest(net: Links, s: Node, v: Node, p: seq<Node>) {
    && ShortestBetween(net, s, v, p)
    && forall q :: ShortestBetween(net, s, v, q) ==> q == p
  }

  /** `p` is a shortest walk and the only one between its two ends. */
  ghost predicate UniqueShortest(net: Links, p: seq<Node>) {
    |p| >= 1 && OnlyShortest(net, p[0], p[|p|-1], p)
  }

  ghost predicate Simple(p: seq<Node>) {
    forall i, j :: 0 <= i < j < |p| ==> p[i] != p[j]
  }

  /* ---- Joining and cutting walks ---- */

  lemma WalkSlice(net: Links, p: seq<Node>, i: nat, j: nat)
    requires Walk(net, p) && i < j <= |p|
    ensures Walk(net, p[i..j])
  {
    var s := p[i..j];
    forall k | 0 <= k < |s| - 1 ensures (s[k], s[k+1]) in net {
      assert s[k] == p[i+k] && s[k+1] == p[i+k+1];
    }
  }

  lemma {:induction false} CostJoin(net: Links, p: seq<Node>, q: seq<Node>)
    requires Walk(net, p) && Walk(net, q) && p[|p|-1] == q[0]
    ensures Walk(net, p + q[1..])
    ensures Cost(net, p + q[1..]) == Cost(net, p) + Cost(net, q)
    decreases |q|
  {
    var r := p + q[1..];
    forall i | 0 <= i < |r| - 1 ensures (r[i], r[i+1]) in net {
      if i < |p| - 1 {
        assert (p[i], p[i+1]) in net;
      } else {
        assert (q[i+1-|p|], q[i+2-|p|]) in net;
      }
    }
    if |q| == 1 {
      assert r == p;
    } else {
      var q' := q[..|q|-1];
      CostJoin(net, p, q');
      assert r[..|r|-1] == p + q'[1..];
    }
  }

  lemma CostSnoc(net: Links, p: seq<Node>, v: Node)
    requires Walk(net, p) && (p[|p|-1], v) in net
    ensures Walk(net, p + [v])
    ensures Cost(net, p + [v]) == Cost(net, p) + net[(p[|p|-1], v)]
  {
    var r := p + [v];
    forall i | 0 <= i < |r| - 1 ensures (r[i], r[i+1]) in net {
      if i < |p| - 1 {
        assert (p[i], p[i+1]) in net;
      }
    }
    assert r[..|r|-1] == p;
  }

  lemma CostSplit(net: Links, p: seq<Node>, k: nat)
    requires Walk(net, p) && k < |p|
    ensures Walk(net, p[..k+1]) && Walk(net, p[k..])
    ensures Cost(net, p) == Cost(net, p[..k+1]) + Cost(net, p[k..])
  {
    WalkSlice(net, p, 0, k+1);
    WalkSlice(net, p, k, |p|);
    assert p[0..k+1] == p[..k+1] && p[k..|p|] == p[k..];
    CostJoin(net, p[..k+1], p[k..]);
    assert p[..k+1] + p[k..][1..] == p;
  }

  lemma PrefixShortest(net: Links, p: seq<Node>, k: nat)
    requires Shortest(net, p) && k < |p|
    ensures Shortest(net, p[..k+1])
  {
    CostSplit(net, p, k);
    var a, b := p[..k+1], p[k..];
    forall q | WalkBetween(net, a[0], a[|a|-1], q) ensures Cost(net, a) <= Cost(net, q) {
      CostJoin(net, q, b);
      assert WalkBetween(net, p[0], p[|p|-1], q + b[1..]);
    }
  }

  lemma SuffixShortest(net: Links, p: seq<Node>, k: nat)
    requires Shortest(net, p) && k < |p|
    ensures Shortest(net, p[k..])
  {
    CostSplit(net, p, k);
    var a, b := p[..k+1], p[k..];
    forall q | WalkBetween(net, b[0], b[|b|-1], q) ensures Cost(net, b) <= Cost(net, q) {
      CostJoin(net, a, q);
      assert WalkBetween(net, p[0], p[|p|-1], a + q[1..]);
    }
  }

  /** Every part of a shortest walk is a shortest walk. */
  lemma SliceShortest(net: Links, p: seq<Node>, i: nat, j: nat)
    requires Shortest(net, p) && i < j <= |p|
    ensures Shortest(net, p[i..j])
  {
    PrefixShortest(net, p, j - 1);
    SuffixShortest(net, p[..j], i);
    assert p[..j][i..] == p[i..j];
  }

  /** Replacing a leading part by another shortest walk keeps a shortest walk. */
  lemma SwapPrefixShortest(net: Links, p: seq<Node>, k: nat, a: seq<Node>)
    requires Shortest(net, p) && k < |p|
    requires ShortestBetween(net, p[0], p[k], a)
    ensures ShortestBetween(net, p[0], p[|p|-1], a + p[k..][1..])
  {
    CostSplit(net, p, k);
    CostJoin(net, a, p[k..]);
    var r := a + p[k..][1..];
    assert p[k..][|p|-k-1] == p[|p|-1];
    assert WalkBetween(net, p[0], p[k], p[..k+1]);
  }

  /** Replacing a trailing part by another shortest walk keeps a shortest walk. */
  lemma SwapSuffixShortest(net: Links, p: seq<Node>, k: nat, b: seq<Node>)
    requires Shortest(net, p) && k < |p|
    requires ShortestBetween(net, p[k], p[|p|-1], b)
    ensures ShortestBetween(net, p[0], p[|p|-1], p[..k+1] + b[1..])
  {
    CostSplit(net, p, k);
    CostJoin(net, p[..k+1], b);
    assert WalkBetween(net, p[k], p[|p|-1], p[k..]);
  }

  /** Whenever there is a walk, there is a shortest one. */
  lemma {:induction false} ShortestExists(net: Links, s: Node, v: Node, p: seq<Node>) returns (q: seq<Node>)
    requires WalkBetween(net, s, v, p)
    ensures ShortestBetween(net, s, v, q)
    decreases Cost(net, p)
  {
    if r :| WalkBetween(net, s, v, r) && Cost(net, r) < Cost(net, p) {
      q := ShortestExists(net, s, v, r);
    } else {
      q := p;
    }
  }

  lemma PositiveCost(net: Links, p: seq<Node>)
    requires Positive(net) && Walk(net, p)
    ensures |p| >= 2 ==> Cost(net, p) >= 1
  {
  }

  /** Going nowhere is the only shortest walk from a node to itself. */
  lemma StayingIsShortest(net: Links, s: Node, p: seq<Node>)
    requires Positive(net)
    ensures UniqueShortest(net, [s])
    ensures ShortestBetween(net, s, s, p) ==> p == [s]
  {
    assert WalkBetween(net, s, s, [s]);
    forall q | ShortestBetween(net, s, s, q) ensures q == [s] {
      assert Cost(net, q) <= Cost(net, [s]);
      PositiveCost(net, q);
    }
  }

  lemma TightIsLink(net: Links, s: Node, u: Node, v: Node)
    requires Tight(net, s, u, v)
    ensures (u, v) in net && u in TightPreds(net, s, v)
  {
    var p :| TightVia(net, s, u, v, p);
    assert (p[|p|-2], p[|p|-1]) in net;
    assert (u, v) in net.Keys;
  }

  lemma TightPredsAre(net: Links, s: Node, v: Node)
    ensures forall u :: u in TightPreds(net, s, v) <==> Tight(net, s, u, v)
  {
    forall u | Tight(net, s, u, v) ensures u in TightPreds(net, s, v) {
      TightIsLink(net, s, u, v);
    }
  }

  /** A tight predecessor extends every shortest walk to it. */
  lemma TightExtends(net: Links, u: Node, v: Node, a: seq<Node>)
    requires Shortest(net, a) && a[|a|-1] == u
    requires Tight(net, a[0], u, v)
    ensures ShortestBetween(net, a[0], v, a + [v])
  {
    var p :| TightVia(net, a[0], u, v, p);
    SwapPrefixShortest(net, p, |p|-2, a);
    assert p[|p|-2..][1..] == [v];
  }

  /** Hence tightness is exactly "the extended walk is shortest". */
  lemma TightIffExtension(net: Links, u: Node, v: Node, a: seq<Node>)
    requires Shortest(net, a) && a[|a|-1] == u
    ensures Tight(net, a[0], u, v) <==> Shortest(net, a + [v])
  {
    if Tight(net, a[0], u, v) {
      TightExtends(net, u, v, a);
    }
    if Shortest(net, a + [v]) {
      assert TightVia(net, a[0], u, v, a + [v]);
    }
  }

  /* ---- Distance certificates ---- */

  /** `d` gives every node reachable from `s` a value that no link can lower and
      that some link into the node attains.  Such a `d` is the distance map. */
  ghost predicate Certificate(net: Links, s: Node, d: map<Node, nat>) {
    && Positive(net)
    && s in d && d[s] == 0
    && (forall e :: e in net && e.0 in d ==> e.1 in d && d[e.1] <= d[e.0] + net[e])
    && (forall v {:trigger Attained(net, d, v)} :: v in d && v != s ==> Attained(net, d, v))
  }

  ghost predicate Attained(net: Links, d: map<Node, nat>, v: Node) {
    v in d && exists u :: u in d && (u, v) in net && d[v] == d[u] + net[(u, v)]
  }

  lemma {:induction false} CertificateBounds(net: Links, s: Node, d: map<Node, nat>, p: seq<Node>)
    requires Certificate(net, s, d)
    requires Walk(net, p) && p[0] == s
    ensures p[|p|-1] in d && d[p[|p|-1]] <= Cost(net, p)
    decreases |p|
  {
    if |p| > 1 {
      CertificateBounds(net, s, d, p[..|p|-1]);
      assert (p[|p|-2], p[|p|-1]) in net;
    }
  }

  lemma {:induction false} CertificateAttained(net: Links, s: Node, d: map<Node, nat>, v: Node) returns (p: seq<Node>)
    requires Certificate(net, s, d) && v in d
    ensures WalkBetween(net, s, v, p) && Cost(net, p) == d[v]
    decreases d[v]
  {
    if v == s {
      p := [s];
    } else {
      hide Cost, Walk;
      assert Attained(net, d, v);
      var u :| u in d && (u, v) in net && d[v] == d[u] + net[(u, v)];
      var q := CertificateAttained(net, s, d, u);
      p := q + [v];
      BetweenSnoc(net, s, q, v);
    }
  }

  lemma BetweenSnoc(net: Links, s: Node, q: seq<Node>, v: Node)
    requires Walk(net, q) && q[0] == s && (q[|q|-1], v) in net
    ensures WalkBetween(net, s, v, q + [v]) && Cost(net, q + [v]) == Cost(net, q) + net[(q[|q|-1], v)]
  {
    CostSnoc(net, q, v);
  }

  /** The walks of certified cost are exactly the shortest ones. */
  lemma CertificateShortest(net: Links, s: Node, d: map<Node, nat>, p: seq<Node>)
    requires Certificate(net, s, d) && Walk(net, p) && p[0] == s
    ensures p[|p|-1] in d
    ensures Shortest(net, p) <==> Cost(net, p) == d[p[|p|-1]]
  {
    var v := p[|p|-1];
    CertificateBounds(net, s, d, p);
    var q := CertificateAttained(net, s, d, v);
    if Cost(net, p) == d[v] {
      forall r | WalkBetween(net, s, v, r) ensures Cost(net, p) <= Cost(net, r) {
        CertificateBounds(net, s, d, r);
      }
    }
  }

  lemma CertificateReachable(net: Links, s: Node, d: map<Node, nat>, v: Node)
    requires Certificate(net, s, d)
    ensures v in d <==> Reachable(net, s, v)
  {
    if v in d {
      var p := CertificateAttained(net, s, d, v);
    }
    if p :| WalkBetween(net, s, v, p) {
      CertificateBounds(net, s, d, p);
    }
  }

  /** Under a certificate, the tight predecessors are read off the distances. */
  lemma CertificateTight(net: Links, s: Node, d: map<Node, nat>, u: Node, v: Node)
    requires Certificate(net, s, d)
    ensures Tight(net, s, u, v) <==> (u, v) in net && u in d && v in d && d[v] == d[u] + net[(u, v)]
  {
    if Tight(net, s, u, v) {
      TightMeetsCertificate(net, s, d, u, v);
    }
    if (u, v) in net && u in d && v in d && d[v] == d[u] + net[(u, v)] {
      CertificateGivesTight(net, s, d, u, v);
    }
  }

  lemma TightMeetsCertificate(net: Links, s: Node, d: map<Node, nat>, u: Node, v: Node)
    requires Certificate(net, s, d) && Tight(net, s, u, v)
    ensures (u, v) in net && u in d && v in d && d[v] == d[u] + net[(u, v)]
  {
    var p :| TightVia(net, s, u, v, p);
    PrefixShortest(net, p, |p|-2);
    var a := p[..|p|-1];
    assert p[..|p|-2+1] == a;
    CertificateShortest(net, s, d, p);
    CertificateShortest(net, s, d, a);
    assert (p[|p|-2], p[|p|-1]) in net;
  }

  lemma CertificateGivesTight(net: Links, s: Node, d: map<Node, nat>, u: Node, v: Node)
    requires Certificate(net, s, d)
    requires (u, v) in net && u in d && v in d && d[v] == d[u] + net[(u, v)]
    ensures Tight(net, s, u, v)
  {
    var a := CertificateAttained(net, s, d, u);
    var p := a + [v];
    CostSnoc(net, a, v);
    CertificateShortest(net, s, d, p);
    assert TightVia(net, s, u, v, p);
  }
}
