/** Segment lists and the forwarding they cause (sections 3.2 and 3.4 of RFC 8402). */
module SegmentRouting {
  import opened Network
  import opened Graphs

  datatype Segment = NodeSegment(node: Node) | AdjSegment(edge: Edge)

  function Target(s: Segment): Node {
    match s
    case NodeSegment(n) => n
    case AdjSegment(e) => e.remote
  }

  /** A packet at `cur` carrying `segs` may travel along `p`: a node segment admits any
      shortest walk to its node, an adjacency segment only its own link. */
  ghost predicate Forwards(net: Links, cur: Node, segs: seq<Segment>, p: seq<Node>)
    decreases segs, 1
  {
    if segs == [] then p == [cur]
    else exists k: nat :: ForwardsVia(net, cur, segs, p, k)
  }

  ghost predicate ForwardsVia(net: Links, cur: Node, segs: seq<Segment>, p: seq<Node>, k: nat)
    requires segs != []
    decreases segs, 0
  {
    k < |p| && Leg(net, cur, segs[0], p[..k+1]) && Forwards(net, Target(segs[0]), segs[1..], p[k..])
  }

  ghost predicate Leg(net: Links, cur: Node, s: Segment, p: seq<Node>) {
    match s
    case NodeSegment(n) => ShortestBetween(net, cur, n, p)
    case AdjSegment(e) => e.local == cur && p == [e.local, e.remote] && (e.local, e.remote) in net
  }

  /** `q` is the one walk the list admits. */
  ghost predicate Forces(net: Links, cur: Node, segs: seq<Segment>, q: seq<Node>) {
    forall p :: Forwards(net, cur, segs, p) <==> p == q
  }

  function End(cur: Node, segs: seq<Segment>): Node {
    if segs == [] then cur else Target(segs[|segs|-1])
  }

  /* ---- Forwarding of concatenated lists ---- */

  lemma FirstLeg(net: Links, cur: Node, segs: seq<Segment>, p: seq<Node>) returns (k: nat)
    requires Forwards(net, cur, segs, p) && segs != []
    ensures k < |p| && Leg(net, cur, segs[0], p[..k+1]) && Forwards(net, Target(segs[0]), segs[1..], p[k..])
  {
    k :| ForwardsVia(net, cur, segs, p, k);
  }

  lemma {:induction false} ForwardsEnds(net: Links, cur: Node, segs: seq<Segment>, p: seq<Node>)
    requires Forwards(net, cur, segs, p)
    ensures |p| >= 1 && p[0] == cur && p[|p|-1] == End(cur, segs)
    decreases segs
  {
    if segs != [] {
      var k: nat :| ForwardsVia(net, cur, segs, p, k);
      ForwardsEnds(net, Target(segs[0]), segs[1..], p[k..]);
    }
  }

  lemma {:induction false} ForwardsJoin(net: Links, cur: Node, a: seq<Segment>, b: seq<Segment>, p: seq<Node>, k: nat)
    requires k < |p| && Forwards(net, cur, a, p[..k+1]) && Forwards(net, End(cur, a), b, p[k..])
    ensures Forwards(net, cur, a + b, p)
    decreases a
  {
    hide Forwards, Leg;
    if a == [] {
      ForwardsEnds(net, cur, a, p[..k+1]);
      NoSegmentsOnly(net, cur, p[..k+1]);
      assert k == 0 && p[0..] == p && a + b == b;
    } else {
      var m := FirstLeg(net, cur, a, p[..k+1]);
      CutTwice(p, m, k);
      ForwardsJoin(net, Target(a[0]), a[1..], b, p[m..], k - m);
      ListTail(a, b);
      FirstLegThen(net, cur, a + b, p, m);
    }
  }

  lemma CutTwice(p: seq<Node>, m: nat, k: nat)
    requires m <= k < |p|
    ensures p[..k+1][..m+1] == p[..m+1] && p[..k+1][m..] == p[m..][..k-m+1] && p[m..][k-m..] == p[k..]
  {
  }

  lemma ListTail(a: seq<Segment>, b: seq<Segment>)
    requires a != []
    ensures (a + b)[1..] == a[1..] + b && (a + b)[0] == a[0]
  {
  }

  lemma FirstLegThen(net: Links, cur: Node, segs: seq<Segment>, p: seq<Node>, m: nat)
    requires segs != [] && m < |p| && Leg(net, cur, segs[0], p[..m+1])
    requires Forwards(net, Target(segs[0]), segs[1..], p[m..])
    ensures Forwards(net, cur, segs, p)
  {
    assert ForwardsVia(net, cur, segs, p, m);
  }

  lemma {:induction false} ForwardsSplit(net: Links, cur: Node, a: seq<Segment>, b: seq<Segment>, p: seq<Node>)
    returns (k: nat)
    requires Forwards(net, cur, a + b, p)
    ensures k < |p| && Forwards(net, cur, a, p[..k+1]) && Forwards(net, End(cur, a), b, p[k..])
    decreases a
  {
    hide Forwards, Leg;
    if a == [] {
      ForwardsEnds(net, cur, a + b, p);
      k := 0;
      NoSegments(net, cur);
      assert p[0..] == p && a + b == b && p[..1] == [cur];
    } else {
      ListTail(a, b);
      var m := FirstLeg(net, cur, a + b, p);
      var j := ForwardsSplit(net, Target(a[0]), a[1..], b, p[m..]);
      k := m + j;
      CutTwice(p, m, k);
      FirstLegThen(net, cur, a, p[..k+1], m);
    }
  }

  lemma NoSegmentsOnly(net: Links, cur: Node, p: seq<Node>)
    requires Forwards(net, cur, [], p)
    ensures p == [cur]
  {
  }

  lemma NoSegments(net: Links, cur: Node)
    ensures Forwards(net, cur, [], [cur])
  {
  }

  lemma ForwardsOne(net: Links, cur: Node, s: Segment, p: seq<Node>)
    ensures Forwards(net, cur, [s], p) <==> |p| >= 1 && Leg(net, cur, s, p)
  {
    if Forwards(net, cur, [s], p) {
      var k := FirstLeg(net, cur, [s], p);
      assert p[..k+1] == p;
    }
    if |p| >= 1 && Leg(net, cur, s, p) {
      var k := |p| - 1;
      assert p[..k+1] == p;
      assert ForwardsVia(net, cur, [s], p, k);
    }
  }

  lemma ForcesJoin(net: Links, cur: Node, a: seq<Segment>, b: seq<Segment>, p: seq<Node>, k: nat)
    requires k < |p| && Forces(net, cur, a, p[..k+1]) && Forces(net, End(cur, a), b, p[k..])
    ensures Forces(net, cur, a + b, p)
  {
    hide Forwards;
    ForwardsJoin(net, cur, a, b, p, k);
    forall q | Forwards(net, cur, a + b, q) ensures q == p {
      var j := ForwardsSplit(net, cur, a, b, q);
      SameParts(p, k, q, j);
    }
  }

  lemma SameParts(p: seq<Node>, k: nat, q: seq<Node>, j: nat)
    requires k < |p| && j < |q| && q[..j+1] == p[..k+1] && q[j..] == p[k..]
    ensures q == p
  {
    assert q == q[..j+1] + q[j..][1..];
    assert p == p[..k+1] + p[k..][1..];
  }

  /** A forcing list is forcing piece by piece. */
  lemma ForcesSplit(net: Links, cur: Node, a: seq<Segment>, b: seq<Segment>, p: seq<Node>) returns (k: nat)
    requires Forces(net, cur, a + b, p)
    ensures k < |p| && Forces(net, cur, a, p[..k+1]) && Forces(net, End(cur, a), b, p[k..])
  {
    assert Forwards(net, cur, a + b, p);
    k := ForwardsSplit(net, cur, a, b, p);
    forall q | Forwards(net, cur, a, q) ensures q == p[..k+1] {
      ForcedHead(net, cur, a, b, p, k, q);
    }
    forall q | Forwards(net, End(cur, a), b, q) ensures q == p[k..] {
      ForcedTail(net, cur, a, b, p, k, q);
    }
  }

  lemma ForcedHead(net: Links, cur: Node, a: seq<Segment>, b: seq<Segment>, p: seq<Node>, k: nat, q: seq<Node>)
    requires Forces(net, cur, a + b, p) && k < |p|
    requires Forwards(net, cur, a, p[..k+1]) && Forwards(net, End(cur, a), b, p[k..])
    requires Forwards(net, cur, a, q)
    ensures q == p[..k+1]
  {
    ForwardsEnds(net, cur, a, p[..k+1]);
    ForwardsEnds(net, cur, a, q);
    var r := q + p[k..][1..];
    assert r[..|q|-1+1] == q;
    assert r[|q|-1..] == p[k..];
    ForwardsJoin(net, cur, a, b, r, |q|-1);
    assert r == p;
  }

  lemma ForcedTail(net: Links, cur: Node, a: seq<Segment>, b: seq<Segment>, p: seq<Node>, k: nat, q: seq<Node>)
    requires Forces(net, cur, a + b, p) && k < |p|
    requires Forwards(net, cur, a, p[..k+1]) && Forwards(net, End(cur, a), b, p[k..])
    requires Forwards(net, End(cur, a), b, q)
    ensures q == p[k..]
  {
    ForwardsEnds(net, cur, a, p[..k+1]);
    ForwardsEnds(net, End(cur, a), b, q);
    var r := p[..k+1] + q[1..];
    assert r[..k+1] == p[..k+1];
    assert r[k..] == q;
    ForwardsJoin(net, cur, a, b, r, k);
    assert r == p;
  }

  lemma NodeSegmentForces(net: Links, q: seq<Node>)
    requires UniqueShortest(net, q)
    ensures Forces(net, q[0], [NodeSegment(q[|q|-1])], q)
  {
    var u, v := q[0], q[|q|-1];
    assert OnlyShortest(net, u, v, q);
    forall p ensures Forwards(net, u, [NodeSegment(v)], p) <==> p == q {
      ForwardsOne(net, u, NodeSegment(v), p);
    }
  }

  lemma AdjSegmentForces(net: Links, e: Edge)
    requires (e.local, e.remote) in net
    ensures Forces(net, e.local, [AdjSegment(e)], [e.local, e.remote])
  {
    forall p ensures Forwards(net, e.local, [AdjSegment(e)], p) <==> p == [e.local, e.remote] {
      ForwardsOne(net, e.local, AdjSegment(e), p);
    }
  }

  /** One forcing segment covers a unique shortest walk or a single link. */
  lemma OneForces(net: Links, cur: Node, s: Segment, q: seq<Node>)
    requires Forces(net, cur, [s], q)
    ensures UniqueShortest(net, q) || |q| == 2
  {
    assert Forwards(net, cur, [s], q);
    ForwardsOne(net, cur, s, q);
    if s.NodeSegment? {
      forall p | ShortestBetween(net, cur, s.node, p) ensures p == q {
        ForwardsOne(net, cur, s, p);
      }
      assert OnlyShortest(net, cur, s.node, q);
    }
  }

  /** A link that is no shortest walk is only ever taken by its own adjacency segment. */
  lemma {:induction false} SlowLinkNeedsAdjacency(net: Links, cur: Node, segs: seq<Segment>, p: seq<Node>, j: nat)
    returns (s: Segment)
    requires Forwards(net, cur, segs, p) && j + 1 < |p| && !Shortest(net, [p[j], p[j+1]])
    ensures s in segs && s.AdjSegment? && s.edge.local == p[j] && s.edge.remote == p[j+1]
    decreases segs
  {
    var k: nat :| ForwardsVia(net, cur, segs, p, k);
    s := segs[0];
    if j >= k {
      s := SlowLinkNeedsAdjacency(net, Target(segs[0]), segs[1..], p[k..], j - k);
    } else if s.NodeSegment? {
      LinksOfShortest(net, p[..k+1], j);
    }
  }

  lemma LinksOfShortest(net: Links, p: seq<Node>, j: nat)
    requires Shortest(net, p) && j + 1 < |p|
    ensures Shortest(net, [p[j], p[j+1]])
  {
    SliceShortest(net, p, j, j + 2);
    assert p[j..j+2] == [p[j], p[j+1]];
  }

  /* ---- Node segments that name the node the packet is at ---- */

  function Compress(cur: Node, segs: seq<Segment>): seq<Segment>
    decreases segs
  {
    if segs == [] then []
    else if segs[0] == NodeSegment(cur) then Compress(cur, segs[1..])
    else [segs[0]] + Compress(Target(segs[0]), segs[1..])
  }

  /** Dropping them changes no packet's way. */
  lemma {:induction false} CompressForwards(net: Links, cur: Node, segs: seq<Segment>, p: seq<Node>)
    requires Positive(net)
    ensures Forwards(net, cur, Compress(cur, segs), p) <==> Forwards(net, cur, segs, p)
    decreases segs
  {
    if segs != [] {
      var s, rest := segs[0], segs[1..];
      assert segs == [s] + rest;
      if s == NodeSegment(cur) {
        CompressForwards(net, cur, rest, p);
        StayingIsShortest(net, cur, [cur]);
        if Forwards(net, cur, segs, p) {
          var k := ForwardsSplit(net, cur, [s], rest, p);
          ForwardsOne(net, cur, s, p[..k+1]);
          StayingIsShortest(net, cur, p[..k+1]);
          assert k == 0 && p[0..] == p;
        }
        if Forwards(net, cur, rest, p) {
          ForwardsEnds(net, cur, rest, p);
          assert p[..1] == [cur] && p[0..] == p;
          ForwardsOne(net, cur, s, p[..1]);
          ForwardsJoin(net, cur, [s], rest, p, 0);
        }
      } else {
        var rest' := Compress(Target(s), rest);
        if Forwards(net, cur, segs, p) {
          var k := ForwardsSplit(net, cur, [s], rest, p);
          CompressForwards(net, Target(s), rest, p[k..]);
          ForwardsJoin(net, cur, [s], rest', p, k);
        }
        if Forwards(net, cur, [s] + rest', p) {
          var k := ForwardsSplit(net, cur, [s], rest', p);
          CompressForwards(net, Target(s), rest, p[k..]);
          ForwardsJoin(net, cur, [s], rest, p, k);
        }
      }
    }
  }

  lemma {:induction false} CompressSnoc(cur: Node, segs: seq<Segment>, s: Segment)
    ensures Compress(cur, segs + [s]) == Compress(cur, segs) + Compress(End(cur, segs), [s])
    decreases segs
  {
    if segs == [] {
      assert segs + [s] == [s];
    } else {
      assert (segs + [s])[1..] == segs[1..] + [s];
      CompressSnoc(if segs[0] == NodeSegment(cur) then cur else Target(segs[0]), segs[1..], s);
    }
  }
}
