/** What the segment compiler must produce for one leg: a list that forces the
    given walk, with as few segments as any list that forces it. */
module MinSegSpec {
  import opened Network
  import opened Graphs
  import opened SegmentRouting

  /** The compiler can pin the hop `u` to `v`: either the link is itself a shortest
      walk, or at least two tight predecessors make it fall back to an adjacency. */
  ghost predicate Pinnable(net: Links, u: Node, v: Node) {
    Shortest(net, [u, v]) || |TightPreds(net, u, v)| != 1
  }

  ghost predicate AllPinnable(net: Links, path: seq<Node>) {
    forall j :: 0 <= j < |path| - 1 ==> Pinnable(net, path[j], path[j+1])
  }

  lemma SingletonSet<T>(s: set<T>, x: T, y: T)
    requires |s| == 1 && x in s && y in s
    ensures x == y
  {
    assert |s - {x}| == 0;
    assert y !in s - {x};
  }

  lemma OneElement<T(!new)>(s: set<T>, x: T)
    requires x in s && forall y :: y in s ==> y == x
    ensures |s| == 1
  {
    assert s == {x};
  }

  /** A unique shortest walk stays one exactly when its last node is the only tight
      predecessor of the next node. */
  lemma UniqueExtends(net: Links, a: seq<Node>, v: Node)
    requires Positive(net) && UniqueShortest(net, a)
    ensures var u := a[|a|-1]; UniqueShortest(net, a + [v]) <==>
      Tight(net, a[0], u, v) && |TightPreds(net, a[0], v)| == 1
  {
    var s, u, w := a[0], a[|a|-1], a + [v];
    assert OnlyShortest(net, s, u, a);
    TightIffExtension(net, u, v, a);
    TightPredsAre(net, s, v);
    if Tight(net, s, u, v) && |TightPreds(net, s, v)| == 1 {
      forall q | ShortestBetween(net, s, v, q) ensures q == w {
        LastHop(net, a, v, q);
      }
      assert OnlyShortest(net, s, v, w);
    }
    if UniqueShortest(net, w) {
      assert OnlyShortest(net, s, v, w);
      forall x | x in TightPreds(net, s, v) ensures x == u {
        var p :| TightVia(net, s, x, v, p);
        assert p == w;
      }
      OneElement(TightPreds(net, s, v), u);
    }
  }

  lemma LastHop(net: Links, a: seq<Node>, v: Node, q: seq<Node>)
    requires Positive(net) && UniqueShortest(net, a)
    requires Tight(net, a[0], a[|a|-1], v) && |TightPreds(net, a[0], v)| == 1
    requires ShortestBetween(net, a[0], v, q)
    ensures q == a + [v]
  {
    var s, u := a[0], a[|a|-1];
    assert OnlyShortest(net, s, u, a);
    TightPredsAre(net, s, v);
    TightExtends(net, u, v, a);
    if |q| == 1 {
      StayingIsShortest(net, s, a + [v]);
    } else {
      var x, b := q[|q|-2], q[..|q|-2+1];
      assert TightVia(net, s, x, v, q);
      SingletonSet(TightPreds(net, s, v), x, u);
      PrefixShortest(net, q, |q|-2);
      assert ShortestBetween(net, s, u, b);
      assert q == b + [v];
    }
  }

  lemma UniquePrefix(net: Links, p: seq<Node>, k: nat)
    requires UniqueShortest(net, p) && k < |p|
    ensures UniqueShortest(net, p[..k+1])
  {
    var s, v, a, rest := p[0], p[k], p[..k+1], p[k..][1..];
    PrefixShortest(net, p, k);
    assert OnlyShortest(net, s, p[|p|-1], p);
    assert p == a + rest;
    forall q | ShortestBetween(net, s, v, q) ensures q == a {
      SwapPrefixShortest(net, p, k, q);
      assert q + rest == a + rest;
      assert |q| == |a| && q == (q + rest)[..|a|];
    }
    assert OnlyShortest(net, s, v, a);
  }

  lemma UniqueSuffix(net: Links, p: seq<Node>, k: nat)
    requires UniqueShortest(net, p) && k < |p|
    ensures UniqueShortest(net, p[k..])
  {
    var s, v, a, b := p[k], p[|p|-1], p[..k+1], p[k..];
    SuffixShortest(net, p, k);
    assert OnlyShortest(net, p[0], v, p);
    forall q | ShortestBetween(net, s, v, q) ensures q == b {
      SwapSuffixShortest(net, p, k, q);
      assert a + q[1..] == p;
      assert q == [s] + q[1..] && b == [s] + p[k+1..];
      assert q[1..] == (a + q[1..])[k+1..];
    }
    assert OnlyShortest(net, s, v, b);
  }

  lemma UniqueSlice(net: Links, p: seq<Node>, i: nat, j: nat)
    requires UniqueShortest(net, p) && i < j <= |p|
    ensures UniqueShortest(net, p[i..j])
  {
    UniquePrefix(net, p, j - 1);
    UniqueSuffix(net, p[..j], i);
    assert p[..j][i..] == p[i..j];
  }

  lemma SliceOfSlice(p: seq<Node>, a: nat, c: nat, d: nat, b: nat)
    requires a <= c <= d <= b <= |p|
    ensures p[a..b][c-a..d-a] == p[c..d]
  {
    var x, y := p[a..b][c-a..d-a], p[c..d];
    forall i | 0 <= i < |x| ensures x[i] == y[i] {
    }
  }

  lemma NotUniqueWider(net: Links, path: seq<Node>, a: nat, c: nat, d: nat, b: nat)
    requires a <= c < d <= b <= |path| && !UniqueShortest(net, path[c..d])
    ensures !UniqueShortest(net, path[a..b])
  {
    SliceOfSlice(path, a, c, d, b);
    if UniqueShortest(net, path[a..b]) {
      UniqueSlice(net, path[a..b], c - a, d - a);
    }
  }

  /** A hop reached directly is reached by some tight predecessor. */
  lemma HopHasPreds(net: Links, u: Node, v: Node)
    requires Positive(net) && (u, v) in net && u != v
    ensures |TightPreds(net, u, v)| >= 1
  {
    assert Walk(net, [u, v]);
    var p := ShortestExists(net, u, v, [u, v]);
    assert TightVia(net, u, p[|p|-2], v, p);
    TightIsLink(net, u, p[|p|-2], v);
  }

  /* ---- Lower bound on the number of segments ---- */

  /** No list of at most `c` segments forces the walk beyond position `r`. */
  ghost predicate ReachBound(net: Links, path: seq<Node>, c: int, r: int) {
    forall t: seq<Segment>, j: nat :: |t| <= c && ForcesTo(net, path, t, j) ==> j <= r
  }

  ghost predicate ForcesTo(net: Links, path: seq<Node>, t: seq<Segment>, j: nat) {
    j < |path| && Forces(net, path[0], t, path[..j+1])
  }

  lemma BoundStart(net: Links, path: seq<Node>)
    requires |path| >= 1
    ensures ReachBound(net, path, 0, 0)
  {
    forall t: seq<Segment>, j: nat | |t| <= 0 && ForcesTo(net, path, t, j) ensures j <= 0 {
      assert t == [];
      assert Forwards(net, path[0], t, path[..j+1]);
      assert |path[..j+1]| == 1;
    }
  }

  /** One more segment gets no further than `f`, when from `r` no single segment does. */
  lemma BoundStep(net: Links, path: seq<Node>, c: nat, r: nat, f: nat)
    requires r < f && f + 1 < |path|
    requires ReachBound(net, path, c, r)
    requires !UniqueShortest(net, path[r..f+2])
    ensures ReachBound(net, path, c + 1, f)
  {
    forall t: seq<Segment>, j: nat | |t| <= c + 1 && ForcesTo(net, path, t, j) ensures j <= f {
      if |t| >= 1 {
        var a, s := t[..|t|-1], t[|t|-1];
        assert t == a + [s];
        var q := path[..j+1];
        var k := ForcesSplit(net, path[0], a, [s], q);
        assert q[..k+1] == path[..k+1];
        assert ForcesTo(net, path, a, k);
        OneForces(net, End(path[0], a), s, q[k..]);
        assert q[k..] == path[k..j+1];
        if j > f {
          NotUniqueWider(net, path, k, r, f + 2, j + 1);
        }
      } else {
        assert j <= r;
      }
    }
  }

  /* ---- The compiler's invariant ---- */

  /** After looking at the hops up to position `k`, with the last pinned position at
      `r`: the segments force the walk up to `r`, from there to `k` the walk is the
      unique shortest one, and nobody does better. */
  ghost predicate LegInv(net: Links, path: seq<Node>, k: int, r: int, segs: seq<Segment>) {
    && 0 <= r <= k < |path|
    && Forces(net, path[0], segs, path[..r+1])
    && End(path[0], segs) == path[r]
    && UniqueShortest(net, path[r..k+1])
    && var c := |Compress(path[0], segs)|;
       ReachBound(net, path, c, r) && (c > 0 ==> ReachBound(net, path, c - 1, r - 1))
  }

  lemma LegStart(net: Links, path: seq<Node>)
    requires Positive(net) && |path| >= 1
    ensures LegInv(net, path, 0, 0, [])
  {
    BoundStart(net, path);
    StayingIsShortest(net, path[0], [path[0]]);
    assert path[0..1] == [path[0]] == path[..1];
    assert Forces(net, path[0], [], path[..1]);
  }

  lemma LegKeep(net: Links, path: seq<Node>, k: int, r: int, segs: seq<Segment>)
    requires LegInv(net, path, k, r, segs) && k + 1 < |path|
    requires UniqueShortest(net, path[r..k+2])
    ensures LegInv(net, path, k + 1, r, segs)
  {
  }

  /** A node segment for the current position. */
  lemma NodePins(net: Links, path: seq<Node>, k: int, r: int, segs: seq<Segment>)
    requires Positive(net) && LegInv(net, path, k, r, segs)
    ensures var segs' := segs + [NodeSegment(path[k])];
      Forces(net, path[0], segs', path[..k+1]) && End(path[0], segs') == path[k]
    ensures |Compress(path[0], segs + [NodeSegment(path[k])])| ==
            |Compress(path[0], segs)| + if r == k then 0 else 1
  {
    var q := path[..k+1];
    var b := path[r..k+1];
    NodeSegmentForces(net, b);
    assert q[..r+1] == path[..r+1] && q[r..] == b;
    ForcesJoin(net, path[0], segs, [NodeSegment(path[k])], q, r);
    CompressSnoc(path[0], segs, NodeSegment(path[k]));
    if r < k && path[r] == path[k] {
      assert OnlyShortest(net, path[r], path[k], b);
      StayingIsShortest(net, path[r], b);
    }
  }

  lemma LegNode(net: Links, path: seq<Node>, k: int, r: int, segs: seq<Segment>)
    requires Positive(net) && LegInv(net, path, k, r, segs) && k + 1 < |path|
    requires r < k && !UniqueShortest(net, path[r..k+2]) && UniqueShortest(net, path[k..k+2])
    ensures LegInv(net, path, k + 1, k, segs + [NodeSegment(path[k])])
  {
    NodePins(net, path, k, r, segs);
    var c := |Compress(path[0], segs)|;
    BoundStep(net, path, c, r, k);
    assert ReachBound(net, path, c, k - 1);
  }

  lemma LegNodeAdj(net: Links, path: seq<Node>, k: int, r: int, segs: seq<Segment>, e: Edge)
    requires Positive(net) && LegInv(net, path, k, r, segs) && k + 1 < |path|
    requires !UniqueShortest(net, path[r..k+2]) && !UniqueShortest(net, path[k..k+2])
    requires e.local == path[k] && e.remote == path[k+1] && (path[k], path[k+1]) in net && path[k] != path[k+1]
    ensures LegInv(net, path, k + 1, k + 1, segs + [NodeSegment(path[k])] + [AdjSegment(e)])
  {
    var segs1 := segs + [NodeSegment(path[k])];
    var segs2 := segs1 + [AdjSegment(e)];
    NodePins(net, path, k, r, segs);
    AdjSegmentForces(net, e);
    var q := path[..k+2];
    assert q[..k+1] == path[..k+1] && q[k..] == [path[k], path[k+1]];
    ForcesJoin(net, path[0], segs1, [AdjSegment(e)], q, k);
    CompressSnoc(path[0], segs1, AdjSegment(e));
    assert Compress(path[k], [AdjSegment(e)]) == [AdjSegment(e)];
    var c := |Compress(path[0], segs)|;
    if r < k {
      BoundStep(net, path, c, r, k);
    }
    BoundAdj(net, path, |Compress(path[0], segs1)|, k);
    StayingIsShortest(net, path[k+1], [path[k+1]]);
    assert path[k+1..k+2] == [path[k+1]];
  }

  lemma BoundAdj(net: Links, path: seq<Node>, c: nat, k: nat)
    requires k + 1 < |path| && ReachBound(net, path, c, k) && !UniqueShortest(net, path[k..k+2])
    ensures ReachBound(net, path, c + 1, k + 1)
  {
    if k + 2 < |path| {
      NotUniqueWider(net, path, k, k, k + 2, k + 3);
      BoundStep(net, path, c, k, k + 1);
    }
  }

  /** Fewest segments: no list forcing `path` is shorter than `segs`, once the node
      segments naming the node the packet is already at are dropped. */
  ghost predicate Fewest(net: Links, path: seq<Node>, segs: seq<Segment>) {
    |path| >= 1 && forall t: seq<Segment> :: Forces(net, path[0], t, path) ==> |Compress(path[0], segs)| <= |t|
  }

  /** At the end of the walk: a last node segment if anything is still open. */
  lemma LegEnds(net: Links, path: seq<Node>, r: int, segs: seq<Segment>)
    requires Positive(net) && LegInv(net, path, |path| - 1, r, segs)
    ensures r == |path| - 1 ==> Forces(net, path[0], segs, path) && Fewest(net, path, segs)
    ensures var segs' := segs + [NodeSegment(path[|path|-1])];
      Forces(net, path[0], segs', path) && Fewest(net, path, segs')
  {
    var n := |path| - 1;
    var segs' := segs + [NodeSegment(path[n])];
    NodePins(net, path, n, r, segs);
    assert path[..n+1] == path;
    var c := |Compress(path[0], segs)|;
    forall t: seq<Segment> | Forces(net, path[0], t, path)
      ensures c + (if r == n then 0 else 1) <= |t|
    {
      assert ForcesTo(net, path, t, n);
    }
  }

  /* ---- A hop that is not pinned ---- */

  /** Adjacency segments are only emitted for hops with several tight predecessors. */
  ghost predicate AdjSound(net: Links, segs: seq<Segment>) {
    forall s :: s in segs && s.AdjSegment? ==> |TightPreds(net, s.edge.local, s.edge.remote)| != 1
  }

  lemma UnpinnedBreaks(net: Links, path: seq<Node>, segs: seq<Segment>)
    requires |path| >= 1 && AdjSound(net, segs) && !AllPinnable(net, path)
    ensures !Forces(net, path[0], segs, path)
  {
    var j :| 0 <= j < |path| - 1 && !Pinnable(net, path[j], path[j+1]);
    if Forwards(net, path[0], segs, path) {
      var s := SlowLinkNeedsAdjacency(net, path[0], segs, path, j);
    }
  }
}
