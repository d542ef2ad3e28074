/** Red-black trees as values, seen whole or from one of their nodes. */
module RedBlackSpec {

  type Addr = nat

  /** The address of the sentinel node. */
  const NULL: Addr := 0

  datatype Colour = Red | Black

  datatype Side = Left | Right

  function Other(d: Side): Side {
    if d == Left then Right else Left
  }

  datatype Tree = Leaf | Node(addr: Addr, colour: Colour, key: int, left: Tree, right: Tree)

  /** The way from a node up to the root, with what hangs off it. */
  datatype Context = Top | Under(side: Side, addr: Addr, colour: Colour, key: int, sibling: Tree, outer: Context)

  function Join(d: Side, addr: Addr, colour: Colour, key: int, near: Tree, far: Tree): Tree {
    if d == Left then Node(addr, colour, key, near, far) else Node(addr, colour, key, far, near)
  }

  function Child(t: Tree, d: Side): Tree
    requires t.Node?
  {
    if d == Left then t.left else t.right
  }

  /** Steps down to a child. */
  function Enter(ctx: Context, t: Tree, d: Side): Context
    requires t.Node?
  {
    Under(d, t.addr, t.colour, t.key, Child(t, Other(d)), ctx)
  }

  ghost function Fill(ctx: Context, t: Tree): Tree
    decreases ctx
  {
    match ctx
    case Top => t
    case Under(d, a, c, k, s, outer) => Fill(outer, Join(d, a, c, k, t, s))
  }

  lemma FillEntered(ctx: Context, t: Tree, d: Side)
    requires t.Node?
    ensures Fill(Enter(ctx, t, d), Child(t, d)) == Fill(ctx, t)
  {
  }

  /* ---- Keys in order ---- */

  ghost function InOrder(t: Tree): seq<int> {
    if t.Leaf? then [] else InOrder(t.left) + [t.key] + InOrder(t.right)
  }

  /** The keys to the left of a context's hole. */
  ghost function Before(ctx: Context): seq<int> {
    match ctx
    case Top => []
    case Under(d, _, _, k, s, outer) => if d == Left then Before(outer) else Before(outer) + (InOrder(s) + [k])
  }

  ghost function After(ctx: Context): seq<int> {
    match ctx
    case Top => []
    case Under(d, _, _, k, s, outer) => if d == Left then ([k] + InOrder(s)) + After(outer) else After(outer)
  }

  ghost predicate Sorted(s: seq<int>) {
    forall i, j :: 0 <= i < j < |s| ==> s[i] < s[j]
  }

  ghost predicate AllBelow(s: seq<int>, k: int) {
    forall i :: 0 <= i < |s| ==> s[i] < k
  }

  ghost predicate AllAbove(s: seq<int>, k: int) {
    forall i :: 0 <= i < |s| ==> s[i] > k
  }

  lemma {:induction false} FillOrder(ctx: Context, t: Tree)
    ensures InOrder(Fill(ctx, t)) == Before(ctx) + InOrder(t) + After(ctx)
    decreases ctx
  {
    match ctx
    case Top =>
      assert [] + InOrder(t) + [] == InOrder(t);
    case Under(d, a, c, k, s, outer) =>
      FillOrder(outer, Join(d, a, c, k, t, s));
      Regroup(Before(outer), InOrder(t), [k], InOrder(s), After(outer));
      Regroup(Before(outer), InOrder(s), [k], InOrder(t), After(outer));
  }

  lemma Regroup(p: seq<int>, a: seq<int>, k: seq<int>, b: seq<int>, q: seq<int>)
    ensures p + (a + k + b) + q == p + a + ((k + b) + q)
    ensures p + (a + k + b) + q == (p + (a + k)) + b + q
  {
  }

  /** Rotations keep the order of the keys. */
  lemma RotatedOrder(d: Side, x: Addr, cx: Colour, kx: int, y: Addr, cy: Colour, ky: int, a: Tree, b: Tree, c: Tree)
    ensures InOrder(Join(d, x, cx, kx, a, Join(d, y, cy, ky, b, c))) == InOrder(Join(d, y, cy, ky,
        Join(d, x, cx, kx, a, b), c))
  {
    var p, q, r := InOrder(a), InOrder(b), InOrder(c);
    assert p + [kx] + (q + [ky] + r) == (p + [kx] + q) + [ky] + r;
    assert (r + [ky] + q) + [kx] + p == r + [ky] + (q + [kx] + p);
  }

  lemma SortedParts(p: seq<int>, q: seq<int>)
    requires Sorted(p + q)
    ensures Sorted(p) && Sorted(q)
    ensures forall i, j :: 0 <= i < |p| && 0 <= j < |q| ==> p[i] < q[j]
  {
    forall i, j | 0 <= i < j < |p| ensures p[i] < p[j] {
      assert (p + q)[i] < (p + q)[j];
    }
    forall i, j | 0 <= i < j < |q| ensures q[i] < q[j] {
      assert (p + q)[|p| + i] < (p + q)[|p| + j];
    }
    forall i, j | 0 <= i < |p| && 0 <= j < |q| ensures p[i] < q[j] {
      assert (p + q)[i] < (p + q)[|p| + j];
    }
  }

  lemma SortedJoined(p: seq<int>, q: seq<int>)
    requires Sorted(p) && Sorted(q) && forall i, j :: 0 <= i < |p| && 0 <= j < |q| ==> p[i] < q[j]
    ensures Sorted(p + q)
  {
  }

  lemma SortedAround(p: seq<int>, k: int, q: seq<int>)
    ensures Sorted(p + [k] + q) <==> Sorted(p + q) && AllBelow(p, k) && AllAbove(q, k)
  {
    if Sorted(p + [k] + q) {
      SortedParts(p + [k], q);
      SortedParts(p, [k]);
      assert forall i :: 0 <= i < |p| ==> (p + [k])[i] == p[i];
      assert (p + [k])[|p|] == k;
      SortedJoined(p, q);
    }
    if Sorted(p + q) && AllBelow(p, k) && AllAbove(q, k) {
      SortedParts(p, q);
      SortedJoined(p, [k]);
      SortedJoined(p + [k], q);
    }
  }

  /** Going left or right at a node, the keys passed by lie on the other side of `key`. */
  lemma Descend(ctx: Context, t: Tree, d: Side, key: int)
    requires t.Node? && Sorted(InOrder(Fill(ctx, t)))
    requires AllBelow(Before(ctx), key) && AllAbove(After(ctx), key)
    requires if d == Left then key < t.key else key > t.key
    ensures AllBelow(Before(Enter(ctx, t, d)), key) && AllAbove(After(Enter(ctx, t, d)), key)
  {
    FillOrder(ctx, t);
    SortedParts(Before(ctx) + InOrder(t), After(ctx));
    SortedParts(Before(ctx), InOrder(t));
    SortedAround(InOrder(t.left), t.key, InOrder(t.right));
  }

  /* ---- Balance ---- */

  predicate IsRed(t: Tree) {
    t.Node? && t.colour == Red
  }

  /** No red node has a red child, and every way down meets `h` black nodes. */
  ghost predicate IsRB(t: Tree, h: nat) {
    match t
    case Leaf => h == 0
    case Node(_, Red, _, l, r) => !IsRed(l) && !IsRed(r) && IsRB(l, h) && IsRB(r, h)
    case Node(_, Black, _, l, r) => h >= 1 && IsRB(l, h - 1) && IsRB(r, h - 1)
  }

  ghost predicate Balanced(t: Tree) {
    !IsRed(t) && exists h: nat :: IsRB(t, h)
  }

  /** A tree of black height `h` put into the hole makes a balanced whole; it may have
      a red root if `red` is set. */
  ghost predicate Fits(ctx: Context, h: nat, red: bool) {
    match ctx
    case Top => !red
    case Under(_, _, Black, _, s, outer) => IsRB(s, h) && Fits(outer, h + 1, false)
    case Under(_, _, Red, _, s, outer) => !red && IsRB(s, h) && !IsRed(s) && Fits(outer, h, true)
  }

  lemma FitsBlack(ctx: Context, h: nat, red: bool)
    requires Fits(ctx, h, red)
    ensures Fits(ctx, h, false)
  {
  }

  lemma {:induction false} FitsBalanced(ctx: Context, t: Tree, h: nat)
    requires IsRB(t, h) && Fits(ctx, h, IsRed(t))
    ensures Balanced(Fill(ctx, t))
    decreases ctx
  {
    match ctx
    case Top =>
    case Under(d, a, c, k, s, outer) =>
      var u := Join(d, a, c, k, t, s);
      FitsBalanced(outer, u, if c == Black then h + 1 else h);
  }

  lemma FitsEntered(ctx: Context, t: Tree, h: nat, d: Side) returns (h': nat)
    requires t.Node? && IsRB(t, h) && Fits(ctx, h, IsRed(t))
    ensures IsRB(Child(t, d), h') && Fits(Enter(ctx, t, d), h', IsRed(Child(t, d)))
  {
    h' := if t.colour == Black then h - 1 else h;
  }

  /* ---- Height ---- */

  ghost function Size(t: Tree): nat {
    if t.Leaf? then 0 else 1 + Size(t.left) + Size(t.right)
  }

  ghost function Height(t: Tree): nat {
    if t.Leaf? then 0 else 1 + if Height(t.left) >= Height(t.right) then Height(t.left) else Height(t.right)
  }

  ghost function Pow2(n: nat): nat {
    if n == 0 then 1 else 2 * Pow2(n - 1)
  }

  lemma {:induction false} SizeIs(t: Tree)
    ensures |InOrder(t)| == Size(t)
  {
    if t.Node? {
      SizeIs(t.left);
      SizeIs(t.right);
    }
  }

  lemma {:induction false} BlackHeightBounds(t: Tree, h: nat)
    requires IsRB(t, h)
    ensures Pow2(h) <= Size(t) + 1
    ensures Height(t) <= 2 * h + (if IsRed(t) then 1 else 0)
  {
    match t
    case Leaf =>
    case Node(_, Red, _, l, r) =>
      BlackHeightBounds(l, h);
      BlackHeightBounds(r, h);
    case Node(_, Black, _, l, r) =>
      BlackHeightBounds(l, h - 1);
      BlackHeightBounds(r, h - 1);
  }

  lemma {:induction false} Pow2Doubled(h: nat)
    ensures Pow2(2 * h) == Pow2(h) * Pow2(h)
  {
    if h > 0 {
      Pow2Doubled(h - 1);
      var p, q := Pow2(h - 1), Pow2(2 * h - 2);
      assert Pow2(2 * h) == 2 * Pow2(2 * h - 1) == 4 * q;
      assert Pow2(h) * Pow2(h) == (2 * p) * (2 * p) == 4 * (p * p);
    }
  }

  lemma {:induction false} Pow2Monotone(m: nat, n: nat)
    requires m <= n
    ensures 1 <= Pow2(m) <= Pow2(n)
    decreases n
  {
    if m < n {
      Pow2Monotone(m, n - 1);
    } else if m > 0 {
      Pow2Monotone(m - 1, m - 1);
    }
  }

  /** The height is at most twice the logarithm of the number of keys plus one. */
  lemma HeightBound(t: Tree)
    requires Balanced(t)
    ensures Pow2(Height(t)) <= (|InOrder(t)| + 1) * (|InOrder(t)| + 1)
  {
    SizeIs(t);
    var h: nat :| IsRB(t, h);
    BlackHeightBounds(t, h);
    Pow2Monotone(Height(t), 2 * h);
    Pow2Doubled(h);
    Squares(Pow2(h), Size(t) + 1);
  }

  lemma Squares(a: nat, b: nat)
    requires a <= b
    ensures a * a <= b * b
  {
    assert a * a <= a * b <= b * b;
  }
}
