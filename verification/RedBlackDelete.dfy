/** What a deletion and the repair after it do to the tree, as values. */
module RedBlackDelete {
  import opened RedBlackSpec
  import opened RedBlackInsert

  function Blackened(t: Tree): Tree {
    if t.Leaf? then Leaf else t.(colour := Black)
  }

  /** The state of the repair: the way through the hole lacks one black node, which a
      red root of `t` can make up for by turning black. */
  ghost predicate Lacking(ctx: Context, t: Tree, h: nat) {
    && Fits(ctx, h + 1, false)
    && if IsRed(t) then IsRB(Blackened(t), h + 1) else IsRB(t, h)
  }

  /** A smaller number after every round of the repair. */
  ghost function Rounds(ctx: Context, t: Tree): nat {
    if IsRed(t) then 0 else 1 + Depth(ctx)
  }

  lemma SiblingThere(ctx: Context, t: Tree, h: nat)
    requires Lacking(ctx, t, h) && ctx.Under? && !IsRed(t)
    ensures ctx.sibling.Node? && IsRB(ctx.sibling, h + 1)
  {
  }

  /* ---- A red sibling takes the parent's place ---- */

  function SiblingUp(ctx: Context): Context
    requires ctx.Under? && ctx.sibling.Node?
  {
    var d, w := ctx.side, ctx.sibling;
    Under(d, ctx.addr, Red, ctx.key, Child(w, d), Under(d, w.addr, Black, w.key, Child(w, Other(d)), ctx.outer))
  }

  lemma SiblingUpKeeps(ctx: Context, t: Tree, h: nat)
    requires Lacking(ctx, t, h) && ctx.Under? && !IsRed(t) && IsRed(ctx.sibling)
    ensures Lacking(SiblingUp(ctx), t, h) && !IsRed(SiblingUp(ctx).sibling)
  {
    var w := ctx.sibling;
    assert IsRB(w, h + 1) && Fits(ctx.outer, h + 2, false);
    assert Fits(SiblingUp(ctx).outer, h + 1, true);
  }

  lemma SiblingUpOrder(ctx: Context, t: Tree)
    requires ctx.Under? && ctx.sibling.Node?
    ensures InOrder(Fill(SiblingUp(ctx), t)) == InOrder(Fill(ctx, t))
  {
    var d, w := ctx.side, ctx.sibling;
    RotatedOrder(d, ctx.addr, Red, ctx.key, w.addr, Black, w.key, t, Child(w, d), Child(w, Other(d)));
    FillSame(ctx.outer, Parent(SiblingUp(ctx).outer, Parent(SiblingUp(ctx), t)), Parent(ctx, t));
  }

  /* ---- A black sibling with black children turns red ---- */

  function SiblingReddened(ctx: Context, t: Tree): Tree
    requires ctx.Under? && ctx.sibling.Node?
  {
    Parent(ctx.(sibling := ctx.sibling.(colour := Red)), t)
  }

  lemma ReddenedKeeps(ctx: Context, t: Tree, h: nat) returns (h': nat)
    requires Lacking(ctx, t, h) && ctx.Under? && !IsRed(t) && ctx.sibling.Node?
    requires !IsRed(ctx.sibling) && !IsRed(ctx.sibling.left) && !IsRed(ctx.sibling.right)
    ensures Lacking(ctx.outer, SiblingReddened(ctx, t), h')
    ensures InOrder(Fill(ctx.outer, SiblingReddened(ctx, t))) == InOrder(Fill(ctx, t))
  {
    var w := ctx.sibling;
    h' := if ctx.colour == Black then h + 1 else h;
    assert IsRB(w, h + 1) && IsRB(w.(colour := Red), h);
    assert Fits(ctx.outer, h' + 1, ctx.colour == Red);
    FitsBlack(ctx.outer, h' + 1, ctx.colour == Red);
    assert InOrder(w.(colour := Red)) == InOrder(w);
    FillSame(ctx.outer, SiblingReddened(ctx, t), Parent(ctx, t));
  }

  /* ---- The sibling's red inner child takes the sibling's place ---- */

  function SiblingStraight(ctx: Context): Context
    requires ctx.Under? && ctx.sibling.Node? && Child(ctx.sibling, ctx.side).Node?
  {
    var d, w := ctx.side, ctx.sibling;
    var n := Child(w, d);
    ctx.(sibling := Join(d, n.addr, Black, n.key, Child(n, d),
                         Join(d, w.addr, Red, w.key, Child(n, Other(d)), Child(w, Other(d)))))
  }

  lemma StraightKeeps(ctx: Context, t: Tree, h: nat)
    requires Lacking(ctx, t, h) && ctx.Under? && !IsRed(t) && ctx.sibling.Node? && !IsRed(ctx.sibling)
    requires IsRed(Child(ctx.sibling, ctx.side)) && !IsRed(Child(ctx.sibling, Other(ctx.side)))
    ensures Lacking(SiblingStraight(ctx), t, h)
    ensures var w := SiblingStraight(ctx).sibling; w.Node? && !IsRed(w) && IsRed(Child(w, Other(ctx.side)))
  {
    var d, w := ctx.side, ctx.sibling;
    var n := Child(w, d);
    assert IsRB(w, h + 1) && IsRB(n, h);
    assert IsRB(Child(SiblingStraight(ctx).sibling, Other(d)), h);
    assert IsRB(SiblingStraight(ctx).sibling, h + 1);
  }

  lemma StraightSiblingOrder(ctx: Context, t: Tree)
    requires ctx.Under? && ctx.sibling.Node? && Child(ctx.sibling, ctx.side).Node?
    ensures InOrder(Fill(SiblingStraight(ctx), t)) == InOrder(Fill(ctx, t))
  {
    var d, w := ctx.side, ctx.sibling;
    var n := Child(w, d);
    RotatedOrder(Other(d), w.addr, Red, w.key, n.addr, Black, n.key, Child(w, Other(d)), Child(n, Other(d)),
                 Child(n, d));
    assert InOrder(SiblingStraight(ctx).sibling) == InOrder(w);
    FillSame(ctx.outer, Parent(SiblingStraight(ctx), t), Parent(ctx, t));
  }

  /* ---- The sibling takes the parent's place and colour ---- */

  function Closed(ctx: Context, t: Tree): Tree
    requires ctx.Under? && ctx.sibling.Node?
  {
    var d, w := ctx.side, ctx.sibling;
    Join(d, w.addr, ctx.colour, w.key, Join(d, ctx.addr, Black, ctx.key, t, Child(w, d)), Blackened(Child(w, Other(d))))
  }

  lemma ClosedKeeps(ctx: Context, t: Tree, h: nat) returns (h': nat)
    requires Lacking(ctx, t, h) && ctx.Under? && !IsRed(t)
    requires ctx.sibling.Node? && !IsRed(ctx.sibling) && IsRed(Child(ctx.sibling, Other(ctx.side)))
    ensures Lacking(Top, Fill(ctx.outer, Closed(ctx, t)), h') && !IsRed(Fill(ctx.outer, Closed(ctx, t)))
  {
    var d, w := ctx.side, ctx.sibling;
    var hp := if ctx.colour == Black then h + 2 else h + 1;
    assert IsRB(w, h + 1);
    assert IsRB(Child(w, Other(d)), h);
    assert IsRB(Blackened(Child(w, Other(d))), h + 1);
    assert IsRB(Join(d, ctx.addr, Black, ctx.key, t, Child(w, d)), h + 1);
    assert IsRB(Closed(ctx, t), hp) && Fits(ctx.outer, hp, ctx.colour == Red);
    FitsBalanced(ctx.outer, Closed(ctx, t), hp);
    h' :| IsRB(Fill(ctx.outer, Closed(ctx, t)), h');
  }

  lemma ClosedOrder(ctx: Context, t: Tree)
    requires ctx.Under? && ctx.sibling.Node?
    ensures InOrder(Fill(ctx.outer, Closed(ctx, t))) == InOrder(Fill(ctx, t))
  {
    var d, w := ctx.side, ctx.sibling;
    RotatedOrder(d, ctx.addr, Black, ctx.key, w.addr, ctx.colour, w.key, t, Child(w, d), Blackened(Child(w, Other(d))));
    assert InOrder(Blackened(Child(w, Other(d)))) == InOrder(Child(w, Other(d)));
    FillSame(ctx.outer, Closed(ctx, t), Parent(ctx, t));
  }

  /** Blackening the node where the repair stops ends it. */
  lemma LackingEnds(ctx: Context, t: Tree, h: nat)
    requires Lacking(ctx, t, h) && (ctx.Top? || IsRed(t))
    ensures Balanced(Fill(ctx, Blackened(t))) && InOrder(Fill(ctx, Blackened(t))) == InOrder(Fill(ctx, t))
  {
    if IsRed(t) {
      FitsBalanced(ctx, Blackened(t), h + 1);
    } else {
      assert Blackened(t) == t;
    }
    FillSame(ctx, Blackened(t), t);
  }

  /* ---- Taking a node out ---- */

  /** What takes the place of a node with a missing child. */
  function Heir(u: Tree): Tree
    requires u.Node?
  {
    if u.left.Node? then u.left else u.right
  }

  lemma HeirKeeps(ctx: Context, u: Tree, h: nat)
    requires u.Node? && (u.left.Leaf? || u.right.Leaf?) && IsRB(u, h) && Fits(ctx, h, IsRed(u))
    ensures if u.colour == Black then h >= 1 && Lacking(ctx, Heir(u), h - 1) else Balanced(Fill(ctx, Heir(u)))
    ensures InOrder(u) == if u.left.Node? then InOrder(Heir(u)) + [u.key] else [u.key] + InOrder(Heir(u))
  {
    if u.colour == Red {
      FitsBlack(ctx, h, true);
      FitsBalanced(ctx, Heir(u), h);
    }
    assert InOrder(Leaf) == [];
  }

  /** The way from the nearest node on the right of `z` below it up to `z`. */
  ghost predicate Spine(ctx: Context, z: Addr) {
    match ctx
    case Top => false
    case Under(d, a, _, _, _, outer) => if d == Left then Spine(outer, z) else a == z
  }

  /** A balanced tree is balanced around each of its nodes. */
  lemma {:induction false} FitsFound(ctx: Context, t: Tree) returns (h: nat)
    requires Balanced(Fill(ctx, t))
    ensures IsRB(t, h) && Fits(ctx, h, IsRed(t))
    decreases ctx
  {
    if ctx.Top? {
      h :| IsRB(t, h);
    } else {
      h := FitsFound(ctx.outer, Parent(ctx, t));
      if ctx.colour == Black {
        h := h - 1;
      }
    }
  }

  /** What a deletion leaves: the keys around the one that goes. */
  lemma RemovedKey(p: seq<int>, key: int, q: seq<int>)
    requires Sorted(p + [key] + q)
    ensures Sorted(p + q) && |p + q| + 1 == |p + [key] + q|
    ensures forall k :: k in p + q <==> k in p + [key] + q && k != key
  {
    SortedAround(p, key, q);
    forall k ensures k in p + q <==> k in p + [key] + q && k != key {
      InParts(p, [key], q, k);
    }
  }

  lemma InParts(p: seq<int>, m: seq<int>, q: seq<int>, k: int)
    ensures k in p + m + q <==> k in p || k in m || k in q
    ensures k in p + q <==> k in p || k in q
  {
  }

  lemma HeirOrder(ctx: Context, u: Tree) returns (p: seq<int>, q: seq<int>)
    requires u.Node? && (u.left.Leaf? || u.right.Leaf?)
    ensures InOrder(Fill(ctx, u)) == p + [u.key] + q && InOrder(Fill(ctx, Heir(u))) == p + q
  {
    var l, r := InOrder(u.left), InOrder(u.right);
    p, q := Before(ctx) + l, r + After(ctx);
    FillOrder(ctx, u);
    FillOrder(ctx, Heir(u));
    assert InOrder(Heir(u)) == l + r;
    HeirParts(Before(ctx), l, [u.key], r, After(ctx));
  }

  lemma HeirParts(b: seq<int>, l: seq<int>, k: seq<int>, r: seq<int>, a: seq<int>)
    ensures b + (l + k + r) + a == (b + l) + k + (r + a) && b + (l + r) + a == (b + l) + (r + a)
  {
  }

  /** The keys once the next key has taken the place of `z`'s. */
  lemma MovedOrder(ctx: Context, z: Addr, u: Tree) returns (p: seq<int>, q: seq<int>)
    requires Spine(ctx, z) && u.Node? && u.left.Leaf?
    ensures InOrder(Fill(ctx, u)) == p + [SpineKey(ctx)] + q
    ensures InOrder(Fill(ReKey(ctx, u.key), Heir(u))) == p + q
  {
    ReKeyOrder(ctx, z, u.key);
    var b, r := Before(ctx)[..|Before(ctx)| - 1], InOrder(u.right);
    p, q := b, [u.key] + r + After(ctx);
    FillOrder(ctx, u);
    FillOrder(ReKey(ctx, u.key), Heir(u));
    LeftmostOrder(u);
    hide Spine, SpineKey, ReKey, InOrder, Fill, Before, After, Heir;
    assert Before(ctx) == b + [SpineKey(ctx)];
    MovedKeyOrder(b, SpineKey(ctx), u.key, r, After(ctx));
  }

  lemma LeftmostOrder(u: Tree)
    requires u.Node? && u.left.Leaf?
    ensures InOrder(u) == [u.key] + InOrder(u.right) && Heir(u) == u.right
  {
  }

  ghost function SpineKey(ctx: Context): int {
    match ctx
    case Top => 0
    case Under(d, _, _, k, _, outer) => if d == Left then SpineKey(outer) else k
  }

  ghost function ReKey(ctx: Context, key: int): Context {
    match ctx
    case Top => Top
    case Under(d, _, _, _, _, outer) => if d == Left then ctx.(outer := ReKey(outer, key)) else ctx.(key := key)
  }

  lemma {:induction false} ReKeyOrder(ctx: Context, z: Addr, key: int)
    requires Spine(ctx, z)
    ensures |Before(ctx)| > 0 && Before(ctx)[|Before(ctx)| - 1] == SpineKey(ctx)
    ensures Before(ReKey(ctx, key)) == Before(ctx)[..|Before(ctx)| - 1] + [key]
    ensures After(ReKey(ctx, key)) == After(ctx)
    decreases ctx
  {
    if ctx.side == Left {
      ReKeyOrder(ctx.outer, z, key);
    } else {
      var p, s := Before(ctx.outer), InOrder(ctx.sibling);
      assert Before(ctx) == (p + s) + [ctx.key];
      assert Before(ReKey(ctx, key)) == (p + s) + [key];
    }
  }

  lemma {:induction false} ReKeyFits(ctx: Context, key: int, h: nat, red: bool)
    requires Fits(ctx, h, red)
    ensures Fits(ReKey(ctx, key), h, red)
    decreases ctx
  {
    if ctx.Under? && ctx.side == Left {
      ReKeyFits(ctx.outer, key, if ctx.colour == Black then h + 1 else h, ctx.colour == Red);
    }
  }

  /** Moving the next key into the place of a key takes that key out. */
  lemma MovedKeyOrder(b: seq<int>, kz: int, ky: int, m: seq<int>, a: seq<int>)
    ensures (b + [kz]) + ([ky] + m) + a == b + [kz] + ([ky] + m + a)
    ensures (b + [ky]) + m + a == b + ([ky] + m + a)
  {
  }
}
