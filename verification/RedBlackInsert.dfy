/** What the repair after an insertion does to the tree, as values. */
module RedBlackInsert {
  import opened RedBlackSpec

  function Parent(ctx: Context, t: Tree): Tree
    requires ctx.Under?
  {
    Join(ctx.side, ctx.addr, ctx.colour, ctx.key, t, ctx.sibling)
  }

  /** A red node under a red parent; the grandparent is then black. */
  predicate TwoReds(ctx: Context, t: Tree) {
    IsRed(t) && ctx.Under? && ctx.colour == Red && ctx.outer.Under? && ctx.outer.colour == Black
  }

  /** The state of the repair: only the red node in the hole may have a red parent. */
  ghost predicate Rising(ctx: Context, t: Tree, h: nat) {
    IsRed(t) && IsRB(t, h) && Fits(ctx, h, false)
  }

  ghost function Depth(ctx: Context): nat {
    if ctx.Top? then 0 else 1 + Depth(ctx.outer)
  }

  /** The grandparent once it is red and its children are black. */
  function Recolouring(ctx: Context, t: Tree): Tree
    requires TwoReds(ctx, t) && IsRed(ctx.outer.sibling)
  {
    var g := ctx.outer;
    Join(g.side, g.addr, Red, g.key, Parent(ctx, t).(colour := Black), g.sibling.(colour := Black))
  }

  /** An inner grandchild has taken its parent's place. */
  function StraightContext(ctx: Context, t: Tree): Context
    requires TwoReds(ctx, t)
  {
    Under(Other(ctx.side), t.addr, t.colour, t.key, Child(t, ctx.side), ctx.outer)
  }

  function StraightTree(ctx: Context, t: Tree): Tree
    requires TwoReds(ctx, t)
  {
    Join(ctx.side, ctx.addr, ctx.colour, ctx.key, Child(t, Other(ctx.side)), ctx.sibling)
  }

  /** The parent, now black, has taken the grandparent's place. */
  function TurnedContext(ctx: Context, t: Tree): Context
    requires TwoReds(ctx, t)
  {
    var g := ctx.outer;
    Under(ctx.side, ctx.addr, Black, ctx.key, Join(g.side, g.addr, Red, g.key, ctx.sibling, g.sibling), g.outer)
  }

  /** One round of the repair. */
  ghost predicate Repaired(ctx: Context, t: Tree, ctx': Context, t': Tree)
    requires TwoReds(ctx, t)
  {
    if IsRed(ctx.outer.sibling) then ctx' == ctx.outer.outer && t' == Recolouring(ctx, t)
    else if ctx.side == ctx.outer.side then ctx' == TurnedContext(ctx, t) && t' == t
    else ctx' == TurnedContext(StraightContext(ctx, t), StraightTree(ctx, t)) && t' == StraightTree(ctx, t)
  }

  lemma TwoRedsFound(ctx: Context, t: Tree, h: nat)
    requires Rising(ctx, t, h) && ctx.Under? && ctx.colour == Red
    ensures TwoReds(ctx, t)
  {
    assert Fits(ctx.outer, h, true);
  }

  lemma RepairKeeps(ctx: Context, t: Tree, ctx': Context, t': Tree, h: nat) returns (h': nat)
    requires Rising(ctx, t, h) && TwoReds(ctx, t) && Repaired(ctx, t, ctx', t')
    ensures Rising(ctx', t', h') && Depth(ctx') < Depth(ctx)
  {
    var g := ctx.outer;
    h' := if IsRed(g.sibling) then h + 1 else h;
    assert Fits(g, h, true) && IsRB(ctx.sibling, h) && !IsRed(ctx.sibling);
    assert IsRB(g.sibling, h) && Fits(g.outer, h + 1, false);
    if IsRed(g.sibling) {
      assert IsRB(Parent(ctx, t).(colour := Black), h + 1);
      assert IsRB(g.sibling.(colour := Black), h + 1);
    } else if ctx.side == g.side {
      TurnedUpKeeps(ctx, t, h);
    } else {
      assert Rising(StraightContext(ctx, t), StraightTree(ctx, t), h);
      TurnedUpKeeps(StraightContext(ctx, t), StraightTree(ctx, t), h);
    }
  }

  lemma TurnedUpKeeps(ctx: Context, t: Tree, h: nat)
    requires Rising(ctx, t, h) && TwoReds(ctx, t) && !IsRed(ctx.outer.sibling)
    ensures Rising(TurnedContext(ctx, t), t, h)
  {
    var g := ctx.outer;
    assert Fits(g, h, true) && IsRB(ctx.sibling, h) && !IsRed(ctx.sibling);
    assert IsRB(g.sibling, h) && Fits(g.outer, h + 1, false);
    assert IsRB(TurnedContext(ctx, t).sibling, h);
  }

  lemma FillSame(ctx: Context, t: Tree, t': Tree)
    requires InOrder(t) == InOrder(t')
    ensures InOrder(Fill(ctx, t)) == InOrder(Fill(ctx, t'))
  {
    FillOrder(ctx, t);
    FillOrder(ctx, t');
  }

  lemma RepairOrder(ctx: Context, t: Tree, ctx': Context, t': Tree)
    requires TwoReds(ctx, t) && Repaired(ctx, t, ctx', t')
    ensures InOrder(Fill(ctx', t')) == InOrder(Fill(ctx, t))
  {
    var g := ctx.outer;
    if IsRed(g.sibling) {
      RecolouredOrder(ctx, t);
    } else if ctx.side == g.side {
      TurnedUpOrder(ctx, t);
    } else {
      StraightOrder(ctx, t);
      TurnedUpOrder(StraightContext(ctx, t), StraightTree(ctx, t));
    }
  }

  lemma RecolouredOrder(ctx: Context, t: Tree)
    requires TwoReds(ctx, t) && IsRed(ctx.outer.sibling)
    ensures InOrder(Fill(ctx.outer.outer, Recolouring(ctx, t))) == InOrder(Fill(ctx, t))
  {
    var p := Parent(ctx, t);
    assert InOrder(p.(colour := Black)) == InOrder(p);
    assert InOrder(ctx.outer.sibling.(colour := Black)) == InOrder(ctx.outer.sibling);
    FillSame(ctx.outer.outer, Recolouring(ctx, t), Parent(ctx.outer, p));
  }

  lemma TurnedUpOrder(ctx: Context, t: Tree)
    requires TwoReds(ctx, t) && ctx.side == ctx.outer.side
    ensures InOrder(Fill(TurnedContext(ctx, t), t)) == InOrder(Fill(ctx, t))
  {
    var g, d := ctx.outer, ctx.side;
    RotatedOrder(Other(d), g.addr, g.colour, g.key, ctx.addr, ctx.colour, ctx.key, g.sibling, ctx.sibling, t);
    FillSame(g.outer, Parent(TurnedContext(ctx, t), t), Parent(g, Parent(ctx, t)));
  }

  lemma StraightOrder(ctx: Context, t: Tree)
    requires TwoReds(ctx, t)
    ensures InOrder(Fill(StraightContext(ctx, t), StraightTree(ctx, t))) == InOrder(Fill(ctx, t))
  {
    var d := Other(ctx.side);
    RotatedOrder(d, ctx.addr, ctx.colour, ctx.key, t.addr, t.colour, t.key, ctx.sibling, Child(t, d),
                 Child(t, ctx.side));
    FillSame(ctx.outer, Parent(StraightContext(ctx, t), StraightTree(ctx, t)), Parent(ctx, t));
  }
}
