/** Rotations and colour changes in memory. */
module RedBlackTurns {
  import opened RedBlackSpec
  import opened RedBlackMemory
  import opened RedBlackInsert

  /** The node `x` of a tree turned towards `d`: its other child takes its place. */
  function Turned(d: Side, t: Tree): Tree
    requires t.Node? && Child(t, Other(d)).Node?
  {
    var y := Child(t, Other(d));
    Join(d, y.addr, y.colour, y.key, Join(d, t.addr, t.colour, t.key, Child(t, d), Child(y, d)), Child(y, Other(d)))
  }

  /** The cells a rotation of `x` writes to: `x`, the child that rises, that child's
      inner child and the parent. */
  ghost predicate CanTurn(mem: Memory, d: Side, x: Addr) {
    && x in mem && x != NULL
    && var y, p := Down(mem[x], Other(d)), mem[x].up;
    && y in mem && y != NULL && y != x && p != x && p != y && (p != NULL ==> p in mem)
    && var b := Down(mem[y], d);
    && b != x && b != y && (b != NULL ==> b in mem && b != p)
  }

  /** What a rotation does to memory, cell by cell. */
  ghost predicate Turning(mem: Memory, mem': Memory, d: Side, x: Addr)
    requires CanTurn(mem, d, x)
  {
    var y, p := Down(mem[x], Other(d)), mem[x].up;
    var b := Down(mem[y], d);
    && mem'.Keys == mem.Keys
    && mem'[x] == SetDown(mem[x], Other(d), b).(up := y)
    && mem'[y] == SetDown(mem[y], d, x).(up := p)
    && (b != NULL ==> mem'[b] == mem[b].(up := x))
    && (p != NULL ==> mem'[p] == SetDown(mem[p], if mem[p].left == x then Left else Right, y))
    && forall a :: a in mem && a != x && a != y && (b != NULL ==> a != b) && (p != NULL ==> a != p) ==>
         mem'[a] == mem[a]
  }

  lemma TurnedAddrs(d: Side, t: Tree)
    requires t.Node? && Child(t, Other(d)).Node?
    ensures Addrs(Turned(d, t)) == Addrs(t) && (Distinct(t) ==> Distinct(Turned(d, t)))
  {
    var y := Child(t, Other(d));
    var a, b, c := Child(t, d), Child(y, d), Child(y, Other(d));
    var x' := Join(d, t.addr, t.colour, t.key, a, b);
    JoinAddrs(d, t.addr, t.colour, t.key, a, y);
    JoinAddrs(d, y.addr, y.colour, y.key, b, c);
    JoinAddrs(d, t.addr, t.colour, t.key, a, b);
    JoinAddrs(d, y.addr, y.colour, y.key, x', c);
    assert t == Join(d, t.addr, t.colour, t.key, a, y) && y == Join(d, y.addr, y.colour, y.key, b, c);
  }

  lemma JoinAddrs(d: Side, a: Addr, c: Colour, k: int, near: Tree, far: Tree)
    ensures Addrs(Join(d, a, c, k, near, far)) == {a} + Addrs(near) + Addrs(far)
    ensures Distinct(Join(d, a, c, k, near, far)) <==>
      a !in Addrs(near) && a !in Addrs(far) && Addrs(near) !! Addrs(far) && Distinct(near) && Distinct(far)
  {
  }

  lemma TurnedHolds(mem: Memory, mem': Memory, d: Side, ctx: Context, t: Tree)
    requires t.Node? && Child(t, Other(d)).Node? && CanTurn(mem, d, t.addr) && Turning(mem, mem', d, t.addr)
    requires At(mem, RootOf(ctx, t.addr), ctx, t)
    ensures Holds(mem', Turned(d, t), UpOf(ctx))
  {
    var y := Child(t, Other(d));
    var a, b, c := Child(t, d), Child(y, d), Child(y, Other(d));
    InMemory(mem, t, UpOf(ctx));
    RootIn(a);
    RootIn(b);
    RootIn(c);
    TurnFacts(mem, RootOf(ctx, t.addr), d, ctx, t);
    ChildHeld(mem, t, UpOf(ctx), Other(d));
    ChildHeld(mem, y, t.addr, d);
    ChildHeld(mem, y, t.addr, Other(d));
    HoldsFrame(mem, mem', a, t.addr);
    Rehung(mem, mem', b, y.addr, t.addr);
    HoldsFrame(mem, mem', c, y.addr);
  }

  lemma RootIn(t: Tree)
    ensures t.Node? ==> t.addr in Addrs(t)
  {
  }

  lemma TurnedAt(mem: Memory, mem': Memory, root: Addr, root': Addr, d: Side, ctx: Context, t: Tree)
    requires t.Node? && Child(t, Other(d)).Node? && CanTurn(mem, d, t.addr) && Turning(mem, mem', d, t.addr)
    requires At(mem, root, ctx, t) && root' == if ctx.Top? then Child(t, Other(d)).addr else root
    ensures At(mem', root', ctx, Turned(d, t))
  {
    RootIn(t);
    RootIn(Child(t, Other(d)));
    ContextInMemory(mem, ctx, t.addr);
    InMemory(mem, t, UpOf(ctx));
    TurnFacts(mem, root, d, ctx, t);
    TurnedHolds(mem, mem', d, ctx, t);
    TurnedAddrs(d, t);
    Rehole(mem, mem', ctx, t.addr, Child(t, Other(d)).addr);
    RootOfHole(ctx, t.addr, Child(t, Other(d)).addr);
  }

  /** On which side of its parent a node is can be told from the parent's left pointer. */
  lemma SideOf(mem: Memory, ctx: Context, t: Tree, up: Addr)
    requires Holds(mem, t, up) && HoldsContext(mem, ctx, Root(t)) && Addrs(t) !! ContextAddrs(ctx) && ctx.Under?
    requires t.Node? || ctx.sibling.Node?
    ensures ctx.side == Left <==> mem[ctx.addr].left == Root(t)
  {
    RootIn(t);
    RootIn(ctx.sibling);
    InMemory(mem, t, up);
    InMemory(mem, ctx.sibling, ctx.addr);
  }

  ghost predicate Seen(mem: Memory, root: Addr, ctx: Context, t: Tree, owned: set<Addr>) {
    SeenParts(mem, root, ctx, t, owned) == true
  }

  ghost predicate SeenParts(mem: Memory, root: Addr, ctx: Context, t: Tree, owned: set<Addr>) {
    HasNull(mem) && At(mem, root, ctx, t) && Addrs(t) + ContextAddrs(ctx) == owned
  }

  lemma SeenParent(mem: Memory, root: Addr, ctx: Context, t: Tree, owned: set<Addr>)
    requires Seen(mem, root, ctx, t, owned) && ctx.Under?
    ensures Seen(mem, root, ctx.outer, Parent(ctx, t), owned)
  {
    AtParent(mem, root, ctx, t);
  }

  lemma SeenChild(mem: Memory, root: Addr, ctx: Context, t: Tree, d: Side, owned: set<Addr>)
    requires Seen(mem, root, ctx, t, owned) && t.Node?
    ensures Seen(mem, root, Enter(ctx, t, d), Child(t, d), owned)
  {
    AtChild(mem, root, ctx, t, d);
  }

  /** What the cells around a node tell. */
  lemma ParentCell(mem: Memory, root: Addr, ctx: Context, t: Tree, owned: set<Addr>)
    requires Seen(mem, root, ctx, t, owned)
    ensures t.Node? ==> t.addr in mem && t.addr != NULL && mem[t.addr].up == UpOf(ctx) && mem[t.addr].colour == t.colour
    ensures NULL in mem && mem[NULL].colour == Black
    ensures ctx.Under? ==>
      && ctx.addr in mem && ctx.addr != NULL
      && mem[ctx.addr] == CellOf(ctx.side, Root(t), Root(ctx.sibling), UpOf(ctx.outer), ctx.colour, ctx.key)
      && Root(ctx.sibling) in mem && (mem[Root(ctx.sibling)].colour == Red <==> IsRed(ctx.sibling))
    ensures ctx.Under? && (t.Node? || ctx.sibling.Node?) ==> (mem[ctx.addr].left == Root(t) <==> ctx.side == Left)
    ensures ctx.Under? && t.Node? ==>
      (Down(mem[ctx.addr], ctx.side) == t.addr && Down(mem[ctx.addr], Other(ctx.side)) != t.addr)
    ensures t.Node? ==> (ctx.Top? <==> t.addr == root)
  {
    RootIn(t);
    ContextInMemory(mem, ctx, Root(t));
    InMemory(mem, t, UpOf(ctx));
    if ctx.Under? {
      RootIn(ctx.sibling);
      InMemory(mem, ctx.sibling, ctx.addr);
      if t.Node? || ctx.sibling.Node? {
        SideOf(mem, ctx, t, UpOf(ctx));
      }
    }
  }

  /** The cells of a red node's red parent, grandparent and uncle. */
  lemma FamilyCells(mem: Memory, root: Addr, ctx: Context, t: Tree, owned: set<Addr>)
    requires Seen(mem, root, ctx, t, owned) && TwoReds(ctx, t)
    ensures Seen(mem, root, ctx.outer, Parent(ctx, t), owned)
    ensures t.addr in mem && ctx.addr in mem && ctx.outer.addr in mem && NULL in mem
    ensures mem[t.addr].up == ctx.addr && mem[ctx.addr].up == ctx.outer.addr && ctx.addr != t.addr
    ensures ctx.outer.addr != ctx.addr
    ensures ctx.addr == mem[ctx.outer.addr].left <==> ctx.outer.side == Left
    ensures var u := Down(mem[ctx.outer.addr], Other(ctx.outer.side));
      u in mem && u == Root(ctx.outer.sibling) && (mem[u].colour == Red <==> IsRed(ctx.outer.sibling))
    ensures forall d :: Down(mem[ctx.addr], Other(d)) == t.addr <==> ctx.side == Other(d)
  {
    ParentCell(mem, root, ctx, t, owned);
    SeenParent(mem, root, ctx, t, owned);
    ParentCell(mem, root, ctx.outer, Parent(ctx, t), owned);
    ParentUnlike(mem, root, ctx, t);
    ParentUnlike(mem, root, ctx.outer, Parent(ctx, t));
  }

  lemma ParentUnlike(mem: Memory, root: Addr, ctx: Context, t: Tree)
    requires At(mem, root, ctx, t) && t.Node? && ctx.Under?
    ensures ctx.addr != t.addr
  {
    RootIn(t);
    assert ctx.addr in ContextAddrs(ctx);
  }

  lemma Recoloured(mem: Memory, root: Addr, ctx: Context, t: Tree, c: Colour, owned: set<Addr>)
    requires Seen(mem, root, ctx, t, owned) && t.Node?
    ensures t.addr in mem && t.addr != NULL
    ensures Seen(mem[t.addr := mem[t.addr].(colour := c)], root, ctx, t.(colour := c), owned)
  {
    var mem' := mem[t.addr := mem[t.addr].(colour := c)];
    RootIn(t);
    InMemory(mem, t, UpOf(ctx));
    ContextInMemory(mem, ctx, t.addr);
    HoldsFrame(mem, mem', t.left, t.addr);
    HoldsFrame(mem, mem', t.right, t.addr);
    ContextFrame(mem, mem', ctx, t.addr);
  }

  lemma TurnFacts(mem: Memory, root: Addr, d: Side, ctx: Context, t: Tree)
    requires At(mem, root, ctx, t) && t.Node? && Child(t, Other(d)).Node?
    ensures CanTurn(mem, d, t.addr) && mem[t.addr].up == UpOf(ctx) && (ctx.Top? <==> UpOf(ctx) == NULL)
    ensures var y := Child(t, Other(d));
      Down(mem[t.addr], Other(d)) == y.addr && Down(mem[y.addr], d) == Root(Child(y, d))
    ensures Child(Child(t, Other(d)), d).Leaf? <==> Root(Child(Child(t, Other(d)), d)) == NULL
    ensures ctx.Under? ==> (mem[ctx.addr].left == t.addr <==> ctx.side == Left)
  {
    var y := Child(t, Other(d));
    var b := Child(y, d);
    RootIn(y);
    RootIn(b);
    JoinAddrs(d, t.addr, t.colour, t.key, Child(t, d), y);
    JoinAddrs(d, y.addr, y.colour, y.key, b, Child(y, Other(d)));
    ChildHeld(mem, t, UpOf(ctx), Other(d));
    ChildHeld(mem, y, t.addr, d);
    InMemory(mem, t, UpOf(ctx));
    InMemory(mem, b, y.addr);
    ContextInMemory(mem, ctx, t.addr);
    if ctx.Under? {
      SideOf(mem, ctx, t, UpOf(ctx));
    }
  }
}
