/** How a red-black tree lies in memory: cells with two children, a parent pointer, a
    colour and a key, and one sentinel that stands for every missing node. */
module RedBlackMemory {
  import opened RedBlackSpec

  datatype Cell = Cell(left: Addr, right: Addr, up: Addr, colour: Colour, key: int)

  type Memory = map<Addr, Cell>

  function Down(c: Cell, d: Side): Addr {
    if d == Left then c.left else c.right
  }

  function SetDown(c: Cell, d: Side, p: Addr): Cell {
    if d == Left then c.(left := p) else c.(right := p)
  }

  function CellOf(d: Side, near: Addr, far: Addr, up: Addr, colour: Colour, key: int): Cell {
    if d == Left then Cell(near, far, up, colour, key) else Cell(far, near, up, colour, key)
  }

  function Root(t: Tree): Addr {
    if t.Leaf? then NULL else t.addr
  }

  function UpOf(ctx: Context): Addr {
    if ctx.Top? then NULL else ctx.addr
  }

  /** The root of the whole tree when `p` is in the hole. */
  ghost function RootOf(ctx: Context, p: Addr): Addr {
    match ctx
    case Top => p
    case Under(_, a, _, _, _, outer) => RootOf(outer, a)
  }

  ghost predicate Holds(mem: Memory, t: Tree, up: Addr) {
    match t
    case Leaf => true
    case Node(a, c, k, l, r) =>
      a != NULL && a in mem && mem[a] == Cell(Root(l), Root(r), up, c, k) && Holds(mem, l, a) && Holds(mem, r, a)
  }

  ghost predicate HoldsContext(mem: Memory, ctx: Context, p: Addr) {
    match ctx
    case Top => true
    case Under(d, a, c, k, s, outer) =>
      a != NULL && a in mem && mem[a] == CellOf(d, p, Root(s), UpOf(outer), c, k) && Holds(mem, s, a) &&
        HoldsContext(mem, outer, a)
  }

  ghost function Addrs(t: Tree): set<Addr> {
    if t.Leaf? then {} else {t.addr} + Addrs(t.left) + Addrs(t.right)
  }

  ghost function ContextAddrs(ctx: Context): set<Addr> {
    match ctx
    case Top => {}
    case Under(_, a, _, _, s, outer) => {a} + Addrs(s) + ContextAddrs(outer)
  }

  /** No address occurs twice. */
  ghost predicate Distinct(t: Tree) {
    t.Node? ==>
      && t.addr !in Addrs(t.left) && t.addr !in Addrs(t.right) && Addrs(t.left) !! Addrs(t.right)
      && Distinct(t.left) && Distinct(t.right)
  }

  ghost predicate DistinctContext(ctx: Context) {
    match ctx
    case Top => true
    case Under(_, a, _, _, s, outer) =>
      a !in Addrs(s) && a !in ContextAddrs(outer) && Addrs(s) !! ContextAddrs(outer) && Distinct(s) &&
        DistinctContext(outer)
  }

  /** The memory holds `t` in the hole of `ctx`. */
  ghost predicate At(mem: Memory, root: Addr, ctx: Context, t: Tree) {
    && Holds(mem, t, UpOf(ctx)) && HoldsContext(mem, ctx, Root(t)) && root == RootOf(ctx, Root(t))
    && Distinct(t) && DistinctContext(ctx) && Addrs(t) !! ContextAddrs(ctx)
  }

  /** The sentinel is black. */
  ghost predicate HasNull(mem: Memory) {
    NULL in mem && mem[NULL].colour == Black
  }

  ghost predicate SameKeys(mem: Memory, mem': Memory) {
    && mem'.Keys == mem.Keys && (NULL in mem ==> mem'[NULL] == mem[NULL])
    && forall a :: a in mem ==> mem'[a].key == mem[a].key
  }

  /* ---- Moving the point of view ---- */

  lemma AtChild(mem: Memory, root: Addr, ctx: Context, t: Tree, d: Side)
    requires At(mem, root, ctx, t) && t.Node?
    ensures At(mem, root, Enter(ctx, t, d), Child(t, d))
    ensures Addrs(Child(t, d)) + ContextAddrs(Enter(ctx, t, d)) == Addrs(t) + ContextAddrs(ctx)
  {
  }

  lemma AtParent(mem: Memory, root: Addr, ctx: Context, t: Tree)
    requires At(mem, root, ctx, t) && ctx.Under?
    ensures At(mem, root, ctx.outer, Join(ctx.side, ctx.addr, ctx.colour, ctx.key, t, ctx.sibling))
    ensures Addrs(Join(ctx.side, ctx.addr, ctx.colour, ctx.key, t, ctx.sibling)) + ContextAddrs(ctx.outer) == Addrs(t) +
      ContextAddrs(ctx)
  {
  }

  lemma ChildHeld(mem: Memory, t: Tree, up: Addr, d: Side)
    requires Holds(mem, t, up) && t.Node?
    ensures t.addr in mem && Holds(mem, Child(t, d), t.addr) && Down(mem[t.addr], d) == Root(Child(t, d))
    ensures Distinct(t) ==> Distinct(Child(t, d))
    ensures Addrs(Child(t, d)) <= Addrs(t)
  {
  }

  lemma {:induction false} AtTop(mem: Memory, root: Addr, ctx: Context, t: Tree)
    requires At(mem, root, ctx, t)
    ensures At(mem, root, Top, Fill(ctx, t))
    ensures Addrs(Fill(ctx, t)) == Addrs(t) + ContextAddrs(ctx)
    decreases ctx
  {
    if ctx.Under? {
      AtParent(mem, root, ctx, t);
      AtTop(mem, root, ctx.outer, Join(ctx.side, ctx.addr, ctx.colour, ctx.key, t, ctx.sibling));
    }
  }

  lemma {:induction false} InMemory(mem: Memory, t: Tree, up: Addr)
    requires Holds(mem, t, up)
    ensures Addrs(t) <= mem.Keys && NULL !in Addrs(t) && (Root(t) == NULL <==> t.Leaf?)
    ensures t.Node? ==> Root(t) in Addrs(t)
  {
    if t.Node? {
      InMemory(mem, t.left, t.addr);
      InMemory(mem, t.right, t.addr);
    }
  }

  lemma {:induction false} ContextInMemory(mem: Memory, ctx: Context, p: Addr)
    requires HoldsContext(mem, ctx, p)
    ensures ContextAddrs(ctx) <= mem.Keys && NULL !in ContextAddrs(ctx)
    ensures ctx.Under? ==> UpOf(ctx) in ContextAddrs(ctx)
    ensures ctx.Under? ==> RootOf(ctx, p) in ContextAddrs(ctx)
    decreases ctx
  {
    if ctx.Under? {
      InMemory(mem, ctx.sibling, ctx.addr);
      ContextInMemory(mem, ctx.outer, ctx.addr);
    }
  }

  /* ---- Framing ---- */

  ghost predicate Agree(mem: Memory, mem': Memory, a: set<Addr>) {
    forall x :: x in a ==> x in mem && x in mem' && mem'[x] == mem[x]
  }

  lemma {:induction false} HoldsFrame(mem: Memory, mem': Memory, t: Tree, up: Addr)
    requires Holds(mem, t, up) && Agree(mem, mem', Addrs(t))
    ensures Holds(mem', t, up)
  {
    if t.Node? {
      HoldsFrame(mem, mem', t.left, t.addr);
      HoldsFrame(mem, mem', t.right, t.addr);
    }
  }

  lemma {:induction false} ContextFrame(mem: Memory, mem': Memory, ctx: Context, p: Addr)
    requires HoldsContext(mem, ctx, p) && Agree(mem, mem', ContextAddrs(ctx))
    ensures HoldsContext(mem', ctx, p)
    decreases ctx
  {
    if ctx.Under? {
      HoldsFrame(mem, mem', ctx.sibling, ctx.addr);
      ContextFrame(mem, mem', ctx.outer, ctx.addr);
    }
  }

  /** A tree hung under another node. */
  lemma Rehung(mem: Memory, mem': Memory, t: Tree, up: Addr, up': Addr)
    requires Holds(mem, t, up) && Distinct(t)
    requires t.Node? ==> t.addr in mem' && mem'[t.addr] == mem[t.addr].(up := up')
    requires t.Node? ==> Agree(mem, mem', Addrs(t) - {t.addr})
    ensures Holds(mem', t, up')
  {
    if t.Node? {
      HoldsFrame(mem, mem', t.left, t.addr);
      HoldsFrame(mem, mem', t.right, t.addr);
    }
  }

  /** Another node put into the hole of a context. */
  lemma Rehole(mem: Memory, mem': Memory, ctx: Context, p: Addr, p': Addr)
    requires HoldsContext(mem, ctx, p) && DistinctContext(ctx)
    requires ctx.Under? ==>
      ctx.addr in mem' && mem'[ctx.addr] == SetDown(mem[ctx.addr], ctx.side, p') &&
        Agree(mem, mem', ContextAddrs(ctx) - {ctx.addr})
    ensures HoldsContext(mem', ctx, p')
  {
    if ctx.Under? {
      HoldsFrame(mem, mem', ctx.sibling, ctx.addr);
      ContextFrame(mem, mem', ctx.outer, ctx.addr);
    }
  }

  lemma RootOfHole(ctx: Context, p: Addr, p': Addr)
    ensures RootOf(ctx, p') == if ctx.Top? then p' else RootOf(ctx, p)
  {
  }
}
