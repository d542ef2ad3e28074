/** Walks down the tree, and what entering a key does to the order. */
module RedBlackSearch {
  import opened RedBlackSpec
  import opened RedBlackMemory
  import opened RedBlackInsert
  import opened RedBlackTurns

  /** A walk for `key` from the root has come to `t`. */
  ghost predicate Reached(mem: Memory, root: Addr, tree: Tree, ctx: Context, t: Tree, h: nat, key: int) {
    && Seen(mem, root, ctx, t, mem.Keys - {NULL}) && Fill(ctx, t) == tree && Sorted(InOrder(tree))
    && IsRB(t, h) && Fits(ctx, h, IsRed(t))
    && AllBelow(Before(ctx), key) && AllAbove(After(ctx), key)
  }

  /** What may be read in a node's cell. */
  lemma NodeCell(mem: Memory, root: Addr, ctx: Context, t: Tree, owned: set<Addr>)
    requires Seen(mem, root, ctx, t, owned)
    ensures t.Leaf? <==> Root(t) == NULL
    ensures t.Node? ==> t.addr in mem && mem[t.addr] == Cell(Root(t.left), Root(t.right), UpOf(ctx), t.colour, t.key)
  {
    InMemory(mem, t, UpOf(ctx));
  }

  lemma ReachedRoot(mem: Memory, root: Addr, tree: Tree, key: int) returns (ctx: Context, t: Tree, h: nat)
    requires Seen(mem, root, Top, tree, mem.Keys - {NULL}) && Sorted(InOrder(tree)) && Balanced(tree)
    ensures ctx == Top && t == tree && root == Root(t) && (t.Leaf? <==> root == NULL)
    ensures Reached(mem, root, tree, ctx, t, h, key)
  {
    ctx, t := Top, tree;
    h :| IsRB(tree, h);
    NodeCell(mem, root, ctx, t, mem.Keys - {NULL});
  }

  lemma ReachedChild(mem: Memory, root: Addr, tree: Tree, ctx: Context, t: Tree, h: nat, d: Side, key: int)
    returns (ctx': Context, t': Tree, h': nat)
    requires Reached(mem, root, tree, ctx, t, h, key) && t.Node? && if d == Left then key < t.key else key > t.key
    ensures Reached(mem, root, tree, ctx', t', h', key) && ctx' == Enter(ctx, t, d) && t' == Child(t, d)
    ensures t'.Leaf? <==> Root(t') == NULL
  {
    ctx', t' := Enter(ctx, t, d), Child(t, d);
    SeenChild(mem, root, ctx, t, d, mem.Keys - {NULL});
    NodeCell(mem, root, ctx', t', mem.Keys - {NULL});
    FillEntered(ctx, t, d);
    h' := FitsEntered(ctx, t, h, d);
    Descend(ctx, t, d, key);
  }

  lemma InConcat(p: seq<int>, q: seq<int>, r: seq<int>, k: int)
    ensures k in p + q + r <==> k in p || k in q || k in r
  {
  }

  /** A walk that ends at a missing node has shown that the key is missing. */
  lemma FoundOrNot(tree: Tree, ctx: Context, t: Tree, key: int)
    requires Fill(ctx, t) == tree && AllBelow(Before(ctx), key) && AllAbove(After(ctx), key)
    requires t.Node? ==> t.key == key
    ensures key in InOrder(tree) <==> t.Node?
  {
    FillOrder(ctx, t);
    InConcat(Before(ctx), InOrder(t), After(ctx), key);
    if t.Node? {
      InConcat(InOrder(t.left), [t.key], InOrder(t.right), key);
    }
  }

  /** A key entered where a walk for it ended is in its place. */
  lemma PlantedOrder(tree: Tree, ctx: Context, key: int, leaf: Tree)
    requires Fill(ctx, Leaf) == tree && Sorted(InOrder(tree)) && InOrder(leaf) == [key]
    requires AllBelow(Before(ctx), key) && AllAbove(After(ctx), key)
    ensures var s := InOrder(Fill(ctx, leaf));
      Sorted(s) && |s| == |InOrder(tree)| + 1 && forall k :: k in s <==> k in InOrder(tree) || k == key
  {
    var p, q := Before(ctx), After(ctx);
    FillOrder(ctx, Leaf);
    FillOrder(ctx, leaf);
    assert p + [] + q == p + q;
    SortedAround(p, key, q);
    forall k ensures k in p + [key] + q <==> k in p + q || k == key {
      InConcat(p, [key], q, k);
    }
  }

  /** The side on which a new node goes can be told from its parent's key. */
  lemma PlantingSide(ctx: Context, key: int)
    requires ctx.Under? && AllBelow(Before(ctx), key) && AllAbove(After(ctx), key)
    ensures key < ctx.key <==> ctx.side == Left
    ensures key > ctx.key <==> ctx.side == Right
  {
    var s := InOrder(ctx.sibling);
    if ctx.side == Left {
      assert After(ctx) == ([ctx.key] + s) + After(ctx.outer);
      assert After(ctx)[0] == ctx.key;
    } else {
      var p := Before(ctx.outer) + (s + [ctx.key]);
      assert Before(ctx) == p && p[|p| - 1] == ctx.key;
    }
  }

  /** A new red node in the hole left by a missing one. */
  ghost predicate Planted(mem: Memory, mem': Memory, root: Addr, root': Addr, ctx: Context, z: Addr, key: int) {
    && mem'.Keys == mem.Keys + {z} && mem'[z] == Cell(NULL, NULL, UpOf(ctx), Red, key)
    && (ctx.Under? ==> ctx.addr in mem && ctx.addr != z && mem'[ctx.addr] == SetDown(mem[ctx.addr], ctx.side, z))
    && (forall a :: a in mem && a != z && (ctx.Under? ==> a != ctx.addr) ==> mem'[a] == mem[a])
    && root' == if ctx.Top? then z else root
  }

  lemma PlantedAt(mem: Memory, mem': Memory, root: Addr, root': Addr, ctx: Context, z: Addr, key: int, owned: set<Addr>)
    requires Seen(mem, root, ctx, Leaf, owned) && z !in mem && z != NULL && Planted(mem, mem', root, root', ctx, z, key)
    ensures Seen(mem', root', ctx, Node(z, Red, key, Leaf, Leaf), owned + {z}) && mem'[NULL] == mem[NULL]
  {
    ContextInMemory(mem, ctx, NULL);
    Rehole(mem, mem', ctx, NULL, z);
    RootOfHole(ctx, NULL, z);
    var leaf := Node(z, Red, key, Leaf, Leaf);
    assert Addrs(leaf) == {z} && Holds(mem', leaf, UpOf(ctx)) && Distinct(leaf);
  }

  /** Blackening the root ends an insertion. */
  lemma RootBlackened(mem: Memory, root: Addr, ctx: Context, t: Tree, h: nat, owned: set<Addr>) returns (tree: Tree)
    requires Seen(mem, root, ctx, t, owned) && Rising(ctx, t, h) && (ctx.Top? || Fits(ctx, h, true))
    ensures root in mem && Seen(mem[root := mem[root].(colour := Black)], root, Top, tree, owned) && root != NULL
    ensures InOrder(tree) == InOrder(Fill(ctx, t)) && Balanced(tree)
  {
    AtTop(mem, root, ctx, t);
    var u := Fill(ctx, t);
    FillNode(ctx, t);
    tree := u.(colour := Black);
    Recoloured(mem, root, Top, u, Black, owned);
    if ctx.Top? {
      assert IsRB(tree, h + 1);
    } else {
      FitsBalanced(ctx, t, h);
      assert tree == u;
    }
  }

  lemma {:induction false} FillNode(ctx: Context, t: Tree)
    requires t.Node?
    ensures Fill(ctx, t).Node?
    decreases ctx
  {
    if ctx.Under? {
      FillNode(ctx.outer, Parent(ctx, t));
    }
  }
}
