/** A deletion's steps in memory. */
module RedBlackUnlink {
  import opened RedBlackSpec
  import opened RedBlackMemory
  import opened RedBlackInsert
  import opened RedBlackDelete
  import opened RedBlackTurns

  /** The cells of a node's parent, sibling and sibling's children. */
  lemma SiblingCells(mem: Memory, root: Addr, ctx: Context, t: Tree, owned: set<Addr>)
    requires Seen(mem, root, ctx, t, owned) && ctx.Under? && ctx.sibling.Node?
    ensures ctx.addr in mem && ctx.addr != NULL && mem[ctx.addr].colour == ctx.colour
    ensures mem[ctx.addr].left == Root(t) <==> ctx.side == Left
    ensures Down(mem[ctx.addr], Other(ctx.side)) == ctx.sibling.addr && ctx.sibling.addr in mem
    ensures ctx.sibling.addr != NULL
    ensures mem[ctx.sibling.addr].colour == ctx.sibling.colour
    ensures forall d ::
      Down(mem[ctx.sibling.addr], d) == Root(Child(ctx.sibling, d)) && Root(Child(ctx.sibling, d)) in mem
    ensures forall d :: mem[Root(Child(ctx.sibling, d))].colour == Red <==> IsRed(Child(ctx.sibling, d))
    ensures ctx.sibling.addr != ctx.addr
    ensures forall d :: Root(Child(ctx.sibling, d)) != ctx.addr && Root(Child(ctx.sibling, d)) != ctx.sibling.addr
  {
    var w := ctx.sibling;
    ParentCell(mem, root, ctx, t, owned);
    RootIn(w);
    RootIn(w.left);
    RootIn(w.right);
    InMemory(mem, w, ctx.addr);
    InMemory(mem, w.left, w.addr);
    InMemory(mem, w.right, w.addr);
  }

  /** The sibling seen from the node's parent. */
  lemma SeenSibling(mem: Memory, root: Addr, ctx: Context, t: Tree, owned: set<Addr>)
    requires Seen(mem, root, ctx, t, owned) && ctx.Under?
    ensures Seen(mem, root, ctx.outer, Parent(ctx, t), owned)
    ensures Enter(ctx.outer, Parent(ctx, t), Other(ctx.side)) == Under(Other(ctx.side), ctx.addr, ctx.colour, ctx.key,
        t, ctx.outer)
    ensures Seen(mem, root, Under(Other(ctx.side), ctx.addr, ctx.colour, ctx.key, t, ctx.outer), ctx.sibling, owned)
  {
    SeenParent(mem, root, ctx, t, owned);
    SeenChild(mem, root, ctx.outer, Parent(ctx, t), Other(ctx.side), owned);
  }

  /** And back again. */
  lemma SeenBack(mem: Memory, root: Addr, ctx: Context, t: Tree, w: Tree, owned: set<Addr>)
    requires ctx.Under?
    requires Seen(mem, root, Under(Other(ctx.side), ctx.addr, ctx.colour, ctx.key, t, ctx.outer), w, owned)
    ensures Seen(mem, root, ctx.(sibling := w), t, owned)
    ensures Seen(mem, root, ctx.outer, Parent(ctx.(sibling := w), t), owned)
  {
    var c := Under(Other(ctx.side), ctx.addr, ctx.colour, ctx.key, t, ctx.outer);
    SeenParent(mem, root, c, w, owned);
    assert Parent(c, w) == Parent(ctx.(sibling := w), t);
    SeenChild(mem, root, ctx.outer, Parent(c, w), ctx.side, owned);
  }

  /** The heir of the node seen takes its place; the node itself is cut off. */
  ghost predicate Spliced(mem: Memory, mem': Memory, root: Addr, root': Addr, ctx: Context, u: Tree)
    requires u.Node?
  {
    var x := Root(Heir(u));
    && mem'.Keys == mem.Keys && x in mem && mem'[x] == mem[x].(up := UpOf(ctx))
    && (ctx.Under? ==> ctx.addr in mem && ctx.addr != x && mem'[ctx.addr] == SetDown(mem[ctx.addr], ctx.side, x))
    && (forall a :: a in mem && a != x && (ctx.Under? ==> a != ctx.addr) ==> mem'[a] == mem[a])
    && root' == if ctx.Top? then x else root
  }

  lemma HeirFacts(mem: Memory, root: Addr, ctx: Context, u: Tree, owned: set<Addr>)
    requires Seen(mem, root, ctx, u, owned) && u.Node? && (u.left.Leaf? || u.right.Leaf?)
    ensures var x := Root(Heir(u));
      x in mem && u.addr in mem && u.addr != NULL && x != u.addr && (x == NULL <==> Heir(u).Leaf?)
      && x == (if mem[u.addr].left != NULL then mem[u.addr].left else mem[u.addr].right)
      && mem[u.addr].up == UpOf(ctx) && (ctx.Top? <==> UpOf(ctx) == NULL) && mem[u.addr].colour == u.colour
      && mem[u.addr].key == u.key
      && (ctx.Under? ==> ctx.addr in mem && ctx.addr != x && ctx.addr != u.addr)
      && (ctx.Under? ==> (mem[ctx.addr].left == u.addr <==> ctx.side == Left))
  {
    ParentCell(mem, root, ctx, u, owned);
    RootIn(u);
    RootIn(u.left);
    RootIn(u.right);
    InMemory(mem, u, UpOf(ctx));
    InMemory(mem, u.left, u.addr);
    InMemory(mem, u.right, u.addr);
    ContextInMemory(mem, ctx, u.addr);
  }

  lemma SplicedAt(mem: Memory, mem': Memory, root: Addr, root': Addr, ctx: Context, u: Tree, owned: set<Addr>)
    requires Seen(mem, root, ctx, u, owned) && u.Node? && (u.left.Leaf? || u.right.Leaf?)
    requires Spliced(mem, mem', root, root', ctx, u)
    ensures Seen(mem', root', ctx, Heir(u), owned - {u.addr}) && mem'[Root(Heir(u))].up == UpOf(ctx)
  {
    var v := Heir(u);
    HeirFacts(mem, root, ctx, u, owned);
    RootIn(v);
    RootIn(u);
    InMemory(mem, v, u.addr);
    ContextInMemory(mem, ctx, u.addr);
    Rehung(mem, mem', v, u.addr, UpOf(ctx));
    Rehole(mem, mem', ctx, u.addr, Root(v));
    RootOfHole(ctx, u.addr, Root(v));
    assert Addrs(u) == {u.addr} + Addrs(v);
  }

  lemma {:induction false} SpineIn(mem: Memory, ctx: Context, p: Addr, z: Addr)
    requires HoldsContext(mem, ctx, p) && Spine(ctx, z)
    ensures z in ContextAddrs(ctx) && z in mem && mem[z].key == SpineKey(ctx)
    decreases ctx
  {
    if ctx.side == Left {
      SpineIn(mem, ctx.outer, ctx.addr, z);
    }
  }

  lemma {:induction false} ReKeyedContext(mem: Memory, mem': Memory, ctx: Context, p: Addr, z: Addr, key: int)
    requires HoldsContext(mem, ctx, p) && DistinctContext(ctx) && Spine(ctx, z)
    requires z in mem && z in mem' && mem'[z] == mem[z].(key := key) && Agree(mem, mem', ContextAddrs(ctx) - {z})
    ensures HoldsContext(mem', ReKey(ctx, key), p) && DistinctContext(ReKey(ctx, key))
    ensures ContextAddrs(ReKey(ctx, key)) == ContextAddrs(ctx) && UpOf(ReKey(ctx, key)) == UpOf(ctx)
    ensures RootOf(ReKey(ctx, key), p) == RootOf(ctx, p)
    decreases ctx
  {
    if ctx.side == Left {
      SpineIn(mem, ctx.outer, ctx.addr, z);
      HoldsFrame(mem, mem', ctx.sibling, ctx.addr);
      ReKeyedContext(mem, mem', ctx.outer, ctx.addr, z, key);
    } else {
      HoldsFrame(mem, mem', ctx.sibling, ctx.addr);
      ContextFrame(mem, mem', ctx.outer, ctx.addr);
    }
  }

  /** Another key written into a node on the way up. */
  lemma ReKeyedAt(mem: Memory, root: Addr, ctx: Context, t: Tree, z: Addr, key: int, owned: set<Addr>)
    requires Seen(mem, root, ctx, t, owned) && Spine(ctx, z)
    ensures z in mem && z != NULL && Seen(mem[z := mem[z].(key := key)], root, ReKey(ctx, key), t, owned)
    ensures UpOf(ReKey(ctx, key)) == UpOf(ctx)
  {
    ContextInMemory(mem, ctx, Root(t));
    SpineIn(mem, ctx, Root(t), z);
    var mem' := mem[z := mem[z].(key := key)];
    InMemory(mem, t, UpOf(ctx));
    ReKeyedContext(mem, mem', ctx, Root(t), z, key);
    HoldsFrame(mem, mem', t, UpOf(ctx));
  }

  /** A cell that is not part of the tree may go. */
  lemma Freed(mem: Memory, root: Addr, tree: Tree, y: Addr, owned: set<Addr>)
    requires Seen(mem, root, Top, tree, owned) && y !in owned && y != NULL
    ensures Seen(mem - {y}, root, Top, tree, owned)
  {
    InMemory(mem, tree, NULL);
    HoldsFrame(mem, mem - {y}, tree, NULL);
  }

  lemma SeenTop(mem: Memory, root: Addr, ctx: Context, t: Tree, owned: set<Addr>)
    requires Seen(mem, root, ctx, t, owned)
    ensures Seen(mem, root, Top, Fill(ctx, t), owned) && root == Root(Fill(ctx, t))
  {
    AtTop(mem, root, ctx, t);
  }

  /** How the repair knows whether it is done. */
  lemma LackingCell(mem: Memory, root: Addr, ctx: Context, t: Tree, h: nat, owned: set<Addr>)
    requires Seen(mem, root, ctx, t, owned) && Lacking(ctx, t, h)
    ensures Root(t) in mem && (t.Node? ==> mem[Root(t)].up == UpOf(ctx))
    ensures Root(t) != root && mem[Root(t)].colour == Black <==> ctx.Under? && !IsRed(t)
  {
    ParentCell(mem, root, ctx, t, owned);
    ContextInMemory(mem, ctx, Root(t));
  }

  lemma SeenBlackened(mem: Memory, root: Addr, ctx: Context, t: Tree, owned: set<Addr>)
    requires Seen(mem, root, ctx, t, owned)
    ensures Root(t) in mem
    ensures Seen(mem[Root(t) := mem[Root(t)].(colour := Black)], root, Top, Fill(ctx, Blackened(t)), owned)
  {
    ParentCell(mem, root, ctx, t, owned);
    if t.Node? {
      Recoloured(mem, root, ctx, t, Black, owned);
    } else {
      assert mem[NULL := mem[NULL].(colour := Black)] == mem;
    }
    SeenTop(mem[Root(t) := mem[Root(t)].(colour := Black)], root, ctx, Blackened(t), owned);
  }

  /** The keys beyond a node's own, on side `d`. */
  ghost function Beyond(d: Side, ctx: Context, t: Tree): seq<int>
    requires t.Node?
  {
    if d == Right then InOrder(t.right) + After(ctx) else Before(ctx) + InOrder(t.left)
  }

  /** The keys of `t` and those beyond it. */
  ghost function Ahead(d: Side, ctx: Context, t: Tree): seq<int> {
    if d == Right then InOrder(t) + After(ctx) else Before(ctx) + InOrder(t)
  }

  /** The nearest of the keys that lie on side `d`. */
  ghost predicate Nearest(d: Side, keys: seq<int>, key: int) {
    keys != [] && key == if d == Right then keys[0] else keys[|keys| - 1]
  }

  lemma AheadEntered(d: Side, ctx: Context, t: Tree)
    requires t.Node?
    ensures Ahead(d, Enter(ctx, t, Other(d)), Child(t, Other(d))) == Ahead(d, ctx, t)
    ensures Ahead(d, Enter(ctx, t, d), Child(t, d)) == Beyond(d, ctx, t)
    ensures Child(t, Other(d)).Leaf? ==> Nearest(d, Ahead(d, ctx, t), t.key)
  {
    var l, k, r := InOrder(t.left), [t.key], InOrder(t.right);
    assert InOrder(t) == l + k + r;
    if d == Right {
      assert (l + k + r) + After(ctx) == l + ((k + r) + After(ctx));
      assert l == [] ==> ((k + r) + After(ctx))[0] == t.key;
    } else {
      var s := Before(ctx) + (l + k + r);
      assert s == (Before(ctx) + (l + k)) + r;
      if r == [] {
        assert s == (Before(ctx) + l) + k;
      }
    }
  }

  lemma BeyondClimbed(d: Side, ctx: Context, t: Tree)
    requires t.Node? && Child(t, d).Leaf?
    ensures ctx.Top? ==> Beyond(d, ctx, t) == []
    ensures Beyond(d, ctx, t) == if d == Right then After(ctx) else Before(ctx)
  {
    if d == Right {
      assert [] + After(ctx) == After(ctx);
    } else {
      assert Before(ctx) + [] == Before(ctx);
    }
  }

  lemma ContextBeyond(d: Side, ctx: Context)
    requires ctx.Under?
    ensures var s := if d == Right then After(ctx) else Before(ctx);
      if ctx.side == d then s == (if d == Right then After(ctx.outer) else Before(ctx.outer))
        else Nearest(d, s, ctx.key)
  {
    var s := InOrder(ctx.sibling);
    if ctx.side != d {
      if d == Right {
        assert After(ctx) == ([ctx.key] + s) + After(ctx.outer);
        assert After(ctx)[0] == ctx.key;
      } else {
        assert Before(ctx) == Before(ctx.outer) + (s + [ctx.key]);
        assert Before(ctx)[|Before(ctx)| - 1] == ctx.key;
      }
    }
  }

  lemma SpineOwned(mem: Memory, root: Addr, ctx: Context, t: Tree, z: Addr, owned: set<Addr>)
    requires Seen(mem, root, ctx, t, owned) && Spine(ctx, z)
    ensures z in owned && z in mem && mem[z].key == SpineKey(ctx)
  {
    SpineIn(mem, ctx, Root(t), z);
  }

  lemma ChildCells(mem: Memory, root: Addr, ctx: Context, t: Tree, owned: set<Addr>)
    requires Seen(mem, root, ctx, t, owned) && t.Node?
    ensures t.addr in mem && (mem[t.addr].left == NULL <==> t.left.Leaf?)
    ensures (mem[t.addr].right == NULL <==> t.right.Leaf?)
  {
    InMemory(mem, t.left, t.addr);
    InMemory(mem, t.right, t.addr);
  }

  /** The context once the node `u` is cut off: if it is not `z` itself, `z` gets its key. */
  ghost function CutContext(ctx: Context, u: Tree, z: Addr): Context
    requires u.Node?
  {
    if u.addr == z then ctx else ReKey(ctx, u.key)
  }

  /** Cutting `u` off takes the key of `z` out and leaves at most one black node short. */
  lemma CutKeys(mem: Memory, root: Addr, ctx: Context, u: Tree, z: Addr, key: int, tree: Tree, owned: set<Addr>)
    returns (h: nat)
    requires Seen(mem, root, ctx, u, owned) && Fill(ctx, u) == tree && Sorted(InOrder(tree)) && Balanced(tree)
    requires u.Node? && (u.left.Leaf? || u.right.Leaf?) && z in mem && mem[z].key == key
    requires u.addr == z || (u.left.Leaf? && Spine(ctx, z))
    ensures var s := InOrder(Fill(CutContext(ctx, u, z), Heir(u)));
      Sorted(s) && |s| + 1 == |InOrder(tree)| && forall k :: k in s <==> k in InOrder(tree) && k != key
    ensures if u.colour == Black then Lacking(CutContext(ctx, u, z), Heir(u), h)
      else Balanced(Fill(CutContext(ctx, u, z), Heir(u)))
    ensures u.addr != z ==> Spine(ctx, z)
  {
    var hu := FitsFound(ctx, u);
    var p, q;
    if u.addr == z {
      p, q := HeirOrder(ctx, u);
      HeirKeeps(ctx, u, hu);
    } else {
      SpineOwned(mem, root, ctx, u, z, owned);
      p, q := MovedOrder(ctx, z, u);
      ReKeyFits(ctx, u.key, hu, IsRed(u));
      HeirKeeps(ReKey(ctx, u.key), u, hu);
    }
    NodeKey(mem, root, ctx, u, owned);
    RemovedKey(p, key, q);
    h := if u.colour == Black then hu - 1 else 0;
  }

  lemma NodeKey(mem: Memory, root: Addr, ctx: Context, u: Tree, owned: set<Addr>)
    requires Seen(mem, root, ctx, u, owned) && u.Node?
    ensures u.addr in mem && mem[u.addr].key == u.key
  {
    InMemory(mem, u, UpOf(ctx));
  }
}
