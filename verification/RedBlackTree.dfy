/** The red-black tree, changed in place. */
module RedBlackTree {
  import opened Wrappers
  import opened RedBlackSpec
  import opened RedBlackMemory
  import opened RedBlackInsert
  import opened RedBlackTurns
  import opened RedBlackSearch
  import opened RedBlackDelete
  import opened RedBlackUnlink
  import opened RedBlackModes

  class RedBlack {
    var mem: Memory
    var root: Addr
    ghost var tree: Tree

    /** Memory holds one tree and the sentinel; its keys are in order and it is balanced. */
    ghost predicate Valid()
      reads this
    {
      Seen(mem, root, Top, tree, mem.Keys - {NULL}) && Sorted(InOrder(tree)) && Balanced(tree)
    }

    /** The keys in the tree, in order. */
    ghost function Contents(): seq<int>
      reads this
    {
      InOrder(tree)
    }

    constructor ()
      ensures Valid() && Contents() == []
    {
      mem := map[NULL := Cell(NULL, NULL, NULL, Black, 0)];
      root := NULL;
      tree := Leaf;
      new;
      assert IsRB(Leaf, 0);
      assert mem.Keys - {NULL} == {};
    }

    /** Walks down from the root until `key` is met or a missing node is; `y` is then the
        last node compared with. */
    method Walk(key: int) returns (x: Addr, y: Addr, ghost ctx: Context, ghost t: Tree, ghost h: nat)
      requires Valid()
      ensures Reached(mem, root, tree, ctx, t, h, key) && x == Root(t) && (x == NULL <==> t.Leaf?)
      ensures if t.Node? then t.key == key && y == x else y == UpOf(ctx)
      ensures (x != NULL <==> key in Contents()) && (x != NULL ==> x in mem && mem[x].key == key)
    {
      y := NULL;
      x := root;
      ctx, t, h := ReachedRoot(mem, root, tree, key);
      var found := false;
      while x != NULL && !found
        invariant Reached(mem, root, tree, ctx, t, h, key) && x == Root(t) && (x == NULL <==> t.Leaf?)
        invariant if found then t.Node? && t.key == key && y == x else y == UpOf(ctx)
        decreases t, !found
      {
        NodeCell(mem, root, ctx, t, mem.Keys - {NULL});
        y := x;
        if key < mem[x].key {
          x := mem[x].left;
          ctx, t, h := ReachedChild(mem, root, tree, ctx, t, h, Left, key);
        } else if key > mem[x].key {
          x := mem[x].right;
          ctx, t, h := ReachedChild(mem, root, tree, ctx, t, h, Right, key);
        } else {
          found := true;
        }
      }
      FoundOrNot(tree, ctx, t, key);
      NodeCell(mem, root, ctx, t, mem.Keys - {NULL});
    }

    /** Looks for `key` and, if it is missing, enters it in the new cell `z`. */
    method Insert(key: int, z: Addr) returns (node: Addr, added: bool)
      requires Valid() && z !in mem && z != NULL
      modifies this
      ensures Valid() && node in mem && node != NULL && mem[node].key == key
      ensures added <==> key !in old(Contents())
      ensures forall k :: k in Contents() <==> k in old(Contents()) || k == key
      ensures |Contents()| == |old(Contents())| + if added then 1 else 0
    {
      ghost var owned := mem.Keys - {NULL};
      var x, y;
      ghost var ctx, t, h;
      x, y, ctx, t, h := Walk(key);
      FoundOrNot(tree, ctx, t, key);
      NodeCell(mem, root, ctx, t, owned);
      if x != NULL {
        return x, false;
      }
      GrowAt(key, z, y, ctx, t, h);
      return z, true;
    }

    /** Enters a missing key where the walk for it ended. */
    method GrowAt(key: int, z: Addr, y: Addr, ghost ctx: Context, ghost t: Tree, ghost h: nat)
      requires Reached(mem, root, tree, ctx, t, h, key) && t.Leaf? && y == UpOf(ctx) && z !in mem && z != NULL
      modifies this
      ensures Valid() && z in mem && mem[z].key == key && |Contents()| == |old(Contents())| + 1
      ensures forall k :: k in Contents() <==> k in old(Contents()) || k == key
    {
      ghost var owned := mem.Keys - {NULL};
      Plant(z, y, key, ctx, owned);
      ghost var leaf := Node(z, Red, key, Leaf, Leaf);
      PlantedOrder(tree, ctx, key, leaf);
      Rebalance(z, ctx, leaf, h, owned + {z});
      assert mem.Keys - {NULL} == owned + {z};
    }

    /** Restores the balance after a new red node was hung in. */
    method Rebalance(z: Addr, ghost ctx: Context, ghost t: Tree, ghost h: nat, ghost owned: set<Addr>)
      requires Sees(ctx, t, owned) && Rising(ctx, t, h) && t.addr == z && z in mem
      modifies this
      ensures Seen(mem, root, Top, tree, owned) && Balanced(tree) && InOrder(tree) == InOrder(Fill(ctx, t))
      ensures mem.Keys == old(mem.Keys) && mem[z].key == old(mem[z].key)
    {
      ghost var ctx', t', h' := Repair(z, ctx, t, h, owned);
      tree := RootBlackened(mem, root, ctx', t', h', owned);
      mem := mem[root := mem[root].(colour := Black)];
    }

    /** Hangs a new red node under `y`. */
    method Plant(z: Addr, y: Addr, key: int, ghost ctx: Context, ghost owned: set<Addr>)
      requires Sees(ctx, Leaf, owned) && y == UpOf(ctx) && z !in mem && z != NULL
      requires AllBelow(Before(ctx), key) && AllAbove(After(ctx), key)
      modifies this`mem, this`root
      ensures Sees(ctx, Node(z, Red, key, Leaf, Leaf), owned + {z})
      ensures mem.Keys == old(mem.Keys) + {z} && mem[z].key == key
    {
      ghost var m := mem;
      ParentCell(mem, root, ctx, Leaf, owned);
      mem := mem[z := Cell(NULL, NULL, y, Red, key)];
      if y == NULL {
        root := z;
      } else {
        PlantingSide(ctx, key);
        if key < mem[y].key {
          mem := mem[y := mem[y].(left := z)];
        } else {
          mem := mem[y := mem[y].(right := z)];
        }
      }
      PlantedAt(m, mem, old(root), root, ctx, z, key, owned);
    }

    /** Turns node `x` towards `d`: its other child takes its place. */
    method Turn(d: Side, x: Addr)
      requires CanTurn(mem, d, x)
      modifies this
      ensures Turning(old(mem), mem, d, x)
      ensures root == if old(mem[x]).up == NULL then Down(old(mem[x]), Other(d)) else old(root)
    {
      var y := Down(mem[x], Other(d));
      var b := Down(mem[y], d);
      mem := mem[x := SetDown(mem[x], Other(d), b)];
      if b != NULL {
        mem := mem[b := mem[b].(up := x)];
      }
      mem := mem[y := mem[y].(up := mem[x].up)];
      var p := mem[x].up;
      if p == NULL {
        root := y;
      } else if mem[p].left == x {
        mem := mem[p := mem[p].(left := y)];
      } else {
        mem := mem[p := mem[p].(right := y)];
      }
      mem := mem[y := SetDown(mem[y], d, x)];
      mem := mem[x := mem[x].(up := y)];
    }

    /** The memory seen from a node: `t` is in the hole of `ctx`. */
    ghost predicate Sees(ctx: Context, t: Tree, owned: set<Addr>)
      reads this
    {
      Seen(mem, root, ctx, t, owned)
    }

    method Rotate(d: Side, x: Addr, ghost ctx: Context, ghost t: Tree, ghost owned: set<Addr>)
      requires Sees(ctx, t, owned) && t.Node? && t.addr == x && Child(t, Other(d)).Node?
      modifies this
      ensures Sees(ctx, Turned(d, t), owned) && SameKeys(old(mem), mem)
    {
      ghost var m := mem;
      TurnFacts(mem, root, d, ctx, t);
      Turn(d, x);
      TurnedAt(m, mem, old(root), root, d, ctx, t);
      TurnedAddrs(d, t);
    }

    method SetColour(x: Addr, c: Colour, ghost ctx: Context, ghost t: Tree, ghost owned: set<Addr>)
      requires Sees(ctx, t, owned) && t.Node? && t.addr == x
      modifies this`mem
      ensures Sees(ctx, t.(colour := c), owned) && x != NULL && x in old(mem)
      ensures mem == old(mem)[x := old(mem)[x].(colour := c)]
    {
      Recoloured(mem, root, ctx, t, c, owned);
      mem := mem[x := mem[x].(colour := c)];
    }

    /** The uncle is red too: parent and uncle become black and the grandparent red. */
    method RecolourFamily(x: Addr, y: Addr, ghost ctx: Context, ghost t: Tree, ghost owned: set<Addr>)
      returns (x': Addr)
      requires Sees(ctx, t, owned) && TwoReds(ctx, t) && t.addr == x
      requires IsRed(ctx.outer.sibling) && ctx.outer.sibling.addr == y
      modifies this`mem
      ensures Sees(ctx.outer.outer, Recolouring(ctx, t), owned) && x' == Recolouring(ctx, t).addr
      ensures SameKeys(old(mem), mem)
    {
      ghost var o, d := ctx.outer, Other(ctx.outer.side);
      FamilyCells(mem, root, ctx, t, owned);
      SetColour(mem[x].up, Black, o, Parent(ctx, t), owned);
      ghost var parent := Parent(ctx, t).(colour := Black);
      SeenParent(mem, root, o, parent, owned);
      ghost var grand := Parent(o, parent);
      SeenChild(mem, root, o.outer, grand, d, owned);
      SetColour(y, Black, Enter(o.outer, grand, d), o.sibling, owned);
      SeenParent(mem, root, Enter(o.outer, grand, d), o.sibling.(colour := Black), owned);
      SetColour(mem[mem[x].up].up, Red, o.outer, Parent(Enter(o.outer, grand, d), o.sibling.(colour := Black)), owned);
      x' := mem[mem[x].up].up;
    }

    /** An inner grandchild takes its parent's place; the walk goes on from the parent. */
    method Straighten(d: Side, x: Addr, ghost ctx: Context, ghost t: Tree, ghost owned: set<Addr>) returns (x': Addr)
      requires Sees(ctx, t, owned) && TwoReds(ctx, t) && t.addr == x && ctx.side == Other(d)
      modifies this
      ensures Sees(StraightContext(ctx, t), StraightTree(ctx, t), owned) && x' == StraightTree(ctx, t).addr
      ensures SameKeys(old(mem), mem)
    {
      FamilyCells(mem, root, ctx, t, owned);
      x' := mem[x].up;
      Rotate(d, x', ctx.outer, Parent(ctx, t), owned);
      SeenChild(mem, root, ctx.outer, Turned(d, Parent(ctx, t)), d, owned);
    }

    /** The parent becomes black and takes the place of the grandparent, which becomes red. */
    method TurnFamily(d: Side, x: Addr, ghost ctx: Context, ghost t: Tree, ghost owned: set<Addr>)
      requires Sees(ctx, t, owned) && TwoReds(ctx, t) && t.addr == x && ctx.side == ctx.outer.side == d
      modifies this
      ensures Sees(TurnedContext(ctx, t), t, owned)
      ensures SameKeys(old(mem), mem)
    {
      ghost var o := ctx.outer;
      FamilyCells(mem, root, ctx, t, owned);
      SetColour(mem[x].up, Black, o, Parent(ctx, t), owned);
      ghost var parent := Parent(ctx, t).(colour := Black);
      SeenParent(mem, root, o, parent, owned);
      SetColour(mem[mem[x].up].up, Red, o.outer, Parent(o, parent), owned);
      Rotate(Other(d), mem[mem[x].up].up, o.outer, Parent(o, parent).(colour := Red), owned);
      SeenChild(mem, root, o.outer, Turned(Other(d), Parent(o, parent).(colour := Red)), d, owned);
    }

    /** One round of the walk back up: the parent of the red node `x` is red and on side
        `d` of the grandparent. */
    method RepairStep(d: Side, x: Addr, ghost ctx: Context, ghost t: Tree, ghost owned: set<Addr>)
      returns (x': Addr, ghost ctx': Context, ghost t': Tree)
      requires Sees(ctx, t, owned) && TwoReds(ctx, t) && t.addr == x && ctx.outer.side == d
      modifies this
      ensures Sees(ctx', t', owned) && Repaired(ctx, t, ctx', t') && t'.Node? && t'.addr == x'
      ensures SameKeys(old(mem), mem)
    {
      FamilyCells(mem, root, ctx, t, owned);
      var y := Down(mem[mem[mem[x].up].up], Other(d));
      if mem[y].colour == Red {
        ctx', t' := ctx.outer.outer, Recolouring(ctx, t);
        x' := RecolourFamily(x, y, ctx, t, owned);
      } else {
        x', ctx', t' := x, ctx, t;
        if Down(mem[mem[x].up], Other(d)) == x {
          ctx', t' := StraightContext(ctx, t), StraightTree(ctx, t);
          x' := Straighten(d, x, ctx, t, owned);
        }
        TurnFamily(d, x', ctx', t', owned);
        ctx' := TurnedContext(ctx', t');
      }
    }

    /** Walks back up from a new red node until no red node has a red child. */
    method Repair(x: Addr, ghost ctx: Context, ghost t: Tree, ghost h: nat, ghost owned: set<Addr>)
      returns (ghost ctx': Context, ghost t': Tree, ghost h': nat)
      requires Sees(ctx, t, owned) && Rising(ctx, t, h) && t.addr == x
      modifies this
      ensures Sees(ctx', t', owned) && Rising(ctx', t', h') && (ctx'.Top? || Fits(ctx', h', true))
      ensures InOrder(Fill(ctx', t')) == InOrder(Fill(ctx, t))
      ensures SameKeys(old(mem), mem)
    {
      var x' := x;
      ctx', t', h' := ctx, t, h;
      ParentCell(mem, root, ctx, t, owned);
      while x' != root && mem[mem[x'].up].colour == Red
        invariant Sees(ctx', t', owned) && Rising(ctx', t', h') && t'.addr == x'
        invariant x' in mem && mem[x'].up in mem
        invariant (x' != root && mem[mem[x'].up].colour == Red <==> ctx'.Under? && ctx'.colour == Red)
        invariant InOrder(Fill(ctx', t')) == InOrder(Fill(ctx, t))
        invariant SameKeys(old(mem), mem)
        decreases Depth(ctx')
      {
        TwoRedsFound(ctx', t', h');
        FamilyCells(mem, root, ctx', t', owned);
        ghost var ctx0, t0 := ctx', t';
        var d := if mem[x'].up == mem[mem[mem[x'].up].up].left then Left else Right;
        x', ctx', t' := RepairStep(d, x', ctx', t', owned);
        h' := RepairKeeps(ctx0, t0, ctx', t', h');
        RepairOrder(ctx0, t0, ctx', t');
        ParentCell(mem, root, ctx', t', owned);
      }
    }

    /* ---- Deletion ---- */

    /** The red sibling of the node short of a black one takes the parent's place. */
    method RaiseSibling(d: Side, p: Addr, w: Addr, ghost ctx: Context, ghost t: Tree, ghost owned: set<Addr>)
      requires Sees(ctx, t, owned) && ctx.Under? && ctx.side == d && ctx.addr == p && ctx.sibling.Node?
      requires ctx.sibling.addr == w
      modifies this
      ensures Sees(SiblingUp(ctx), t, owned) && SameKeys(old(mem), mem)
    {
      SeenSibling(mem, root, ctx, t, owned);
      SetColour(w, Black, Under(Other(d), p, ctx.colour, ctx.key, t, ctx.outer), ctx.sibling, owned);
      ghost var ctx1 := ctx.(sibling := ctx.sibling.(colour := Black));
      SeenBack(mem, root, ctx, t, ctx.sibling.(colour := Black), owned);
      SetColour(p, Red, ctx.outer, Parent(ctx1, t), owned);
      ghost var parent := Parent(ctx1, t).(colour := Red);
      Rotate(d, p, ctx.outer, parent, owned);
      SeenChild(mem, root, ctx.outer, Turned(d, parent), d, owned);
      SeenChild(mem, root, Enter(ctx.outer, Turned(d, parent), d), Child(Turned(d, parent), d), d, owned);
    }

    /** The black sibling, whose children are black, turns red. */
    method RedSibling(w: Addr, ghost ctx: Context, ghost t: Tree, ghost owned: set<Addr>)
      requires Sees(ctx, t, owned) && ctx.Under? && ctx.sibling.Node? && ctx.sibling.addr == w
      modifies this
      ensures Sees(ctx.outer, SiblingReddened(ctx, t), owned) && SameKeys(old(mem), mem)
    {
      SeenSibling(mem, root, ctx, t, owned);
      SetColour(w, Red, Under(Other(ctx.side), ctx.addr, ctx.colour, ctx.key, t, ctx.outer), ctx.sibling, owned);
      SeenBack(mem, root, ctx, t, ctx.sibling.(colour := Red), owned);
    }

    /** The sibling's red inner child `n` takes the sibling's place. */
    method StraightenSibling(d: Side, w: Addr, n: Addr, ghost ctx: Context, ghost t: Tree, ghost owned: set<Addr>)
      requires Sees(ctx, t, owned) && ctx.Under? && ctx.side == d && ctx.sibling.Node? && ctx.sibling.addr == w
      requires Child(ctx.sibling, d).Node? && Child(ctx.sibling, d).addr == n
      modifies this
      ensures Sees(SiblingStraight(ctx), t, owned) && SameKeys(old(mem), mem)
    {
      ghost var c, s := Under(Other(d), ctx.addr, ctx.colour, ctx.key, t, ctx.outer), ctx.sibling;
      SeenSibling(mem, root, ctx, t, owned);
      SeenChild(mem, root, c, s, d, owned);
      SetColour(n, Black, Enter(c, s, d), Child(s, d), owned);
      SeenParent(mem, root, Enter(c, s, d), Child(s, d).(colour := Black), owned);
      s := Parent(Enter(c, s, d), Child(s, d).(colour := Black));
      SetColour(w, Red, c, s, owned);
      s := s.(colour := Red);
      Rotate(Other(d), w, c, s, owned);
      SeenBack(mem, root, ctx, t, Turned(Other(d), s), owned);
    }

    /** The sibling takes the parent's place and colour; the parent and the sibling's
        outer child turn black. */
    method RaiseForGood(d: Side, p: Addr, w: Addr, far: Addr, ghost ctx: Context, ghost t: Tree, ghost owned: set<Addr>)
      requires Sees(ctx, t, owned) && ctx.Under? && ctx.side == d && ctx.addr == p && ctx.sibling.Node?
      requires ctx.sibling.addr == w
      requires p in mem && mem[p].colour == ctx.colour && p != w
      requires Child(ctx.sibling, Other(d)).Node? && Child(ctx.sibling, Other(d)).addr == far
      modifies this
      ensures Sees(ctx.outer, Closed(ctx, t), owned) && SameKeys(old(mem), mem)
    {
      PaintSibling(d, p, w, ctx, t, owned);
      ghost var ctx1 := ctx.(colour := Black, sibling := ctx.sibling.(colour := ctx.colour));
      PaintFar(d, far, ctx1, t, owned);
      ghost var s := Join(d, w, ctx.colour, ctx.sibling.key, Child(ctx.sibling, d),
                          Blackened(Child(ctx.sibling, Other(d))));
      Rotate(d, p, ctx.outer, Parent(ctx1.(sibling := s), t), owned);
    }

    /** The sibling takes the parent's colour and the parent turns black. */
    method PaintSibling(d: Side, p: Addr, w: Addr, ghost ctx: Context, ghost t: Tree, ghost owned: set<Addr>)
      requires Sees(ctx, t, owned) && ctx.Under? && ctx.side == d && ctx.addr == p && ctx.sibling.Node?
      requires ctx.sibling.addr == w
      requires p in mem && mem[p].colour == ctx.colour && p != w
      modifies this`mem
      ensures Sees(ctx.(colour := Black, sibling := ctx.sibling.(colour := ctx.colour)), t, owned)
      ensures SameKeys(old(mem), mem)
    {
      ghost var s := ctx.sibling;
      SeenSibling(mem, root, ctx, t, owned);
      SetColour(w, mem[p].colour, Under(Other(d), p, ctx.colour, ctx.key, t, ctx.outer), s, owned);
      s := s.(colour := ctx.colour);
      SeenBack(mem, root, ctx, t, s, owned);
      SetColour(p, Black, ctx.outer, Parent(ctx.(sibling := s), t), owned);
      SeenChild(mem, root, ctx.outer, Parent(ctx.(colour := Black, sibling := s), t), d, owned);
    }

    /** The sibling's outer child turns black. */
    method PaintFar(d: Side, far: Addr, ghost ctx: Context, ghost t: Tree, ghost owned: set<Addr>)
      requires Sees(ctx, t, owned) && ctx.Under? && ctx.side == d && ctx.sibling.Node?
      requires Child(ctx.sibling, Other(d)).Node? && Child(ctx.sibling, Other(d)).addr == far
      modifies this`mem
      ensures var s := ctx.sibling;
        Sees(ctx.outer,
             Parent(ctx.(sibling := Join(d, s.addr, s.colour, s.key, Child(s, d), Blackened(Child(s, Other(d))))), t),
             owned)
      ensures SameKeys(old(mem), mem)
    {
      ghost var c, s := Under(Other(d), ctx.addr, ctx.colour, ctx.key, t, ctx.outer), ctx.sibling;
      SeenSibling(mem, root, ctx, t, owned);
      SeenChild(mem, root, c, s, Other(d), owned);
      SetColour(far, Black, Enter(c, s, Other(d)), Child(s, Other(d)), owned);
      SeenParent(mem, root, Enter(c, s, Other(d)), Child(s, Other(d)).(colour := Black), owned);
      SeenBack(mem, root, ctx, t, Parent(Enter(c, s, Other(d)), Child(s, Other(d)).(colour := Black)), owned);
    }

    /** One round of the repair, `x` being on side `d` of its parent. */
    method RefillStep(d: Side, x: Addr, ghost ctx: Context, ghost t: Tree, ghost h: nat, ghost owned: set<Addr>)
      returns (x': Addr, ghost ctx': Context, ghost t': Tree, ghost h': nat)
      requires Sees(ctx, t, owned) && Lacking(ctx, t, h) && !IsRed(t) && ctx.Under? && ctx.side == d
      requires x == Root(t) && x in mem && mem[x].up == ctx.addr
      modifies this
      ensures Sees(ctx', t', owned) && Lacking(ctx', t', h') && x' == Root(t') && t'.Node?
      ensures Rounds(ctx', t') < Rounds(ctx, t) && InOrder(Fill(ctx', t')) == InOrder(Fill(ctx, t))
      ensures mem.Keys == old(mem.Keys)
    {
      ctx', t', h' := ctx, t, h;
      SiblingThere(ctx, t, h);
      SiblingCells(mem, root, ctx, t, owned);
      var w := Down(mem[mem[x].up], Other(d));
      if mem[w].colour == Red {
        RaiseSibling(d, mem[x].up, w, ctx, t, owned);
        SiblingUpKeeps(ctx, t, h);
        SiblingUpOrder(ctx, t);
        ctx' := SiblingUp(ctx);
        SiblingThere(ctx', t, h);
        SiblingCells(mem, root, ctx', t, owned);
        w := Down(mem[mem[x].up], Other(d));
      }
      x', ctx', t', h' := RefillFromBlack(d, x, w, ctx', t', h', owned);
    }

    /** A round of the repair once the sibling `w` is black. */
    method RefillFromBlack(d: Side, x: Addr, w0: Addr, ghost ctx: Context, ghost t: Tree, ghost h: nat,
                           ghost owned: set<Addr>)
      returns (x': Addr, ghost ctx': Context, ghost t': Tree, ghost h': nat)
      requires Sees(ctx, t, owned) && Lacking(ctx, t, h) && !IsRed(t) && ctx.Under? && ctx.side == d
      requires x == Root(t) && x in mem && mem[x].up == ctx.addr
      requires ctx.sibling.Node? && ctx.sibling.addr == w0 && !IsRed(ctx.sibling)
      modifies this
      ensures Sees(ctx', t', owned) && Lacking(ctx', t', h') && x' == Root(t') && t'.Node?
      ensures if ctx.colour == Red then Rounds(ctx', t') <= 1 else Rounds(ctx', t') < Rounds(ctx, t)
      ensures InOrder(Fill(ctx', t')) == InOrder(Fill(ctx, t)) && SameKeys(old(mem), mem)
    {
      var w := w0;
      SiblingCells(mem, root, ctx, t, owned);
      assert Down(mem[w], Left) == mem[w].left && Down(mem[w], Right) == mem[w].right;
      if mem[mem[w].left].colour == Black && mem[mem[w].right].colour == Black {
        x' := mem[x].up;
        ctx', t' := ctx.outer, SiblingReddened(ctx, t);
        h' := ReddenedKeeps(ctx, t, h);
        RedSibling(w, ctx, t, owned);
      } else {
        ghost var c := ctx;
        if mem[Down(mem[w], Other(d))].colour == Black {
          StraightKeeps(ctx, t, h);
          StraightSiblingOrder(ctx, t);
          c := SiblingStraight(ctx);
          StraightenSibling(d, w, Down(mem[w], d), ctx, t, owned);
          SiblingCells(mem, root, c, t, owned);
          w := Down(mem[mem[x].up], Other(d));
        }
        x', ctx', t', h' := RefillForGood(d, x, w, c, t, h, owned);
      }
    }

    /** The last round: the sibling `w` is black and has a red outer child. */
    method RefillForGood(d: Side, x: Addr, w: Addr, ghost ctx: Context, ghost t: Tree, ghost h: nat,
                         ghost owned: set<Addr>)
      returns (x': Addr, ghost ctx': Context, ghost t': Tree, ghost h': nat)
      requires Sees(ctx, t, owned) && Lacking(ctx, t, h) && !IsRed(t) && ctx.Under? && ctx.side == d
      requires x in mem && mem[x].up == ctx.addr
      requires ctx.sibling.Node? && ctx.sibling.addr == w && !IsRed(ctx.sibling) && IsRed(Child(ctx.sibling, Other(d)))
      modifies this
      ensures Sees(ctx', t', owned) && Lacking(ctx', t', h') && x' == Root(t') && t'.Node? && ctx' == Top && !IsRed(t')
      ensures InOrder(Fill(ctx', t')) == InOrder(Fill(ctx, t)) && SameKeys(old(mem), mem)
    {
      SiblingCells(mem, root, ctx, t, owned);
      RaiseForGood(d, mem[x].up, w, Down(mem[w], Other(d)), ctx, t, owned);
      h' := ClosedKeeps(ctx, t, h);
      ClosedOrder(ctx, t);
      SeenTop(mem, root, ctx.outer, Closed(ctx, t), owned);
      x', ctx', t' := root, Top, Fill(ctx.outer, Closed(ctx, t));
    }

    /** Makes up for the black node that was taken out above `x`. */
    method Refill(x: Addr, ghost ctx: Context, ghost t: Tree, ghost h: nat, ghost owned: set<Addr>)
      requires Sees(ctx, t, owned) && Lacking(ctx, t, h) && x == Root(t) && x in mem && mem[x].up == UpOf(ctx)
      modifies this
      ensures Seen(mem, root, Top, tree, owned) && Balanced(tree) && InOrder(tree) == InOrder(Fill(ctx, t))
      ensures mem.Keys == old(mem.Keys)
    {
      var x' := x;
      ghost var ctx', t', h' := ctx, t, h;
      LackingCell(mem, root, ctx, t, h, owned);
      while x' != root && mem[x'].colour == Black
        invariant Sees(ctx', t', owned) && Lacking(ctx', t', h') && x' == Root(t') && x' in mem
        invariant mem[x'].up == UpOf(ctx')
        invariant x' != root && mem[x'].colour == Black <==> ctx'.Under? && !IsRed(t')
        invariant InOrder(Fill(ctx', t')) == InOrder(Fill(ctx, t)) && mem.Keys == old(mem.Keys)
        decreases Rounds(ctx', t')
      {
        SiblingThere(ctx', t', h');
        SiblingCells(mem, root, ctx', t', owned);
        var d := if x' == mem[mem[x'].up].left then Left else Right;
        x', ctx', t', h' := RefillStep(d, x', ctx', t', h', owned);
        LackingCell(mem, root, ctx', t', h', owned);
      }
      LackingEnds(ctx', t', h');
      SeenBlackened(mem, root, ctx', t', owned);
      mem := mem[x' := mem[x'].(colour := Black)];
      tree := Fill(ctx', Blackened(t'));
    }

    /** The node with the next key on side `d`: the successor for the right side, the
        predecessor for the left. */
    method Neighbour(d: Side, x: Addr, ghost ctx: Context, ghost t: Tree, ghost owned: set<Addr>)
      returns (y: Addr, ghost ctx': Context, ghost u: Tree)
      requires Sees(ctx, t, owned) && t.Node? && t.addr == x
      ensures y == NULL <==> Beyond(d, ctx, t) == []
      ensures y != NULL ==> y in mem && Nearest(d, Beyond(d, ctx, t), mem[y].key)
      ensures Child(t, d).Node? ==>
        Sees(ctx', u, owned) && Fill(ctx', u) == Fill(ctx, t) && u.Node? && u.addr == y && Child(u, Other(d)).Leaf?
      ensures Child(t, d).Node? && d == Right ==> Spine(ctx', x)
    {
      NodeCell(mem, root, ctx, t, owned);
      SeenChild(mem, root, ctx, t, d, owned);
      NodeCell(mem, root, Enter(ctx, t, d), Child(t, d), owned);
      if Down(mem[x], d) != NULL {
        y, ctx', u := FarEnd(d, Down(mem[x], d), Enter(ctx, t, d), Child(t, d), owned);
        AheadEntered(d, ctx, t);
        FillEntered(ctx, t, d);
      } else {
        y := Climb(d, x, ctx, t, owned);
        ctx', u := ctx, t;
      }
    }

    /** Goes down from `x`, away from side `d`, as far as there are nodes. */
    method FarEnd(d: Side, x: Addr, ghost ctx: Context, ghost t: Tree, ghost owned: set<Addr>)
      returns (y: Addr, ghost ctx': Context, ghost u: Tree)
      requires Sees(ctx, t, owned) && t.Node? && t.addr == x
      ensures Sees(ctx', u, owned) && u.Node? && u.addr == y && y != NULL && y in mem && mem[y].key == u.key
      ensures Child(u, Other(d)).Leaf? && Nearest(d, Ahead(d, ctx, t), u.key) && Fill(ctx', u) == Fill(ctx, t)
      ensures forall z :: d == Right && Spine(ctx, z) ==> Spine(ctx', z)
    {
      y, ctx', u := x, ctx, t;
      NodeCell(mem, root, ctx', u, owned);
      while Down(mem[y], Other(d)) != NULL
        invariant Sees(ctx', u, owned) && u.Node? && u.addr == y && y != NULL && y in mem && mem[y].key == u.key
        invariant Down(mem[y], Other(d)) == Root(Child(u, Other(d)))
        invariant Ahead(d, ctx', u) == Ahead(d, ctx, t) && Fill(ctx', u) == Fill(ctx, t)
        invariant forall z :: d == Right && Spine(ctx, z) ==> Spine(ctx', z)
        decreases u
      {
        SeenChild(mem, root, ctx', u, Other(d), owned);
        AheadEntered(d, ctx', u);
        FillEntered(ctx', u, Other(d));
        y := Down(mem[y], Other(d));
        ctx', u := Enter(ctx', u, Other(d)), Child(u, Other(d));
        NodeCell(mem, root, ctx', u, owned);
      }
      SeenChild(mem, root, ctx', u, Other(d), owned);
      NodeCell(mem, root, Enter(ctx', u, Other(d)), Child(u, Other(d)), owned);
      AheadEntered(d, ctx', u);
    }

    /** Goes up from `x0` until it comes from the side away from `d`. */
    method Climb(d: Side, x0: Addr, ghost ctx: Context, ghost t: Tree, ghost owned: set<Addr>) returns (y: Addr)
      requires Sees(ctx, t, owned) && t.Node? && t.addr == x0 && Child(t, d).Leaf?
      ensures y == NULL <==> Beyond(d, ctx, t) == []
      ensures y != NULL ==> y in mem && Nearest(d, Beyond(d, ctx, t), mem[y].key)
    {
      BeyondClimbed(d, ctx, t);
      ghost var c, u := ctx, t;
      ParentCell(mem, root, c, u, owned);
      var x := x0;
      y := mem[x].up;
      while y != NULL && x == Down(mem[y], d)
        invariant Sees(c, u, owned) && u.Node? && u.addr == x && y == UpOf(c) && (y == NULL <==> c.Top?)
        invariant (y != NULL ==> y in mem)
        invariant c.Under? ==> mem[c.addr].key == c.key && (x == Down(mem[y], d) <==> c.side == d)
        invariant (if d == Right then After(c) else Before(c)) == Beyond(d, ctx, t)
        decreases Depth(c)
      {
        ContextBeyond(d, c);
        SeenParent(mem, root, c, u, owned);
        c, u := c.outer, Parent(c, u);
        ParentCell(mem, root, c, u, owned);
        x := y;
        y := mem[y].up;
      }
      if c.Under? {
        ContextBeyond(d, c);
      }
    }

    /** Cuts `y` off, `x` taking its place. */
    method Splice(y: Addr, x: Addr, ghost ctx: Context, ghost u: Tree, ghost owned: set<Addr>)
      requires Sees(ctx, u, owned) && u.Node? && (u.left.Leaf? || u.right.Leaf?) && y == u.addr && x == Root(Heir(u))
      modifies this`mem, this`root
      ensures Sees(ctx, Heir(u), owned - {y}) && x in mem && mem[x].up == UpOf(ctx)
      ensures mem.Keys == old(mem.Keys) && y in mem && y != NULL && mem[y] == old(mem[y]) && mem[y].key == u.key
      ensures mem[y].colour == u.colour
    {
      ghost var m := mem;
      HeirFacts(mem, root, ctx, u, owned);
      mem := mem[x := mem[x].(up := mem[y].up)];
      if mem[y].up == NULL {
        root := x;
      } else if y == mem[mem[y].up].left {
        mem := mem[mem[y].up := mem[mem[y].up].(left := x)];
      } else {
        mem := mem[mem[y].up := mem[mem[y].up].(right := x)];
      }
      SplicedAt(m, mem, old(root), root, ctx, u, owned);
    }

    /** Gives `z` the key of the node `y` that was cut off. */
    method MoveKey(z: Addr, y: Addr, ghost ctx: Context, ghost t: Tree, ghost owned: set<Addr>)
      requires Sees(ctx, t, owned) && Spine(ctx, z) && y in mem && y !in owned
      modifies this`mem
      ensures y in mem && Sees(ReKey(ctx, mem[y].key), t, owned) && UpOf(ReKey(ctx, mem[y].key)) == UpOf(ctx)
      ensures mem.Keys == old(mem.Keys) && mem[y] == old(mem[y]) && forall a :: a in mem ==> mem[a].up == old(mem[a]).up
    {
      ReKeyedAt(mem, root, ctx, t, z, mem[y].key, owned);
      SpineOwned(mem, root, ctx, t, z, owned);
      mem := mem[z := mem[z].(key := mem[y].key)];
    }

    /** Rebalances after `y` was cut off and `x` took its place, and frees `y`. */
    method Settle(y: Addr, x: Addr, ghost ctx: Context, ghost t: Tree, ghost h: nat, ghost owned: set<Addr>)
      requires Sees(ctx, t, owned) && x == Root(t) && x in mem && mem[x].up == UpOf(ctx)
      requires y in mem && y !in owned && y != NULL && owned == mem.Keys - {NULL, y}
      requires if mem[y].colour == Black then Lacking(ctx, t, h) else Balanced(Fill(ctx, t))
      modifies this
      ensures Seen(mem, root, Top, tree, mem.Keys - {NULL}) && Balanced(tree) && InOrder(tree) == InOrder(Fill(ctx, t))
    {
      if mem[y].colour == Black {
        Refill(x, ctx, t, h, owned);
      } else {
        SeenTop(mem, root, ctx, t, owned);
        tree := Fill(ctx, t);
      }
      Freed(mem, root, tree, y, owned);
      mem := mem - {y};
      assert mem.Keys - {NULL} == owned;
    }

    /** Takes `z` out of the tree; a node with two children gets the next key instead and
        the node that held it goes. */
    method DeleteNode(z: Addr, ghost ctx: Context, ghost t: Tree)
      requires Valid() && Sees(ctx, t, mem.Keys - {NULL}) && Fill(ctx, t) == tree && t.Node? && t.addr == z
      modifies this
      ensures Valid() && |Contents()| + 1 == |old(Contents())|
      ensures forall k :: k in Contents() <==> k in old(Contents()) && k != t.key
    {
      ghost var owned := mem.Keys - {NULL};
      NodeCell(mem, root, ctx, t, owned);
      ChildCells(mem, root, ctx, t, owned);
      var y := z;
      ghost var c, u := ctx, t;
      if mem[z].left != NULL && mem[z].right != NULL {
        y, c, u := Neighbour(Right, z, ctx, t, owned);
      }
      ghost var h := CutKeys(mem, root, c, u, z, t.key, tree, owned);
      HeirFacts(mem, root, c, u, owned);
      var x := if mem[y].left != NULL then mem[y].left else mem[y].right;
      CutOff(y, x, z, c, u, owned);
      Settle(y, x, CutContext(c, u, z), Heir(u), h, owned - {y});
    }

    /** Cuts `y` off, `x` taking its place; if `y` is not `z` itself, `z` gets its key. */
    method CutOff(y: Addr, x: Addr, z: Addr, ghost ctx: Context, ghost u: Tree, ghost owned: set<Addr>)
      requires Sees(ctx, u, owned) && u.Node? && (u.left.Leaf? || u.right.Leaf?) && y == u.addr && x == Root(Heir(u))
      requires y != z ==> Spine(ctx, z)
      modifies this`mem, this`root
      ensures Sees(CutContext(ctx, u, z), Heir(u), owned - {y}) && x in mem && mem[x].up == UpOf(CutContext(ctx, u, z))
      ensures mem.Keys == old(mem.Keys) && y in mem && y != NULL && mem[y].colour == u.colour
    {
      Splice(y, x, ctx, u, owned);
      if y != z {
        MoveKey(z, y, ctx, Heir(u), owned - {y});
      }
    }

    /** Deletes `key`, if it is there. */
    method Delete(key: int) returns (found: bool)
      requires Valid()
      modifies this
      ensures Valid() && (found <==> key in old(Contents()))
      ensures forall k :: k in Contents() <==> k in old(Contents()) && k != key
      ensures |Contents()| == |old(Contents())| - if found then 1 else 0
    {
      var x, y;
      ghost var ctx, t, h;
      x, y, ctx, t, h := Walk(key);
      FoundOrNot(tree, ctx, t, key);
      if x == NULL {
        return false;
      }
      DeleteNode(x, ctx, t);
      return true;
    }

    /* ---- Lookup by mode ---- */

    /** Looks a key up by `mode`.  On an empty tree the modes that fall back on the last
        comparison have none to fall back on. */
    method Lookup(mode: Mode, key: int) returns (node: Addr)
      requires Valid() && (mode in {GtEq, LtEq, Less, Greater} ==> Contents() != [])
      ensures node != NULL ==> node in mem
      ensures Answers(mode, Contents(), key, if node == NULL then None else Some(mem[node].key))
    {
      ghost var owned := mem.Keys - {NULL};
      if mode == First || mode == Last {
        node := Extreme(if mode == First then Right else Left);
        ExtremeAnswers(mode, Contents(), key, if node == NULL then None else Some(mem[node].key));
        return;
      }
      var x, y;
      ghost var ctx, t, h;
      x, y, ctx, t, h := Walk(key);
      NodeCell(mem, root, ctx, t, owned);
      ghost var p, q := SplitAt(tree, ctx, t, key);
      var found := x != NULL;
      if found && mode in {Equal, GtEq, LtEq} {
        FoundAnswers(mode, p, q, key);
        return x;
      }
      if !found && mode in {Equal, Next, Prev} {
        MissingAnswers(mode, p, q, key);
        return NULL;
      }
      var d := if mode in {GtEq, Greater, Next} then Right else Left;
      if found {
        node, ctx, t := Neighbour(d, x, ctx, t, owned);
      } else {
        node := Nearby(d, y, key, ctx, t, owned);
      }
      NeighbourAnswers(mode, d, p, q, key, if node == NULL then None else Some(mem[node].key), found);
    }

    /** The first node (`d` is right) or the last. */
    method Extreme(d: Side) returns (node: Addr)
      requires Valid()
      ensures node == NULL <==> Contents() == []
      ensures node != NULL ==> node in mem && Nearest(d, Contents(), mem[node].key)
    {
      ghost var owned := mem.Keys - {NULL};
      NodeCell(mem, root, Top, tree, owned);
      ExtremeIs(tree);
      node := NULL;
      if root != NULL {
        ghost var c, u;
        node, c, u := FarEnd(d, root, Top, tree, owned);
      }
    }

    /** The key on side `d` of a missing key: that of the last node met or of its
        neighbour. */
    method Nearby(d: Side, y: Addr, key: int, ghost ctx: Context, ghost t: Tree, ghost owned: set<Addr>)
      returns (node: Addr)
      requires Sees(ctx, t, owned) && t.Leaf? && ctx.Under? && y == ctx.addr
      requires AllBelow(Before(ctx), key) && AllAbove(After(ctx), key)
      ensures var s := if d == Right then After(ctx) else Before(ctx);
        (node == NULL <==> s == []) && (node != NULL ==> node in mem && Nearest(d, s, mem[node].key))
    {
      ParentCell(mem, root, ctx, t, owned);
      PlantingSide(ctx, key);
      ContextBeyond(d, ctx);
      if (if d == Right then key > mem[y].key else key < mem[y].key) {
        ghost var c, u;
        SeenParent(mem, root, ctx, t, owned);
        BeyondClimbed(d, ctx.outer, Parent(ctx, t));
        node, c, u := Neighbour(d, y, ctx.outer, Parent(ctx, t), owned);
      } else {
        node := y;
      }
    }
  }
}
