/** What a prefix trie stands for: a table of prefixes, searched by longest match. */
module LpmStore {
  import opened Wrappers
  import opened LpmMemory

  type Store = map<Bits, nat>

  ghost predicate HasEntry(mem: Memory, k: Bits) {
    exists a :: a in mem && mem[a].data.Entry? && Key(mem[a]) == k
  }

  /** The entries in memory are those of the table. */
  ghost predicate Represents(mem: Memory, store: Store) {
    RepresentsParts(mem, store) == true
  }

  ghost predicate RepresentsParts(mem: Memory, store: Store) {
    && (forall a :: a in mem && mem[a].data.Entry? ==> Key(mem[a]) in store && store[Key(mem[a])] == mem[a].data.data)
    && (forall k {:trigger HasEntry(mem, k)} :: k in store ==> HasEntry(mem, k))
  }

  /** A linear search: the longest of the first `n` bits of `addr` that is stored. */
  function LongestMatch(store: Store, addr: Bits, n: nat): Option<nat>
    requires n <= |addr|
  {
    if addr[..n] in store then Some(store[addr[..n]])
    else if n == 0 then None
    else LongestMatch(store, addr, n - 1)
  }

  lemma {:induction false} LongestIs(store: Store, addr: Bits, n: nat, m: nat)
    requires m <= n <= |addr| && addr[..m] in store
    requires forall j :: m < j <= n ==> addr[..j] !in store
    ensures LongestMatch(store, addr, n) == Some(store[addr[..m]])
    decreases n
  {
    if m < n {
      LongestIs(store, addr, n - 1, m);
    }
  }

  /** What the search finds is a stored prefix of the address, and none longer is stored. */
  lemma {:induction false} LongestHas(store: Store, addr: Bits, n: nat) returns (m: nat)
    requires n <= |addr| && LongestMatch(store, addr, n).Some?
    ensures m <= n && addr[..m] in store && store[addr[..m]] == LongestMatch(store, addr, n).value
    ensures forall j :: m < j <= n ==> addr[..j] !in store
    decreases n
  {
    m := n;
    if addr[..n] !in store {
      m := LongestHas(store, addr, n - 1);
    }
  }

  /** A longer prefix that starts with `k`. */
  predicate Extends(l: Bits, k: Bits) {
    |l| > |k| && Starts(k, l)
  }

  /** Entering a prefix under stored longer ones is safe if the bit after its end, which
      is not part of it, happens to be that of one of them, or if it is stored already. */
  ghost predicate Safe(store: Store, prefix: Bits, plen: nat)
    requires plen <= |prefix|
  {
    var k := prefix[..plen];
    || k in store
    || (forall l :: l in store ==> !Extends(l, k))
    || (exists l :: l in store && Extends(l, k) && |l| <= |prefix| && l[plen] == prefix[plen])
  }

  /* ---- Changes of memory ---- */

  /** No node has got another prefix. */
  ghost predicate SameBits(mem: Memory, mem': Memory) {
    forall x :: x in mem ==> x in mem' && mem'[x].prefix == mem[x].prefix && mem'[x].plen == mem[x].plen
  }

  lemma ChildKept(mem: Memory, mem': Memory, a: Addr, bit: bool)
    requires SameBits(mem, mem') && a in mem && ChildOK(mem, a, bit) && Child(mem'[a], bit) == Child(mem[a], bit)
    requires Child(mem[a], bit) != NULL ==> Child(mem[a], bit) in mem' && mem'[Child(mem[a], bit)].parent == a
    ensures ChildOK(mem', a, bit)
  {
  }

  lemma ParentKept(mem: Memory, mem': Memory, a: Addr)
    requires SameBits(mem, mem') && a in mem && ParentOK(mem, a) && mem'[a].parent == mem[a].parent
    requires a != HEAD && mem[a].parent in mem' ==> HasChild(mem'[mem[a].parent], a)
    ensures ParentOK(mem', a)
  {
  }

  /** A new node without children in an empty slot. */
  function HangLeaf(mem: Memory, save: Addr, bit: bool, z: Addr, n: Node): Memory
    requires save in mem
  {
    mem[z := n][save := SetChild(mem[save], bit, z)]
  }

  lemma LeafFormed(mem: Memory, e: Addr, save: Addr, bit: bool, z: Addr, n: Node)
    requires Formed(mem, e) && save in mem && z !in mem && z != NULL && Child(mem[save], bit) == NULL
    requires n.parent == save && n.zero == NULL && n.one == NULL && n.data.Entry?
    requires Hangs(mem[save].prefix, mem[save].plen, n.prefix, n.plen, bit)
    requires (e == NULL || e == save) && LoadOK(SetChild(mem[save], bit, z))
    ensures WellFormed(HangLeaf(mem, save, bit, z, n))
  {
    var mem' := HangLeaf(mem, save, bit, z, n);
    LeafChildren(mem, e, save, bit, z, n);
    LeafParents(mem, e, save, bit, z, n);
    forall a | a in mem' ensures NodeOK(mem'[a]) && LoadOK(mem'[a]) {
      assert a != z ==> NodeOK(mem[a]);
      assert a != z && a != save ==> LoadOK(mem[a]);
    }
  }

  lemma LeafChildren(mem: Memory, e: Addr, save: Addr, bit: bool, z: Addr, n: Node)
    requires Formed(mem, e) && save in mem && z !in mem && z != NULL && Child(mem[save], bit) == NULL
    requires n.parent == save && n.zero == NULL && n.one == NULL
    requires Hangs(mem[save].prefix, mem[save].plen, n.prefix, n.plen, bit)
    ensures forall a, b :: a in HangLeaf(mem, save, bit, z, n) ==> ChildOK(HangLeaf(mem, save, bit, z, n), a, b)
  {
    var mem' := HangLeaf(mem, save, bit, z, n);
    forall a, b | a in mem' ensures ChildOK(mem', a, b) {
      if a != z && !(a == save && b == bit) {
        assert ChildOK(mem, a, b);
        ChildKept(mem, mem', a, b);
      }
    }
  }

  lemma LeafParents(mem: Memory, e: Addr, save: Addr, bit: bool, z: Addr, n: Node)
    requires Formed(mem, e) && save in mem && z !in mem && Child(mem[save], bit) == NULL && n.parent == save
    ensures forall a :: a in HangLeaf(mem, save, bit, z, n) ==> ParentOK(HangLeaf(mem, save, bit, z, n), a)
  {
    var mem' := HangLeaf(mem, save, bit, z, n);
    forall a | a in mem' ensures ParentOK(mem', a) {
      if a != z {
        assert a != NULL && ParentOK(mem, a);
        SlotKept(mem[save], bit, z, a);
        ParentKept(mem, mem', a);
      }
    }
  }

  /** The child of `save` is pushed down under the new node `z`, into slot `b2`. */
  function PushDown(mem: Memory, save: Addr, bit: bool, z: Addr, n: Node, b2: bool): Memory
    requires save in mem && Child(mem[save], bit) in mem
  {
    var c := Child(mem[save], bit);
    mem[z := SetChild(n, b2, c)][c := mem[c].(parent := z)][save := SetChild(mem[save], bit, z)]
  }

  ghost predicate CanPush(mem: Memory, save: Addr, bit: bool, z: Addr, n: Node) {
    && WellFormed(mem) && save in mem && z !in mem && z != NULL && Child(mem[save], bit) != NULL
    && Child(mem[save], bit) in mem
    && n.parent == save && n.zero == NULL && n.one == NULL
    && Hangs(mem[save].prefix, mem[save].plen, n.prefix, n.plen, bit)
  }

  lemma PushedDownFormed(mem: Memory, save: Addr, bit: bool, z: Addr, n: Node, b2: bool)
    requires CanPush(mem, save, bit, z, n)
    requires var c := mem[Child(mem[save], bit)];
      n.plen < c.plen && |c.prefix| == WIDTH && c.prefix[..n.plen] == n.prefix[..n.plen]
    ensures Formed(PushDown(mem, save, bit, z, n, b2), z) <==> mem[Child(mem[save], bit)].prefix[n.plen] == b2
    ensures SameBits(mem, PushDown(mem, save, bit, z, n, b2))
  {
    var c, mem' := Child(mem[save], bit), PushDown(mem, save, bit, z, n, b2);
    ChildFacts(mem, NULL, save, bit);
    assert SameBits(mem, mem');
    if Formed(mem', z) {
      PushedDownSlot(mem, save, bit, z, n, b2);
    }
    if mem[c].prefix[n.plen] == b2 {
      PushedDownChildren(mem, save, bit, z, n, b2);
      PushedDownParents(mem, save, bit, z, n, b2);
      PushedDownNodes(mem, save, bit, z, n, b2);
    }
  }

  lemma PushedDownSlot(mem: Memory, save: Addr, bit: bool, z: Addr, n: Node, b2: bool)
    requires CanPush(mem, save, bit, z, n) && Formed(PushDown(mem, save, bit, z, n, b2), z)
    requires var c := mem[Child(mem[save], bit)]; n.plen < c.plen && |c.prefix| == WIDTH
    ensures mem[Child(mem[save], bit)].prefix[n.plen] == b2
  {
    ChildFacts(mem, NULL, save, bit);
    assert ChildOK(PushDown(mem, save, bit, z, n, b2), z, b2);
  }

  lemma PushedDownNodes(mem: Memory, save: Addr, bit: bool, z: Addr, n: Node, b2: bool)
    requires CanPush(mem, save, bit, z, n)
    requires var c := mem[Child(mem[save], bit)]; n.plen < c.plen && |c.prefix| == WIDTH
    ensures var mem' := PushDown(mem, save, bit, z, n, b2);
      && HEAD in mem' && NULL !in mem' && mem'[HEAD].plen == 0 && mem'[HEAD].data != Virtual
      && forall a :: a in mem' ==> NodeOK(mem'[a]) && (a != z ==> LoadOK(mem'[a]))
  {
    var mem' := PushDown(mem, save, bit, z, n, b2);
    ChildFacts(mem, NULL, save, bit);
    forall a | a in mem' ensures NodeOK(mem'[a]) && (a != z ==> LoadOK(mem'[a])) {
      assert a != z ==> NodeOK(mem[a]) && LoadOK(mem[a]);
    }
  }

  lemma PushedDownChildren(mem: Memory, save: Addr, bit: bool, z: Addr, n: Node, b2: bool)
    requires CanPush(mem, save, bit, z, n)
    requires var c := mem[Child(mem[save], bit)]; Hangs(n.prefix, n.plen, c.prefix, c.plen, b2)
    ensures forall a, b :: a in PushDown(mem, save, bit, z, n, b2) ==> ChildOK(PushDown(mem, save, bit, z, n, b2), a, b)
  {
    var c, mem' := Child(mem[save], bit), PushDown(mem, save, bit, z, n, b2);
    ChildFacts(mem, NULL, save, bit);
    assert SameBits(mem, mem');
    forall a, b | a in mem' ensures ChildOK(mem', a, b) {
      if a == z {
        assert b == b2 || b == !b2;
      } else if !(a == save && b == bit) {
        OnlyChild(mem, save, bit, a, b);
        assert ChildOK(mem, a, b);
        ChildKept(mem, mem', a, b);
      }
    }
  }

  lemma PushedDownParents(mem: Memory, save: Addr, bit: bool, z: Addr, n: Node, b2: bool)
    requires CanPush(mem, save, bit, z, n)
    ensures forall a :: a in PushDown(mem, save, bit, z, n, b2) ==> ParentOK(PushDown(mem, save, bit, z, n, b2), a)
  {
    var c, mem' := Child(mem[save], bit), PushDown(mem, save, bit, z, n, b2);
    ChildFacts(mem, NULL, save, bit);
    assert SameBits(mem, mem');
    forall a | a in mem' ensures ParentOK(mem', a) {
      if a != z && a != c {
        assert a != NULL && ParentOK(mem, a);
        SlotKept(mem[save], bit, z, a);
        ParentKept(mem, mem', a);
      }
    }
  }

  lemma SlotKept(n: Node, bit: bool, z: Addr, a: Addr)
    requires Child(n, bit) != a
    ensures HasChild(n, a) ==> HasChild(SetChild(n, bit, z), a)
  {
  }

  /** A node is in one slot only. */
  lemma OnlyChild(mem: Memory, p: Addr, bit: bool, a: Addr, b: bool)
    requires Formed(mem, NULL) && p in mem && a in mem && Child(mem[p], bit) != NULL
    ensures Child(mem[a], b) == Child(mem[p], bit) ==> a == p && b == bit
  {
    ChildFacts(mem, NULL, p, bit);
    if Child(mem[a], b) == Child(mem[p], bit) {
      ChildFacts(mem, NULL, a, b);
    }
  }

  /** Only the entry of `z` is new; no other node has its prefix. */
  lemma EntrySet(mem: Memory, mem': Memory, store: Store, z: Addr)
    requires Represents(mem, store) && z in mem' && mem'[z].data.Entry?
    requires forall a :: a in mem' && a != z && mem'[a].data.Entry? ==>
      a in mem && mem[a].data == mem'[a].data && Key(mem[a]) == Key(mem'[a]) && Key(mem'[a]) != Key(mem'[z])
    requires forall a :: a in mem && mem[a].data.Entry? && Key(mem[a]) != Key(mem'[z]) ==>
      a in mem' && mem'[a].data == mem[a].data && Key(mem[a]) == Key(mem'[a])
    ensures Represents(mem', store[Key(mem'[z]) := mem'[z].data.data])
  {
    var store' := store[Key(mem'[z]) := mem'[z].data.data];
    forall k | k in store' ensures HasEntry(mem', k) {
      if k != Key(mem'[z]) {
        assert HasEntry(mem, k);
      var a :| a in mem && mem[a].data.Entry? && Key(mem[a]) == k;
        assert Key(mem'[a]) == k;
      }
    }
  }

  /* ---- Changes after a deletion ---- */

  /** The entry of `node` goes; the node stays for now. */
  lemma EntryCleared(mem: Memory, store: Store, node: Addr)
    requires WellFormed(mem) && Represents(mem, store) && node in mem && node != HEAD && mem[node].data.Entry?
    ensures var mem' := mem[node := mem[node].(data := Virtual)];
      Formed(mem', node) && Represents(mem', store - {Key(mem[node])})
  {
    var mem' := mem[node := mem[node].(data := Virtual)];
    forall a, b | a in mem' ensures ChildOK(mem', a, b) {
      ChildKept(mem, mem', a, b);
    }
    forall a | a in mem' ensures ParentOK(mem', a) {
      ParentKept(mem, mem', a);
    }
    ClearedEntries(mem, mem', store, node);
  }

  lemma ClearedEntries(mem: Memory, mem': Memory, store: Store, node: Addr)
    requires WellFormed(mem) && Represents(mem, store) && node in mem && mem[node].data.Entry?
    requires mem' == mem[node := mem[node].(data := Virtual)]
    ensures Represents(mem', store - {Key(mem[node])})
  {
    forall a | a in mem' && mem'[a].data.Entry? ensures Key(mem'[a]) != Key(mem[node]) {
      if Key(mem[a]) == Key(mem[node]) {
        OneNodeEach(mem, NULL, a, node);
      }
    }
    forall k | k in store - {Key(mem[node])} ensures HasEntry(mem', k) {
      assert HasEntry(mem, k);
      var a :| a in mem && mem[a].data.Entry? && Key(mem[a]) == k;
      assert Key(mem'[a]) == k;
    }
  }

  /** A node without children is cut off from its parent. */
  ghost predicate CutOff(mem: Memory, mem': Memory, node: Addr) {
    && node in mem && mem[node].parent in mem && mem[node].parent != node && node != HEAD
    && var p := mem[node].parent;
    && mem'.Keys == mem.Keys - {node}
    && mem'[p] == (if mem[p].zero == node then mem[p].(zero := NULL) else mem[p].(one := NULL))
    && forall a :: a in mem && a != node && a != p ==> mem'[a] == mem[a]
  }

  lemma CutOffFormed(mem: Memory, mem': Memory, node: Addr, store: Store)
    requires Formed(mem, node) && Represents(mem, store) && CutOff(mem, mem', node)
    requires mem[node].zero == NULL && mem[node].one == NULL && mem[node].data == Virtual
    ensures Formed(mem', mem[node].parent) && Represents(mem', store)
  {
    var p := mem[node].parent;
    ParentFacts(mem, node, node);
    CutOffLinks(mem, mem', node);
    EntriesMoved(mem, mem', store, HEAD, HEAD);
    forall a | a in mem' ensures NodeOK(mem'[a]) && (a != p ==> LoadOK(mem'[a])) {
      assert NodeOK(mem[a]) && LoadOK(mem[a]);
    }
  }

  lemma CutOffLinks(mem: Memory, mem': Memory, node: Addr)
    requires Formed(mem, node) && CutOff(mem, mem', node) && mem[node].zero == NULL && mem[node].one == NULL
    ensures forall a, b :: a in mem' ==> ChildOK(mem', a, b)
    ensures forall a :: a in mem' ==> ParentOK(mem', a)
  {
    var p := mem[node].parent;
    ParentFacts(mem, node, node);
    assert ChildOK(mem, p, false) && ChildOK(mem, p, true);
    forall a, b | a in mem' ensures ChildOK(mem', a, b) {
      assert ChildOK(mem, a, b);
    }
    forall a | a in mem' ensures ParentOK(mem', a) {
      assert a != NULL && ParentOK(mem, a);
      assert mem[a].parent != node || a == HEAD;
    }
  }

  /** The entries are the same, but that of `c` is now at `node`. */
  lemma EntriesMoved(mem: Memory, mem': Memory, store: Store, c: Addr, node: Addr)
    requires Represents(mem, store)
    requires forall a :: a in mem' && mem'[a].data.Entry? ==>
      var o := if a == node then c else a; o in mem && mem[o].data == mem'[a].data && Key(mem[o]) == Key(mem'[a])
    requires forall a :: a in mem && mem[a].data.Entry? ==>
      var o := if a == c then node else a; o in mem' && mem'[o].data == mem[a].data && Key(mem'[o]) == Key(mem[a])
    ensures Represents(mem', store)
  {
    forall k | k in store ensures HasEntry(mem', k) {
      assert HasEntry(mem, k);
      var a :| a in mem && mem[a].data.Entry? && Key(mem[a]) == k;
      assert Key(mem'[if a == c then node else a]) == k;
    }
  }

  /** A node takes over everything of its only child. */
  ghost predicate Merged(mem: Memory, mem': Memory, node: Addr, c: Addr) {
    && node in mem && c in mem && c != node
    && mem'.Keys == mem.Keys - {c} && mem'[node] == mem[c].(parent := mem[node].parent)
    && forall a :: a in mem' && a != node ==>
         mem'[a] == if a == mem[c].zero || a == mem[c].one then mem[a].(parent := node) else mem[a]
  }

  lemma MergedFormed(mem: Memory, mem': Memory, node: Addr, bit: bool, store: Store)
    requires Formed(mem, node) && Represents(mem, store) && node in mem && node != HEAD && mem[node].data == Virtual
    requires Child(mem[node], bit) != NULL && Child(mem[node], !bit) == NULL
    requires Merged(mem, mem', node, Child(mem[node], bit))
    ensures WellFormed(mem') && Represents(mem', store)
  {
    MergedChildren(mem, mem', node, bit);
    MergedParents(mem, mem', node, bit);
    MergedEntries(mem, mem', node, bit, store);
    var c := Child(mem[node], bit);
    ChildFacts(mem, node, node, bit);
    forall a | a in mem' ensures NodeOK(mem'[a]) && LoadOK(mem'[a]) {
      assert NodeOK(mem[a]) && NodeOK(mem[c]) && LoadOK(mem[c]);
      assert a != node ==> LoadOK(mem[a]);
    }
  }

  lemma MergedChildren(mem: Memory, mem': Memory, node: Addr, bit: bool)
    requires Formed(mem, node) && node in mem && node != HEAD
    requires Child(mem[node], bit) != NULL && Child(mem[node], !bit) == NULL
    requires Merged(mem, mem', node, Child(mem[node], bit))
    ensures forall a, b :: a in mem' ==> ChildOK(mem', a, b)
  {
    forall a, b | a in mem' ensures ChildOK(mem', a, b) {
      if a == node {
        MergedChild(mem, mem', node, bit, b);
      } else {
        MergedOther(mem, mem', node, bit, a, b);
      }
    }
  }

  lemma ChildOKAt(mem: Memory, e: Addr, a: Addr, b: bool)
    requires Formed(mem, e) && a in mem
    ensures ChildOK(mem, a, b)
  {
  }

  lemma MergedOther(mem: Memory, mem': Memory, node: Addr, bit: bool, a: Addr, b: bool)
    requires Formed(mem, node) && node in mem && Child(mem[node], bit) != NULL
    requires Merged(mem, mem', node, Child(mem[node], bit))
    requires a in mem' && a != node
    ensures ChildOK(mem', a, b)
  {
    var c, x := Child(mem[node], bit), Child(mem[a], b);
    hide Formed;
    ChildOKAt(mem, node, node, bit);
    ChildOKAt(mem, node, c, false);
    ChildOKAt(mem, node, c, true);
    ChildOKAt(mem, node, a, b);
    if x == node {
      HangsThrough(mem[a], mem[node], mem[c], b, bit);
    }
  }

  lemma MergedChild(mem: Memory, mem': Memory, node: Addr, bit: bool, b: bool)
    requires Formed(mem, node) && node in mem && node != HEAD
    requires Child(mem[node], bit) != NULL && Merged(mem, mem', node, Child(mem[node], bit))
    ensures ChildOK(mem', node, b)
  {
    var c := Child(mem[node], bit);
    ChildFacts(mem, node, node, bit);
    if Child(mem[c], b) != NULL {
      ChildFacts(mem, node, c, b);
      assert ChildOK(mem, c, b);
    }
  }

  lemma HangsThrough(p: Node, n: Node, c: Node, b: bool, bit: bool)
    requires Hangs(p.prefix, p.plen, n.prefix, n.plen, b) && Hangs(n.prefix, n.plen, c.prefix, c.plen, bit)
    ensures Hangs(p.prefix, p.plen, c.prefix, c.plen, b)
  {
    assert c.prefix[..p.plen] == c.prefix[..n.plen][..p.plen] == n.prefix[..n.plen][..p.plen] == n.prefix[..p.plen];
    assert c.prefix[p.plen] == c.prefix[..n.plen][p.plen] == n.prefix[..n.plen][p.plen];
  }

  lemma MergedParents(mem: Memory, mem': Memory, node: Addr, bit: bool)
    requires Formed(mem, node) && node in mem && node != HEAD
    requires Child(mem[node], bit) != NULL && Child(mem[node], !bit) == NULL
    requires Merged(mem, mem', node, Child(mem[node], bit))
    ensures forall a :: a in mem' ==> ParentOK(mem', a)
  {
    var c := Child(mem[node], bit);
    ChildFacts(mem, node, node, bit);
    ParentFacts(mem, node, node);
    assert ChildOK(mem, c, false) && ChildOK(mem, c, true);
    forall a | a in mem' ensures ParentOK(mem', a) {
      assert a != NULL && ParentOK(mem, a);
    }
  }

  lemma MergedEntries(mem: Memory, mem': Memory, node: Addr, bit: bool, store: Store)
    requires Formed(mem, node) && Represents(mem, store) && node in mem && mem[node].data == Virtual
    requires Child(mem[node], bit) != NULL && Merged(mem, mem', node, Child(mem[node], bit))
    ensures Represents(mem', store)
  {
    EntriesMoved(mem, mem', store, Child(mem[node], bit), node);
  }
}
