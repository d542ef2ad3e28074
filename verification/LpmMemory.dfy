/** How the prefix trie lies in memory, and why a prefix has only one way down to it. */
module LpmMemory {

  type Addr = nat

  const NULL: Addr := 0

  /** The root of the trie, which is part of the tree itself. */
  const HEAD: Addr := 1

  const WIDTH: nat := 128

  /** An address or the full width of a prefix, most significant bit first. */
  type Bits = seq<bool>

  /** What a node carries: nothing if it only branches. */
  datatype Load = Virtual | Entry(data: nat)

  datatype Node = Node(prefix: Bits, plen: nat, data: Load, parent: Addr, zero: Addr, one: Addr)

  type Memory = map<Addr, Node>

  function Child(n: Node, bit: bool): Addr {
    if bit then n.one else n.zero
  }

  function SetChild(n: Node, bit: bool, c: Addr): Node {
    if bit then n.(one := c) else n.(zero := c)
  }

  /** The prefix proper, without the bits beyond its length. */
  function Key(n: Node): Bits {
    if n.plen <= |n.prefix| then n.prefix[..n.plen] else []
  }

  predicate Starts(k: Bits, s: Bits) {
    |k| <= |s| && s[..|k|] == k
  }

  lemma StartsTransitive(k: Bits, l: Bits, s: Bits)
    requires Starts(k, l) && Starts(l, s)
    ensures Starts(k, s)
  {
    assert s[..|k|] == s[..|l|][..|k|];
  }

  lemma StartsBoth(k: Bits, l: Bits, s: Bits)
    requires Starts(k, s) && Starts(l, s) && |k| <= |l|
    ensures Starts(k, l)
  {
    assert l[..|k|] == s[..|l|][..|k|] == s[..|k|];
  }

  ghost predicate NodeOK(n: Node) {
    |n.prefix| == WIDTH && n.plen <= WIDTH
  }

  /** A child's prefix is longer than its parent's, starts with it and goes on with the
      bit of the slot it is in. */
  ghost predicate Hangs(p: Bits, plen: nat, c: Bits, clen: nat, bit: bool) {
    |p| == |c| == WIDTH && plen < clen <= WIDTH && p[..plen] == c[..plen] && c[plen] == bit
  }

  ghost predicate ChildOK(mem: Memory, a: Addr, bit: bool)
    requires a in mem
  {
    var c := Child(mem[a], bit);
    c != NULL ==>
      c in mem && c != HEAD && mem[c].parent == a && Hangs(mem[a].prefix, mem[a].plen, mem[c].prefix, mem[c].plen, bit)
  }

  predicate HasChild(n: Node, c: Addr) {
    n.zero == c || n.one == c
  }

  /** A node is a child of its parent. */
  ghost predicate ParentOK(mem: Memory, a: Addr)
    requires a in mem
  {
    a != HEAD ==> mem[a].parent in mem && HasChild(mem[mem[a].parent], a)
  }

  /** How a node hangs under its parent. */
  lemma ParentFacts(mem: Memory, e: Addr, a: Addr)
    requires Formed(mem, e) && a in mem && a != HEAD
    ensures var p := mem[a].parent;
      && p in mem && mem[p].plen < mem[a].plen <= WIDTH == |mem[a].prefix| == |mem[p].prefix|
      && Starts(Key(mem[p]), Key(mem[a]))
      && Child(mem[p], mem[a].prefix[mem[p].plen]) == a
  {
    var p := mem[a].parent;
    assert ParentOK(mem, a);
    assert a != NULL;
    assert ChildOK(mem, p, false) && ChildOK(mem, p, true);
    if mem[p].zero == a {
      HangsStarts(mem[p], mem[a], false);
    } else {
      HangsStarts(mem[p], mem[a], true);
    }
  }

  lemma ChildFacts(mem: Memory, e: Addr, a: Addr, bit: bool)
    requires Formed(mem, e) && a in mem && Child(mem[a], bit) != NULL
    ensures var c := Child(mem[a], bit);
      && c in mem && c != HEAD && c != a && mem[c].parent == a
      && mem[a].plen < mem[c].plen <= WIDTH == |mem[c].prefix| == |mem[a].prefix|
      && Starts(Key(mem[a]), Key(mem[c])) && mem[c].prefix[mem[a].plen] == bit
  {
    assert ChildOK(mem, a, bit);
    HangsStarts(mem[a], mem[Child(mem[a], bit)], bit);
  }

  lemma HangsStarts(p: Node, c: Node, bit: bool)
    requires Hangs(p.prefix, p.plen, c.prefix, c.plen, bit)
    ensures Starts(Key(p), Key(c))
  {
    assert Key(c)[..p.plen] == c.prefix[..p.plen];
  }

  ghost predicate LoadOK(n: Node) {
    n.data == Virtual ==> n.zero != NULL && n.one != NULL
  }

  /** Memory holds one trie; only the node `exempt` may be virtual and lack children.
      (Comparing with `true` keeps the verifier from splitting the conjunction at every use.) */
  ghost predicate Formed(mem: Memory, exempt: Addr) {
    FormedParts(mem, exempt) == true
  }

  ghost predicate FormedParts(mem: Memory, exempt: Addr) {
    && HEAD in mem && NULL !in mem && mem[HEAD].plen == 0 && mem[HEAD].data != Virtual
    && (forall a :: a in mem ==> NodeOK(mem[a]))
    && (forall a, bit :: a in mem ==> ChildOK(mem, a, bit))
    && (forall a :: a in mem ==> ParentOK(mem, a))
    && (forall a :: a in mem && a != exempt ==> LoadOK(mem[a]))
  }

  ghost predicate WellFormed(mem: Memory) {
    Formed(mem, NULL)
  }

  /* ---- Descent ---- */

  /** `a` lies below `b`, or is `b`. */
  ghost predicate Below(mem: Memory, e: Addr, a: Addr, b: Addr)
    requires Formed(mem, e) && a in mem
    decreases mem[a].plen
  {
    a == b || (a != HEAD && (ParentFacts(mem, e, a); Below(mem, e, mem[a].parent, b)))
  }

  lemma {:induction false} BelowKeys(mem: Memory, e: Addr, a: Addr, b: Addr)
    requires Formed(mem, e) && a in mem && Below(mem, e, a, b)
    ensures b in mem && Starts(Key(mem[b]), Key(mem[a])) && (a == b || mem[b].plen < mem[a].plen)
    decreases mem[a].plen
  {
    if a != b {
      var p := mem[a].parent;
      ParentFacts(mem, e, a);
      BelowKeys(mem, e, p, b);
      StartsTransitive(Key(mem[b]), Key(mem[p]), Key(mem[a]));
    }
  }

  lemma {:induction false} BelowHead(mem: Memory, e: Addr, a: Addr)
    requires Formed(mem, e) && a in mem
    ensures Below(mem, e, a, HEAD)
    decreases mem[a].plen
  {
    if a != HEAD {
      ParentFacts(mem, e, a);
      BelowHead(mem, e, mem[a].parent);
    }
  }

  /** What lies strictly below a node lies below the child in the slot of its next bit. */
  lemma {:induction false} BelowChild(mem: Memory, e: Addr, a: Addr, b: Addr)
    requires Formed(mem, e) && a in mem && Below(mem, e, a, b) && a != b
    ensures b in mem && mem[b].plen < mem[a].plen && Starts(Key(mem[b]), Key(mem[a]))
    ensures var c := Child(mem[b], mem[a].prefix[mem[b].plen]); c != NULL && c in mem && Below(mem, e, a, c)
    decreases mem[a].plen
  {
    BelowKeys(mem, e, a, b);
    var p := mem[a].parent;
    ParentFacts(mem, e, a);
    if p != b {
      BelowChild(mem, e, p, b);
      BelowKeys(mem, e, p, b);
      assert mem[a].prefix[mem[b].plen] == Key(mem[a])[mem[b].plen] == Key(mem[p])[mem[b].plen];
      var c := Child(mem[b], mem[a].prefix[mem[b].plen]);
      assert Below(mem, e, p, c);
      BelowStep(mem, e, a, c);
    }
  }

  lemma BelowStep(mem: Memory, e: Addr, a: Addr, c: Addr)
    requires Formed(mem, e) && a in mem && a != HEAD && mem[a].parent in mem && Below(mem, e, mem[a].parent, c)
    ensures Below(mem, e, a, c)
  {
  }

  /** The nodes whose keys start with a node's key are the nodes below it. */
  lemma {:induction false} StartsBelow(mem: Memory, e: Addr, a: Addr, b: Addr)
    requires Formed(mem, e) && a in mem && b in mem && Starts(Key(mem[b]), Key(mem[a]))
    ensures Below(mem, e, a, b)
    decreases mem[a].plen + mem[b].plen, mem[a].plen
  {
    if a == HEAD {
      HeadOnly(mem, e, b);
    } else {
      var p := mem[a].parent;
      ParentFacts(mem, e, a);
      if mem[b].plen <= mem[p].plen {
        StartsBoth(Key(mem[b]), Key(mem[p]), Key(mem[a]));
        StartsBelow(mem, e, p, b);
      } else {
        StartsBoth(Key(mem[p]), Key(mem[b]), Key(mem[a]));
        StartsBelow(mem, e, b, p);
        BelowChild(mem, e, b, p);
        assert mem[a].prefix[mem[p].plen] == Key(mem[a])[mem[p].plen] == Key(mem[b])[mem[p].plen];
        BelowKeys(mem, e, b, a);
      }
    }
  }

  lemma HeadOnly(mem: Memory, e: Addr, b: Addr)
    requires Formed(mem, e) && b in mem && mem[b].plen == 0
    ensures b == HEAD
  {
    if b != HEAD {
      ParentFacts(mem, e, b);
    }
  }

  lemma OneNodeEach(mem: Memory, e: Addr, a: Addr, b: Addr)
    requires Formed(mem, e) && a in mem && b in mem && Key(mem[a]) == Key(mem[b])
    ensures a == b
  {
    StartsBelow(mem, e, a, b);
    BelowKeys(mem, e, a, b);
  }

  /** Between a node and its child there is nothing. */
  lemma NothingBetween(mem: Memory, e: Addr, a: Addr, c: Addr, n: Addr)
    requires Formed(mem, e) && a in mem && c in mem && n in mem && c != HEAD && mem[c].parent == a
    requires Starts(Key(mem[n]), Key(mem[c])) && mem[a].plen < mem[n].plen
    ensures n == c
  {
    StartsBelow(mem, e, c, n);
    if c != n {
      BelowKeys(mem, e, a, n);
    }
  }

  /** If a node that matches lies strictly below `a`, one of the children of `a` matches. */
  lemma SomeChildMatches(mem: Memory, e: Addr, a: Addr, n: Addr, s: Bits)
    requires Formed(mem, e) && a in mem && n in mem
    requires Starts(Key(mem[a]), s) && Starts(Key(mem[n]), s) && mem[a].plen < mem[n].plen
    ensures var c := Child(mem[a], s[mem[a].plen]);
      c != NULL && c in mem && Starts(Key(mem[c]), s) && mem[c].plen <= mem[n].plen
  {
    StartsBoth(Key(mem[a]), Key(mem[n]), s);
    StartsBelow(mem, e, n, a);
    BelowChild(mem, e, n, a);
    assert mem[n].prefix[mem[a].plen] == Key(mem[n])[mem[a].plen] == s[mem[a].plen];
    var c := Child(mem[a], s[mem[a].plen]);
    BelowKeys(mem, e, n, c);
    StartsTransitive(Key(mem[c]), Key(mem[n]), s);
  }

  /** Below every node there is an entry. */
  lemma {:induction false} EntryBelow(mem: Memory, a: Addr) returns (n: Addr)
    requires WellFormed(mem) && a in mem
    ensures n in mem && mem[n].data != Virtual && Starts(Key(mem[a]), Key(mem[n]))
    decreases WIDTH - mem[a].plen
  {
    assert NodeOK(mem[a]) && LoadOK(mem[a]);
    if mem[a].data != Virtual {
      n := a;
    } else {
      ChildFacts(mem, NULL, a, false);
      n := EntryBelow(mem, mem[a].zero);
      StartsTransitive(Key(mem[a]), Key(mem[mem[a].zero]), Key(mem[n]));
    }
  }
}
