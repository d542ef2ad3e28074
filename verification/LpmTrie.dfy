/** The longest-prefix-match tree, changed in place. */
module LpmTrie {
  import opened Wrappers
  import opened LpmMemory
  import opened LpmStore

  /** Does a node's prefix match an address, from bit `from` on? */
  predicate MatchNode(n: Node, addr: Bits, from: nat)
    requires n.plen <= |n.prefix| == |addr| == WIDTH && from <= n.plen
  {
    n.plen == 0 || n.prefix[from..n.plen] == addr[from..n.plen]
  }

  lemma MatchIs(n: Node, addr: Bits, from: nat)
    requires n.plen <= |n.prefix| == |addr| == WIDTH && from <= n.plen && n.prefix[..from] == addr[..from]
    ensures MatchNode(n, addr, from) <==> Starts(Key(n), addr)
  {
    assert n.prefix[..n.plen] == n.prefix[..from] + n.prefix[from..n.plen];
    assert addr[..n.plen] == addr[..from] + addr[from..n.plen];
    if Starts(Key(n), addr) {
      assert n.prefix[from..n.plen] == n.prefix[..n.plen][from..];
      assert addr[from..n.plen] == addr[..n.plen][from..];
    }
  }

  lemma ChildMatch(mem: Memory, e: Addr, a: Addr, bit: bool, addr: Bits)
    requires Formed(mem, e) && a in mem && Child(mem[a], bit) != NULL && |addr| == WIDTH && Starts(Key(mem[a]), addr)
    ensures var c := Child(mem[a], bit);
      && c in mem && mem[a].plen < mem[c].plen <= WIDTH == |mem[c].prefix|
      && (MatchNode(mem[c], addr, mem[a].plen) <==> Starts(Key(mem[c]), addr))
      && (Starts(Key(mem[c]), addr) ==> addr[mem[a].plen] == bit)
  {
    var c := Child(mem[a], bit);
    ChildFacts(mem, e, a, bit);
    assert mem[c].prefix[..mem[a].plen] == Key(mem[c])[..mem[a].plen] == Key(mem[a]);
    assert addr[..mem[a].plen] == Key(mem[a]);
    MatchIs(mem[c], addr, mem[a].plen);
    if Starts(Key(mem[c]), addr) {
      assert addr[mem[a].plen] == Key(mem[c])[mem[a].plen];
    }
  }

  /** No entry that matches is longer than `last`, up to the length reached. */
  ghost predicate BestSoFar(mem: Memory, addr: Bits, last: Addr, reach: nat) {
    && last in mem && mem[last].data.Entry? && Starts(Key(mem[last]), addr)
    && forall n :: n in mem && mem[n].data.Entry? && Starts(Key(mem[n]), addr) && mem[n].plen <= reach ==>
         mem[n].plen <= mem[last].plen
  }

  /** Stepping to a matching child passes no other node that matches. */
  lemma NextReach(mem: Memory, a: Addr, c: Addr, n: Addr, addr: Bits)
    requires WellFormed(mem) && a in mem && c in mem && n in mem && c != HEAD && mem[c].parent == a
    requires Starts(Key(mem[c]), addr) && Starts(Key(mem[n]), addr) && mem[a].plen < mem[n].plen <= mem[c].plen
    ensures n == c
  {
    StartsBoth(Key(mem[n]), Key(mem[c]), addr);
    NothingBetween(mem, NULL, a, c, n);
  }

  lemma ReachOn(mem: Memory, addr: Bits, last: Addr, a: Addr, c: Addr)
    requires WellFormed(mem) && a in mem && c in mem && c != HEAD && mem[c].parent == a && Starts(Key(mem[c]), addr)
    requires BestSoFar(mem, addr, last, mem[a].plen)
    ensures mem[c].data.Entry? ==> BestSoFar(mem, addr, c, mem[c].plen)
    ensures mem[c].data.Virtual? ==> BestSoFar(mem, addr, last, mem[c].plen)
  {
    forall n | n in mem && mem[n].data.Entry? && Starts(Key(mem[n]), addr) && mem[n].plen <= mem[c].plen
      ensures n == c || mem[n].plen <= mem[last].plen
    {
      if mem[n].plen > mem[a].plen {
        NextReach(mem, a, c, n, addr);
      }
    }
  }

  /** Where no child matches, nothing longer matches. */
  lemma ReachEnd(mem: Memory, addr: Bits, a: Addr)
    requires WellFormed(mem) && a in mem && |addr| == WIDTH && Starts(Key(mem[a]), addr)
    requires forall bit :: Child(mem[a], bit) != NULL && Child(mem[a], bit) in mem ==>
      !Starts(Key(mem[Child(mem[a], bit)]), addr)
    ensures forall n :: n in mem && Starts(Key(mem[n]), addr) ==> mem[n].plen <= mem[a].plen
  {
    forall n | n in mem && Starts(Key(mem[n]), addr) ensures mem[n].plen <= mem[a].plen {
      if mem[n].plen > mem[a].plen {
        SomeChildMatches(mem, NULL, a, n, addr);
      }
    }
  }

  lemma BestIsLongest(mem: Memory, store: Store, addr: Bits, last: Addr)
    requires WellFormed(mem) && Represents(mem, store) && |addr| == WIDTH && BestSoFar(mem, addr, last, WIDTH)
    ensures LongestMatch(store, addr, WIDTH) == Some(mem[last].data.data)
  {
    var m := mem[last].plen;
    assert NodeOK(mem[last]) && addr[..m] == Key(mem[last]);
    forall j | m < j <= WIDTH ensures addr[..j] !in store {
      NoneLonger(mem, store, addr, last, j);
    }
    LongestIs(store, addr, WIDTH, m);
  }

  lemma NoneLonger(mem: Memory, store: Store, addr: Bits, last: Addr, j: nat)
    requires WellFormed(mem) && Represents(mem, store) && |addr| == WIDTH && BestSoFar(mem, addr, last, WIDTH)
    requires j <= WIDTH
    ensures addr[..j] in store ==> j <= mem[last].plen
  {
    if addr[..j] in store {
      var n := EntryOf(mem, store, addr[..j]);
      assert Starts(Key(mem[n]), addr);
    }
  }

  lemma EntryOf(mem: Memory, store: Store, k: Bits) returns (n: Addr)
    requires WellFormed(mem) && Represents(mem, store) && k in store
    ensures n in mem && mem[n].data.Entry? && Key(mem[n]) == k && mem[n].plen == |k| <= WIDTH
  {
    assert HasEntry(mem, k);
    n :| n in mem && mem[n].data.Entry? && Key(mem[n]) == k;
    assert NodeOK(mem[n]);
  }

  /** Entering a prefix: where the walk for it ends. */
  ghost predicate Reached(mem: Memory, prefix: Bits, plen: nat, save: Addr)
    requires plen <= |prefix|
  {
    ReachedParts(mem, prefix[..plen], save) == true
  }

  ghost predicate ReachedParts(mem: Memory, k: Bits, save: Addr) {
    && save in mem && mem[save].plen <= |k| && Starts(Key(mem[save]), k)
    && forall n :: n in mem && Starts(Key(mem[n]), k) ==> mem[n].plen <= mem[save].plen
  }

  /** Without a child to go on to, nothing longer starts the prefix. */
  lemma ExactEnd(mem: Memory, k: Bits, a: Addr)
    requires WellFormed(mem) && a in mem && Starts(Key(mem[a]), k)
    requires forall bit :: Child(mem[a], bit) != NULL && Child(mem[a], bit) in mem ==>
      !Starts(Key(mem[Child(mem[a], bit)]), k)
    ensures forall n :: n in mem && Starts(Key(mem[n]), k) ==> mem[n].plen <= mem[a].plen
  {
    forall n | n in mem && Starts(Key(mem[n]), k) ensures mem[n].plen <= mem[a].plen {
      assert NodeOK(mem[n]) && NodeOK(mem[a]);
      if mem[n].plen > mem[a].plen {
        SomeChildMatches(mem, NULL, a, n, k);
      }
    }
  }

  /** A node within the length of a prefix starts it if it matches the full width. */
  lemma ExactStarts(n: Node, prefix: Bits, plen: nat)
    requires n.plen <= plen <= |prefix| == |n.prefix|
    ensures Starts(Key(n), prefix[..plen]) <==> Starts(Key(n), prefix)
  {
    assert prefix[..plen][..n.plen] == prefix[..n.plen];
  }

  /* ---- The walks of the code, on any memory ---- */

  predicate Agrees(n: Node, addr: Bits, from: nat) {
    n.plen <= |n.prefix| == |addr| == WIDTH && from <= n.plen && MatchNode(n, addr, from)
  }

  /** The child a walk goes on to from `cur`, or `cur` itself; children longer than `limit`
      are passed over. */
  function NextNode(mem: Memory, cur: Addr, addr: Bits, limit: nat): Addr
    requires cur in mem
  {
    var n := mem[cur];
    if n.zero in mem && mem[n.zero].plen <= limit && Agrees(mem[n.zero], addr, n.plen) then n.zero
    else if n.one in mem && mem[n.one].plen <= limit && Agrees(mem[n.one], addr, n.plen) then n.one
    else cur
  }

  /** In a well-formed tree the walk goes on as the code tests it. */
  lemma NextIs(mem: Memory, cur: Addr, addr: Bits, limit: nat)
    requires WellFormed(mem) && cur in mem && |addr| == WIDTH
    ensures var n := mem[cur];
      && (n.zero != NULL ==>
           n.zero in mem && n.zero != cur && n.plen < mem[n.zero].plen <= WIDTH == |mem[n.zero].prefix|)
      && (n.one != NULL ==> n.one in mem && n.one != cur && n.plen < mem[n.one].plen <= WIDTH == |mem[n.one].prefix|)
      && NextNode(mem, cur, addr, limit) ==
         if n.zero != NULL && mem[n.zero].plen <= limit && MatchNode(mem[n.zero], addr, n.plen) then n.zero
         else if n.one != NULL && mem[n.one].plen <= limit && MatchNode(mem[n.one], addr, n.plen) then n.one
         else cur
  {
    if mem[cur].zero != NULL {
      ChildFacts(mem, NULL, cur, false);
    }
    if mem[cur].one != NULL {
      ChildFacts(mem, NULL, cur, true);
    }
  }

  /** The nodes a walk down from the head has come to. */
  ghost predicate WalkDown(mem: Memory, path: seq<Addr>, addr: Bits, limit: nat) {
    && |path| >= 1 && path[0] == HEAD && (forall i :: 0 <= i < |path| ==> path[i] in mem)
    && forall i {:trigger path[i]} :: 0 <= i && i + 1 < |path| ==>
         path[i+1] == NextNode(mem, path[i], addr, limit) && path[i+1] != path[i]
  }

  /** The last node of a walk that is no branching node. */
  ghost function LastEntry(mem: Memory, path: seq<Addr>): (last: Addr)
    requires |path| >= 1 && forall i :: 0 <= i < |path| ==> path[i] in mem
    ensures last in mem
  {
    var end := path[|path|-1];
    if |path| == 1 || mem[end].data != Virtual then end else LastEntry(mem, path[..|path|-1])
  }

  lemma WalkOn(mem: Memory, path: seq<Addr>, addr: Bits, limit: nat, next: Addr)
    requires WalkDown(mem, path, addr, limit) && next in mem
    requires next == NextNode(mem, path[|path|-1], addr, limit) && next != path[|path|-1]
    ensures WalkDown(mem, path + [next], addr, limit) && (path + [next])[..|path|] == path
  {
  }

  /** A lookup on its way: it is at `cur`, and `last` is the last entry above. */
  ghost predicate OnTheWay(mem: Memory, path: seq<Addr>, addr: Bits, cur: Addr, last: Addr) {
    && WalkDown(mem, path, addr, WIDTH) && cur == path[|path|-1]
    && last == if |path| == 1 then HEAD else LastEntry(mem, path[..|path|-1])
  }

  lemma LookupStarts(mem: Memory, addr: Bits)
    requires HEAD in mem
    ensures OnTheWay(mem, [HEAD], addr, HEAD, HEAD)
  {
  }

  lemma LookupAt(mem: Memory, path: seq<Addr>, addr: Bits, cur: Addr, last: Addr)
    requires OnTheWay(mem, path, addr, cur, last)
    ensures cur in mem && |path| >= 1 && forall i :: 0 <= i < |path| ==> path[i] in mem
    ensures LastEntry(mem, path) == if mem[cur].data != Virtual then cur else last
  {
  }

  lemma LookupOn(mem: Memory, path: seq<Addr>, addr: Bits, cur: Addr, last: Addr, next: Addr)
    requires WalkDown(mem, path, addr, WIDTH) && cur == path[|path|-1] && last == LastEntry(mem, path)
    requires next in mem && next == NextNode(mem, cur, addr, WIDTH) && next != cur
    ensures OnTheWay(mem, path + [next], addr, next, last)
  {
    WalkOn(mem, path, addr, WIDTH, next);
  }

  /** A lookup has taken this walk. */
  ghost predicate LookedUp(mem: Memory, path: seq<Addr>, addr: Bits) {
    WalkDown(mem, path, addr, WIDTH) && NextNode(mem, path[|path|-1], addr, WIDTH) == path[|path|-1]
  }

  lemma WalkNext(mem: Memory, p: seq<Addr>, addr: Bits, n: nat)
    requires LookedUp(mem, p, addr) && 1 <= n <= |p|
    ensures p[n-1] in mem
    ensures NextNode(mem, p[n-1], addr, WIDTH) == if n < |p| then p[n] else p[n-1]
    ensures n < |p| ==> p[n] != p[n-1]
  {
    assert p[n-1] in mem;
  }

  lemma SnocSame(p: seq<Addr>, q: seq<Addr>, n: nat)
    requires n < |p| && n < |q| && p[..n] == q[..n] && p[n] == q[n]
    ensures p[..n+1] == q[..n+1]
  {
    assert p[..n+1] == p[..n] + [p[n]] && q[..n+1] == q[..n] + [q[n]];
  }

  lemma LastSame(p: seq<Addr>, q: seq<Addr>, n: nat)
    requires 1 <= n <= |p| && n <= |q| && p[..n] == q[..n]
    ensures p[n-1] == q[n-1]
  {
    assert p[..n][n-1] == q[..n][n-1];
  }

  /** The walk of a lookup depends on nothing but the memory and the address. */
  lemma {:induction false} OneWalk(mem: Memory, p: seq<Addr>, q: seq<Addr>, addr: Bits, n: nat)
    requires LookedUp(mem, p, addr) && LookedUp(mem, q, addr) && n <= |p| && n <= |q| && p[..n] == q[..n]
    ensures p == q
    decreases |p| - n
  {
    hide NextNode, WalkDown;
    WalkStart(mem, p, addr);
    WalkStart(mem, q, addr);
    if n == 0 {
      SnocSame(p, q, 0);
      OneWalk(mem, p, q, addr, 1);
    } else {
      LastSame(p, q, n);
      WalkNext(mem, p, addr, n);
      WalkNext(mem, q, addr, n);
      if n < |p| {
        SnocSame(p, q, n);
        OneWalk(mem, p, q, addr, n + 1);
      } else {
        assert p == p[..n] && q == q[..n];
      }
    }
  }

  lemma WalkStart(mem: Memory, p: seq<Addr>, addr: Bits)
    requires LookedUp(mem, p, addr)
    ensures |p| >= 1 && p[0] == HEAD
  {
  }

  ghost predicate Met(mem: Memory, a: Addr, prefix: Bits, plen: nat) {
    a in mem && mem[a].plen == plen && mem[a].data != Virtual && Agrees(mem[a], prefix, 0)
  }

  /** The search for a prefix has taken this walk. */
  ghost predicate Searched(mem: Memory, path: seq<Addr>, prefix: Bits, plen: nat) {
    && WalkDown(mem, path, prefix, plen)
    && (forall i :: 0 <= i < |path| - 1 ==> !Met(mem, path[i], prefix, plen))
    && var end := path[|path|-1]; Met(mem, end, prefix, plen) || NextNode(mem, end, prefix, plen) == end
  }

  ghost predicate OnSearch(mem: Memory, path: seq<Addr>, prefix: Bits, plen: nat, save: Addr) {
    && WalkDown(mem, path, prefix, plen) && save == path[|path|-1]
    && forall i :: 0 <= i < |path| - 1 ==> !Met(mem, path[i], prefix, plen)
  }

  lemma SearchStarts(mem: Memory, prefix: Bits, plen: nat)
    requires HEAD in mem
    ensures OnSearch(mem, [HEAD], prefix, plen, HEAD)
  {
  }

  lemma SearchOn(mem: Memory, path: seq<Addr>, prefix: Bits, plen: nat, save: Addr, next: Addr)
    requires OnSearch(mem, path, prefix, plen, save) && !Met(mem, save, prefix, plen)
    requires next in mem && save in mem && next == NextNode(mem, save, prefix, plen) && next != save
    ensures OnSearch(mem, path + [next], prefix, plen, next)
  {
    WalkOn(mem, path, prefix, plen, next);
  }

  lemma SearchEnds(mem: Memory, path: seq<Addr>, prefix: Bits, plen: nat, save: Addr)
    requires OnSearch(mem, path, prefix, plen, save) && save in mem
    requires Met(mem, save, prefix, plen) || NextNode(mem, save, prefix, plen) == save
    ensures Searched(mem, path, prefix, plen) && |path| >= 1 && save == path[|path|-1]
  {
  }

  lemma MetIs(mem: Memory, a: Addr, prefix: Bits, plen: nat)
    requires a in mem && NodeOK(mem[a]) && |prefix| == WIDTH && plen <= WIDTH
    ensures mem[a].plen <= |mem[a].prefix| == WIDTH
    ensures Met(mem, a, prefix, plen) <==>
      MatchNode(mem[a], prefix, 0) && mem[a].plen == plen && mem[a].data != Virtual
  {
  }

  predicate CommonUpTo(p1: Bits, p2: Bits, limit: nat, i: nat) {
    i <= limit && i <= |p1| && i <= |p2| && p1[..i] == p2[..i] && (i < limit && i < |p1| && i < |p2| ==> p1[i] != p2[i])
  }

  /** What an insertion does to memory once its search has ended at `save`. */
  ghost predicate Planted(mem: Memory, mem': Memory, save: Addr, prefix: Bits, plen: nat, data: nat, z: Addr, v: Addr) {
    && save in mem
    && if mem[save].plen == plen then mem' == mem[save := mem[save].(data := Entry(data))]
       else
         && mem[save].plen < |prefix|
         && var bit := prefix[mem[save].plen];
            if Child(mem[save], bit) == NULL then
              mem' == HangLeaf(mem, save, bit, z, Node(prefix, plen, Entry(data), save, NULL, NULL))
            else exists i: nat :: PlantedAbove(mem, mem', save, bit, prefix, plen, data, z, v, i)
  }

  /** The new node goes in above the child it has the first `i` bits in common with, or
      beside it under a branching node. */
  ghost predicate PlantedAbove(mem: Memory, mem': Memory, save: Addr, bit: bool, prefix: Bits, plen: nat, data: nat,
                               z: Addr, v: Addr, i: nat)
    requires save in mem
  {
    var c := Child(mem[save], bit);
    && c in mem && i < |prefix| && CommonUpTo(mem[c].prefix, prefix, plen, i)
    && if i == plen then
         mem' == PushDown(mem, save, bit, z, Node(prefix, plen, Entry(data), save, NULL, NULL), prefix[i])
       else
         mem' == Forked(mem, save, bit, prefix, plen, data, z, v, i)
  }

  function Forked(mem: Memory, save: Addr, bit: bool, prefix: Bits, plen: nat, data: nat, z: Addr, v: Addr,
                  i: nat): Memory
    requires save in mem && Child(mem[save], bit) in mem && i < |prefix|
  {
    HangLeaf(PushDown(mem, save, bit, v, Node(prefix, i, Virtual, save, NULL, NULL), !prefix[i]), v, prefix[i], z,
             Node(prefix, plen, Entry(data), v, NULL, NULL))
  }

  /** An insertion, step by step as the code does it. */
  ghost predicate Inserted(mem: Memory, mem': Memory, prefix: Bits, plen: nat, data: nat, z: Addr, v: Addr) {
    exists path :: InsertedBy(mem, mem', path, prefix, plen, data, z, v)
  }

  ghost predicate InsertedBy(mem: Memory, mem': Memory, path: seq<Addr>, prefix: Bits, plen: nat, data: nat, z: Addr,
                             v: Addr)
  {
    Searched(mem, path, prefix, plen) && Planted(mem, mem', path[|path|-1], prefix, plen, data, z, v)
  }

  class Trie {
    var mem: Memory
    ghost var store: Store

    ghost predicate Valid()
      reads this
    {
      WellFormed(mem) && Represents(mem, store)
    }

    /** A new tree: its head matches everything and carries no data. */
    constructor ()
      ensures Valid() && store == map[[] := NULL]
    {
      mem := map[HEAD := Node(seq(WIDTH, _ => false), 0, Entry(NULL), NULL, NULL, NULL)];
      store := map[[] := NULL];
      new;
      assert Key(mem[HEAD]) == [];
      assert HasEntry(mem, []);
    }

    /** The last entry on the way down along `addr`. */
    method FindNode(addr: Bits) returns (last: Addr, ghost path: seq<Addr>)
      requires WellFormed(mem) && |addr| == WIDTH
      ensures BestSoFar(mem, addr, last, WIDTH)
      ensures LookedUp(mem, path, addr) && last == LastEntry(mem, path)
    {
      hide NextNode, LastEntry, WalkDown;
      var cur := HEAD;
      last := HEAD;
      path := [HEAD];
      HeadReached(mem, addr);
      LookupStarts(mem, addr);
      while true
        invariant cur in mem && Starts(Key(mem[cur]), addr) && OnTheWay(mem, path, addr, cur, last)
        invariant if mem[cur].data.Entry? then BestSoFar(mem, addr, cur, mem[cur].plen)
          else BestSoFar(mem, addr, last, mem[cur].plen)
        decreases WIDTH - mem[cur].plen
      {
        assert NodeOK(mem[cur]);
        LookupAt(mem, path, addr, cur, last);
        NextIs(mem, cur, addr, WIDTH);
        if mem[cur].data != Virtual {
          last := cur;
        }
        if mem[cur].zero != NULL {
          ChildMatch(mem, NULL, cur, false, addr);
          ChildFacts(mem, NULL, cur, false);
          if MatchNode(mem[mem[cur].zero], addr, mem[cur].plen) {
            ReachOn(mem, addr, last, cur, mem[cur].zero);
            LookupOn(mem, path, addr, cur, last, mem[cur].zero);
            path := path + [mem[cur].zero];
            cur := mem[cur].zero;
            continue;
          }
        }
        if mem[cur].one != NULL {
          ChildMatch(mem, NULL, cur, true, addr);
          ChildFacts(mem, NULL, cur, true);
          if MatchNode(mem[mem[cur].one], addr, mem[cur].plen) {
            ReachOn(mem, addr, last, cur, mem[cur].one);
            LookupOn(mem, path, addr, cur, last, mem[cur].one);
            path := path + [mem[cur].one];
            cur := mem[cur].one;
            continue;
          }
        }
        break;
      }
      ReachEnd(mem, addr, cur);
    }

    /** The data of the longest stored prefix of `addr`. */
    method Lookup(addr: Bits) returns (data: nat)
      requires Valid() && |addr| == WIDTH
      ensures LongestMatch(store, addr, WIDTH) == Some(data)
      ensures exists m ::
        && 0 <= m <= WIDTH && addr[..m] in store && store[addr[..m]] == data
        && forall j :: m < j <= WIDTH ==> addr[..j] !in store
      ensures exists path :: LookedUp(mem, path, addr) && mem[LastEntry(mem, path)].data == Entry(data)
    {
      ghost var path;
      var node;
      node, path := FindNode(addr);
      BestIsLongest(mem, store, addr, node);
      data := mem[node].data.data;
      ghost var m := LongestHas(store, addr, WIDTH);
    }
  
    /** Looks for the entry of a prefix and for the place where it belongs. */
    method FindExact(prefix: Bits, plen: nat) returns (found: bool, save: Addr, ghost path: seq<Addr>)
      requires WellFormed(mem) && |prefix| == WIDTH && plen <= WIDTH
      ensures Reached(mem, prefix, plen, save)
      ensures found <==> mem[save].plen == plen && mem[save].data.Entry?
      ensures Searched(mem, path, prefix, plen) && save == path[|path|-1]
    {
      hide NextNode, WalkDown, OnSearch, Searched, Met, Reached;
      save := HEAD;
      path := [HEAD];
      HeadReached(mem, prefix);
      SearchStarts(mem, prefix, plen);
      while true
        invariant save in mem && mem[save].plen <= plen && Starts(Key(mem[save]), prefix)
        invariant OnSearch(mem, path, prefix, plen, save)
        decreases WIDTH - mem[save].plen
      {
        NextIs(mem, save, prefix, plen);
        assert NodeOK(mem[save]);
        MatchIs(mem[save], prefix, 0);
        ExactStarts(mem[save], prefix, plen);
        MetIs(mem, save, prefix, plen);
        if MatchNode(mem[save], prefix, 0) && mem[save].plen == plen && mem[save].data != Virtual {
          SearchEnds(mem, path, prefix, plen, save);
          found := true;
          break;
        }
        assert ChildOK(mem, save, false) && ChildOK(mem, save, true);
        if mem[save].zero != NULL && mem[mem[save].zero].plen <= plen {
          ChildMatch(mem, NULL, save, false, prefix);
          if MatchNode(mem[mem[save].zero], prefix, mem[save].plen) {
            SearchOn(mem, path, prefix, plen, save, mem[save].zero);
            path := path + [mem[save].zero];
            save := mem[save].zero;
            continue;
          }
        }
        if mem[save].one != NULL && mem[mem[save].one].plen <= plen {
          ChildMatch(mem, NULL, save, true, prefix);
          if MatchNode(mem[mem[save].one], prefix, mem[save].plen) {
            SearchOn(mem, path, prefix, plen, save, mem[save].one);
            path := path + [mem[save].one];
            save := mem[save].one;
            continue;
          }
        }
        SearchEnds(mem, path, prefix, plen, save);
        found := false;
        break;
      }
      ExactReached(mem, prefix, plen, save);
    }
  
    /** Enters a prefix or replaces its data.  `z` and `v` are cells for a new node and a
        branching node. */
    method Insert(prefix: Bits, plen: nat, data: nat, z: Addr, v: Addr) returns (node: Addr)
      requires Valid() && |prefix| == WIDTH && plen <= WIDTH
      requires z !in mem && v !in mem && z != NULL && v != NULL && z != v
      modifies this
      ensures store == old(store)[prefix[..plen] := data] && Represents(mem, store)
      ensures WellFormed(mem) <==> Safe(old(store), prefix, plen)
      ensures node in mem && Key(mem[node]) == prefix[..plen] && mem[node].data == Entry(data)
      ensures Inserted(old(mem), mem, prefix, plen, data, z, v)
    {
      ghost var path;
      var found, save;
      found, save, path := FindExact(prefix, plen);
      ReachedFacts(mem, prefix, plen, save);
      ghost var m, s := mem, store;
      store := store[prefix[..plen] := data];
      if found {
        mem := mem[save := mem[save].(data := Entry(data))];
        DataSet(m, s, save, prefix, plen, data);
        assert InsertedBy(m, mem, path, prefix, plen, data, z, v);
        return save;
      }
      if mem[save].plen == plen {
        assert mem[save].data == Virtual;
        mem := mem[save := mem[save].(data := Entry(data))];
        DataSet(m, s, save, prefix, plen, data);
        assert InsertedBy(m, mem, path, prefix, plen, data, z, v);
        return save;
      }
      var child := Child(mem[save], prefix[mem[save].plen]);
      if child == NULL {
        PlantLeaf(prefix, plen, data, z, save, s);
      } else {
        PlantAtChild(prefix, plen, data, z, v, save, child, s);
      }
      assert InsertedBy(m, mem, path, prefix, plen, data, z, v);
      return z;
    }

    method PlantLeaf(prefix: Bits, plen: nat, data: nat, z: Addr, save: Addr, ghost s: Store)
      requires CanPlant(mem, s, prefix, plen, save) && Child(mem[save], prefix[mem[save].plen]) == NULL && z !in mem
      requires z != NULL
      modifies this`mem
      ensures Represents(mem, s[prefix[..plen] := data]) && (WellFormed(mem) <==> Safe(s, prefix, plen))
      ensures z in mem && Key(mem[z]) == prefix[..plen] && mem[z].data == Entry(data)
      ensures mem == HangLeaf(old(mem), save, prefix[old(mem)[save].plen], z,
                              Node(prefix, plen, Entry(data), save, NULL, NULL))
    {
      LeafSet(mem, s, save, z, prefix, plen, data);
      mem := HangLeaf(mem, save, prefix[mem[save].plen], z, Node(prefix, plen, Entry(data), save, NULL, NULL));
    }

    /** The slot is taken: the new node goes in above the child, or beside it under a
        branching node. */
    method PlantAtChild(prefix: Bits, plen: nat, data: nat, z: Addr, v: Addr, save: Addr, child: Addr, ghost s: Store)
      requires CanPlant(mem, s, prefix, plen, save) && z !in mem && z != NULL && v !in mem && v != NULL && z != v
      requires child == Child(mem[save], prefix[mem[save].plen]) && child != NULL
      modifies this`mem
      ensures Represents(mem, s[prefix[..plen] := data]) && (WellFormed(mem) <==> Safe(s, prefix, plen))
      ensures z in mem && Key(mem[z]) == prefix[..plen] && mem[z].data == Entry(data)
      ensures exists i: nat ::
        PlantedAbove(old(mem), mem, save, prefix[old(mem)[save].plen], prefix, plen, data, z, v, i)
    {
      hide Formed, Represents, Safe;
      ghost var m := mem;
      var bit := prefix[mem[save].plen];
      ChildFacts(mem, NULL, save, bit);
      var cplen := CommonPrefixLen(mem[child].prefix, prefix, plen);
      CommonFacts(mem, save, prefix, plen, cplen);
      assert cplen > 0;
      if cplen == plen {
        PushedDownSet(mem, s, save, z, prefix, plen, data);
        mem := PushDown(mem, save, bit, z, Node(prefix, plen, Entry(data), save, NULL, NULL), prefix[cplen]);
      } else {
        ForkSet(mem, s, save, z, v, prefix, plen, cplen, data);
        mem := PushDown(mem, save, bit, v, Node(prefix, cplen, Virtual, save, NULL, NULL), !prefix[cplen]);
        mem := HangLeaf(mem, v, prefix[cplen], z, Node(prefix, plen, Entry(data), v, NULL, NULL));
      }
      assert PlantedAbove(m, mem, save, bit, prefix, plen, data, z, v, cplen);
    }

    /** Deletes a prefix and gives back its data, or nothing if it is not stored. */
    method Delete(prefix: Bits, plen: nat) returns (data: nat)
      requires Valid() && |prefix| == WIDTH && 1 <= plen <= WIDTH
      modifies this
      ensures Valid() && store == old(store) - {prefix[..plen]}
      ensures data == if prefix[..plen] in old(store) then old(store)[prefix[..plen]] else NULL
    {
      var found, node, _ := FindExact(prefix, plen);
      ExactKey(mem, store, prefix, plen, node);
      if !found {
        return NULL;
      }
      data := mem[node].data.data;
      EntryCleared(mem, store, node);
      mem := mem[node := mem[node].(data := Virtual)];
      store := store - {prefix[..plen]};
      OptimizeVirtual(node, store);
    }

    /** Brings a node without data back to two children: such a node is dropped, merged
        with its only child, or left as it is. */
    method OptimizeVirtual(node: Addr, ghost s: Store)
      requires Formed(mem, node) && Represents(mem, s) && node in mem
      modifies this`mem
      ensures WellFormed(mem) && Represents(mem, s)
      decreases |mem|
    {
      if mem[node].data != Virtual {
        EntryExempt(mem, node);
        return;
      }
      var parent := mem[node].parent;
      OptimizeFacts(mem, node);
      if mem[node].zero != NULL && mem[node].one != NULL {
        OptimizeVirtualPlen(node);
      } else if mem[node].zero != NULL || mem[node].one != NULL {
        MergeChild(node, s);
        OptimizeVirtual(node, s);
      } else {
        CutOffEmpty(node, s);
        OptimizeVirtual(parent, s);
      }
    }

    /** The two children of a branching node part ways right after its prefix, so there is
        nothing to lengthen. */
    method OptimizeVirtualPlen(node: Addr)
      requires Formed(mem, node) && node in mem && node != NULL && mem[node].zero != NULL && mem[node].one != NULL
      ensures WellFormed(mem)
    {
      ChildFacts(mem, node, node, false);
      ChildFacts(mem, node, node, true);
      var c0, c1 := mem[mem[node].zero], mem[mem[node].one];
      var minplen := if c0.plen < c1.plen then c0.plen else c1.plen;
      var cplen := CommonPrefixLen(c0.prefix, c1.prefix, minplen);
      SameStart2(mem[node].prefix, c0.prefix, c1.prefix, mem[node].plen, cplen, minplen);
      assert cplen == mem[node].plen;
      assert LoadOK(mem[node]);
    }

    /** A node takes over everything of its only child. */
    method MergeChild(node: Addr, ghost s: Store)
      requires Formed(mem, node) && Represents(mem, s) && node in mem && node != HEAD && mem[node].data == Virtual
      requires (mem[node].zero != NULL) != (mem[node].one != NULL)
      modifies this`mem
      ensures WellFormed(mem) && Represents(mem, s) && node in mem && |mem| < |old(mem)|
    {
      ghost var m := mem;
      ghost var bit := mem[node].zero == NULL;
      MergeFacts(mem, node, bit);
      var child := if mem[node].zero != NULL then mem[node].zero else mem[node].one;
      TakeOver(node, child);
      MergedFormed(m, mem, node, bit, s);
      Shrunk(m, mem, child);
    }

    /** Copies a child's fields into `node`, which its children then get for a parent. */
    method TakeOver(node: Addr, child: Addr)
      requires CanMerge(mem, node, child)
      modifies this`mem
      ensures Merged(old(mem), mem, node, child)
    {
      var n := mem[child].(parent := mem[node].parent);
      mem := mem[node := n];
      if n.zero != NULL {
        mem := mem[n.zero := mem[n.zero].(parent := node)];
      }
      if n.one != NULL {
        mem := mem[n.one := mem[n.one].(parent := node)];
      }
      mem := mem - {child};
    }

    /** Cuts a node without children off from its parent. */
    method CutOffEmpty(node: Addr, ghost s: Store)
      requires Formed(mem, node) && Represents(mem, s) && node in mem && node != HEAD && mem[node].data == Virtual
      requires mem[node].zero == NULL && mem[node].one == NULL
      modifies this`mem
      ensures old(mem[node]).parent in mem && Formed(mem, old(mem[node]).parent) && Represents(mem, s)
      ensures |mem| < |old(mem)|
    {
      ghost var m := mem;
      ParentFacts(mem, node, node);
      var parent := mem[node].parent;
      if mem[parent].zero == node {
        mem := mem[parent := mem[parent].(zero := NULL)];
      } else {
        mem := mem[parent := mem[parent].(one := NULL)];
      }
      mem := mem - {node};
      CutOffFormed(m, mem, node, s);
      Shrunk(m, mem, node);
    }

    /** The number of bits two addresses have in common, up to a limit. */
    method CommonPrefixLen(p1: Bits, p2: Bits, maxplen: nat) returns (i: nat)
      requires |p1| == |p2| == WIDTH && maxplen <= WIDTH
      ensures i <= maxplen && p1[..i] == p2[..i] && (i < maxplen ==> p1[i] != p2[i])
    {
      i := 0;
      while i < maxplen
        invariant i <= maxplen && p1[..i] == p2[..i]
      {
        if p1[i] != p2[i] {
          break;
        }
        i := i + 1;
      }
    }
  }

  lemma Shrunk(mem: Memory, mem': Memory, a: Addr)
    requires a in mem && mem'.Keys == mem.Keys - {a}
    ensures |mem'| < |mem|
  {
    assert |mem.Keys - {a}| == |mem.Keys| - 1;
    assert |mem'| == |mem'.Keys| && |mem| == |mem.Keys|;
  }

  lemma OptimizeFacts(mem: Memory, node: Addr)
    requires Formed(mem, node) && node in mem && mem[node].data == Virtual
    ensures node != HEAD && node != NULL
  {
  }

  ghost predicate CanMerge(mem: Memory, node: Addr, c: Addr) {
    && node in mem && c in mem && c != node && NULL !in mem
    && (mem[c].zero != NULL ==> mem[c].zero in mem && mem[c].zero != node && mem[c].zero != c)
    && (mem[c].one != NULL ==> mem[c].one in mem && mem[c].one != node && mem[c].one != c)
    && (mem[c].zero != NULL ==> mem[c].zero != mem[c].one)
  }

  lemma MergeFacts(mem: Memory, node: Addr, bit: bool)
    requires Formed(mem, node) && node in mem && node != HEAD && Child(mem[node], bit) != NULL
    ensures CanMerge(mem, node, Child(mem[node], bit))
  {
    var c := Child(mem[node], bit);
    ChildFacts(mem, node, node, bit);
    ParentFacts(mem, node, node);
    if mem[c].zero != NULL {
      ChildFacts(mem, node, c, false);
    }
    if mem[c].one != NULL {
      ChildFacts(mem, node, c, true);
    }
  }

  /** The entry found by an exact search, if any, is that of the prefix. */
  lemma ExactKey(mem: Memory, store: Store, prefix: Bits, plen: nat, a: Addr)
    requires WellFormed(mem) && Represents(mem, store) && |prefix| == WIDTH && 1 <= plen <= WIDTH
    requires Reached(mem, prefix, plen, a)
    ensures a in mem && (mem[a].plen == plen ==> Key(mem[a]) == prefix[..plen] && a != HEAD)
    ensures mem[a].plen == plen && mem[a].data.Entry? <==> prefix[..plen] in store
    ensures mem[a].plen == plen && mem[a].data.Entry? ==> store[prefix[..plen]] == mem[a].data.data
  {
    assert NodeOK(mem[a]);
    if prefix[..plen] in store {
      var n := EntryOf(mem, store, prefix[..plen]);
      assert Starts(Key(mem[n]), prefix[..plen]);
      OneNodeEach(mem, NULL, a, n);
    }
  }

  lemma SameStart2(p: Bits, c0: Bits, c1: Bits, pl: nat, n: nat, limit: nat)
    requires |p| == |c0| == |c1| == WIDTH && pl < limit <= WIDTH && n <= limit && p[..pl] == c0[..pl] == c1[..pl]
    requires c0[pl] != c1[pl]
    requires c0[..n] == c1[..n] && (n < limit ==> c0[n] != c1[n])
    ensures n == pl
  {
    assert forall i :: 0 <= i < pl ==> c0[..pl][i] == c1[..pl][i];
    assert forall i :: 0 <= i < n ==> c0[..n][i] == c1[..n][i];
  }

  lemma DataSet(mem: Memory, store: Store, a: Addr, prefix: Bits, plen: nat, data: nat)
    requires WellFormed(mem) && Represents(mem, store) && |prefix| == WIDTH && plen <= WIDTH
    requires Reached(mem, prefix, plen, a) && mem[a].plen == plen
    ensures Key(mem[a]) == prefix[..plen] && Safe(store, prefix, plen)
    ensures var mem' := mem[a := mem[a].(data := Entry(data))];
      WellFormed(mem') && Represents(mem', store[prefix[..plen] := data])
  {
    assert Key(mem[a]) == prefix[..plen] by {
      assert NodeOK(mem[a]);
    }
    DataFormed(mem, a, data);
    DataEntry(mem, store, a, data);
    SafeAtNode(mem, store, a, prefix, plen);
  }

  lemma DataFormed(mem: Memory, a: Addr, data: nat)
    requires WellFormed(mem) && a in mem
    ensures WellFormed(mem[a := mem[a].(data := Entry(data))])
  {
    var mem' := mem[a := mem[a].(data := Entry(data))];
    forall x, b | x in mem' ensures ChildOK(mem', x, b) {
      assert ChildOK(mem, x, b);
      ChildKept(mem, mem', x, b);
    }
    forall x | x in mem' ensures ParentOK(mem', x) {
      assert ParentOK(mem, x);
      ParentKept(mem, mem', x);
    }
  }

  lemma DataEntry(mem: Memory, store: Store, a: Addr, data: nat)
    requires WellFormed(mem) && Represents(mem, store) && a in mem
    ensures Represents(mem[a := mem[a].(data := Entry(data))], store[Key(mem[a]) := data])
  {
    forall x | x in mem && x != a ensures Key(mem[x]) != Key(mem[a]) {
      if Key(mem[x]) == Key(mem[a]) {
        OneNodeEach(mem, NULL, x, a);
      }
    }
    EntrySet(mem, mem[a := mem[a].(data := Entry(data))], store, a);
  }

  lemma SafeAtNode(mem: Memory, store: Store, a: Addr, prefix: Bits, plen: nat)
    requires WellFormed(mem) && Represents(mem, store) && |prefix| == WIDTH && plen <= WIDTH
    requires a in mem && Key(mem[a]) == prefix[..plen]
    ensures Safe(store, prefix, plen)
  {
    assert NodeOK(mem[a]);
    if mem[a].data == Virtual {
      assert LoadOK(mem[a]);
      ChildFacts(mem, NULL, a, false);
      var bit := prefix[plen];
      ChildFacts(mem, NULL, a, bit);
      var c := Child(mem[a], bit);
      var n := EntryBelow(mem, c);
      assert NodeOK(mem[n]);
      StartsTransitive(Key(mem[a]), Key(mem[c]), Key(mem[n]));
      assert Key(mem[n])[plen] == Key(mem[c])[plen] == bit;
    }
  }

  /** Stored prefixes that extend the new one lie below the child in its slot. */
  lemma ExtensionBelow(mem: Memory, store: Store, save: Addr, prefix: Bits, plen: nat, l: Bits)
    requires WellFormed(mem) && Represents(mem, store) && |prefix| == WIDTH && plen <= WIDTH
    requires Reached(mem, prefix, plen, save) && mem[save].plen < plen && l in store && Extends(l, prefix[..plen])
    ensures |l| <= WIDTH
    ensures var c := Child(mem[save], prefix[mem[save].plen]); c != NULL && c in mem && Starts(Key(mem[c]), l)
  {
    var n := EntryOf(mem, store, l);
    StartsTransitive(Key(mem[save]), prefix[..plen], l);
    assert NodeOK(mem[save]);
    SomeChildMatches(mem, NULL, save, n, l);
    assert l[mem[save].plen] == l[..plen][mem[save].plen] == prefix[mem[save].plen];
  }

  /** A missing prefix is to be entered below `save`. */
  ghost predicate CanPlant(mem: Memory, store: Store, prefix: Bits, plen: nat, save: Addr) {
    && WellFormed(mem) && Represents(mem, store) && |prefix| == WIDTH && plen <= WIDTH
    && Reached(mem, prefix, plen, save) && save in mem && mem[save].plen < plen
  }

  lemma ReachedFacts(mem: Memory, prefix: Bits, plen: nat, save: Addr)
    requires plen <= |prefix| && Reached(mem, prefix, plen, save)
    ensures save in mem && mem[save].plen <= plen
  {
  }

  lemma LeafSet(mem: Memory, store: Store, save: Addr, z: Addr, prefix: Bits, plen: nat, data: nat)
    requires CanPlant(mem, store, prefix, plen, save) && z !in mem && z != NULL
    requires Child(mem[save], prefix[mem[save].plen]) == NULL
    ensures var mem' := HangLeaf(mem, save, prefix[mem[save].plen], z,
                                 Node(prefix, plen, Entry(data), save, NULL, NULL));
      && WellFormed(mem') && Represents(mem', store[prefix[..plen] := data]) && Safe(store, prefix, plen)
  {
    var n := Node(prefix, plen, Entry(data), save, NULL, NULL);
    NewHangs(mem, save, prefix, plen);
    assert LoadOK(mem[save]);
    LeafFormed(mem, NULL, save, prefix[mem[save].plen], z, n);
    NoKeyYet(mem, save, prefix, plen);
    LeafEntry(mem, store, save, prefix[mem[save].plen], z, n);
    forall l | l in store ensures !Extends(l, prefix[..plen]) {
      if Extends(l, prefix[..plen]) {
        ExtensionBelow(mem, store, save, prefix, plen, l);
      }
    }
  }

  ghost predicate NoKey(mem: Memory, k: Bits) {
    forall a :: a in mem ==> Key(mem[a]) != k
  }

  lemma NoKeyYet(mem: Memory, save: Addr, prefix: Bits, plen: nat)
    requires WellFormed(mem) && |prefix| == WIDTH && plen <= WIDTH && Reached(mem, prefix, plen, save)
    requires mem[save].plen < plen
    ensures NoKey(mem, prefix[..plen])
  {
    forall a | a in mem ensures Key(mem[a]) != prefix[..plen] {
      assert NodeOK(mem[a]);
    }
  }

  lemma LeafEntry(mem: Memory, store: Store, save: Addr, bit: bool, z: Addr, n: Node)
    requires Represents(mem, store) && save in mem && z !in mem && n.data.Entry? && NoKey(mem, Key(n))
    ensures Represents(HangLeaf(mem, save, bit, z, n), store[Key(n) := n.data.data])
  {
    EntrySet(mem, HangLeaf(mem, save, bit, z, n), store, z);
  }

  lemma NewHangs(mem: Memory, save: Addr, prefix: Bits, plen: nat)
    requires WellFormed(mem) && |prefix| == WIDTH && plen <= WIDTH && Reached(mem, prefix, plen, save)
    requires mem[save].plen < plen
    ensures Hangs(mem[save].prefix, mem[save].plen, prefix, plen, prefix[mem[save].plen])
  {
    assert NodeOK(mem[save]);
    assert prefix[..mem[save].plen] == prefix[..plen][..mem[save].plen] == Key(mem[save]);
  }

  lemma CommonFacts(mem: Memory, save: Addr, prefix: Bits, plen: nat, cplen: nat)
    requires WellFormed(mem) && |prefix| == WIDTH && plen <= WIDTH && Reached(mem, prefix, plen, save)
    requires mem[save].plen < plen
    requires Child(mem[save], prefix[mem[save].plen]) != NULL && Child(mem[save], prefix[mem[save].plen]) in mem
    requires var c := mem[Child(mem[save], prefix[mem[save].plen])];
      |c.prefix| == WIDTH && cplen <= plen && c.prefix[..cplen] == prefix[..cplen] &&
        (cplen < plen ==> c.prefix[cplen] != prefix[cplen])
    ensures mem[save].plen < cplen < mem[Child(mem[save], prefix[mem[save].plen])].plen
  {
    var bit, pl := prefix[mem[save].plen], mem[save].plen;
    var c := Child(mem[save], bit);
    NewHangs(mem, save, prefix, plen);
    assert ChildOK(mem, save, bit);
    SameStart(mem[save].prefix, mem[c].prefix, prefix, pl, cplen);
    KeyWithin(mem[c], prefix, plen, cplen);
  }

  lemma KeyWithin(c: Node, prefix: Bits, plen: nat, n: nat)
    requires |c.prefix| == |prefix| == WIDTH && n <= plen <= WIDTH && c.prefix[..n] == prefix[..n]
    ensures c.plen <= n ==> Starts(Key(c), prefix[..plen])
  {
    if c.plen <= n {
      assert c.prefix[..n][..c.plen] == prefix[..n][..c.plen];
      assert prefix[..plen][..c.plen] == prefix[..c.plen];
    }
  }

  lemma SameStart(p: Bits, c: Bits, s: Bits, pl: nat, n: nat)
    requires |p| == |c| == |s| == WIDTH && pl < WIDTH && n <= WIDTH && p[..pl] == c[..pl] == s[..pl] && c[pl] == s[pl]
    requires n < WIDTH ==> n > pl || c[n] != s[n]
    ensures pl < n
  {
    assert forall i :: 0 <= i < pl ==> c[..pl][i] == s[..pl][i];
  }

  /** The new prefix goes in above the child that starts with it.  The slot of that child
      is taken from the new prefix's bit, not from the child's. */
  lemma PushedDownSet(mem: Memory, store: Store, save: Addr, z: Addr, prefix: Bits, plen: nat, data: nat)
    requires CanPlant(mem, store, prefix, plen, save) && z !in mem && z != NULL
    requires var c := Child(mem[save], prefix[mem[save].plen]);
      c != NULL && c in mem && |mem[c].prefix| == WIDTH && plen < mem[c].plen <= WIDTH &&
        mem[c].prefix[..plen] == prefix[..plen]
    ensures var mem' := PushDown(mem, save, prefix[mem[save].plen], z,
                                 Node(prefix, plen, Entry(data), save, NULL, NULL), prefix[plen]);
      && z in mem' && mem'[z].prefix == prefix && mem'[z].plen == plen && mem'[z].data == Entry(data)
      && Represents(mem', store[prefix[..plen] := data]) && (WellFormed(mem') <==> Safe(store, prefix, plen))
  {
    hide Formed, Represents, Safe;
    var bit := prefix[mem[save].plen];
    var n := Node(prefix, plen, Entry(data), save, NULL, NULL);
    var mem' := PushDown(mem, save, bit, z, n, prefix[plen]);
    ChildFacts(mem, NULL, save, bit);
    NewHangs(mem, save, prefix, plen);
    PushedDownFormed(mem, save, bit, z, n, prefix[plen]);
    NoKeyYet(mem, save, prefix, plen);
    PushedEntries(mem, store, save, bit, z, n, prefix[plen]);
    EntryExempt(mem', z);
    SafeInPlace(mem, store, save, prefix, plen);
  }

  lemma PushedEntries(mem: Memory, store: Store, save: Addr, bit: bool, z: Addr, n: Node, b2: bool)
    requires Represents(mem, store) && save in mem && Child(mem[save], bit) in mem && Child(mem[save], bit) != save
    requires z !in mem
    requires n.data.Entry? ==> NoKey(mem, Key(n))
    ensures Represents(PushDown(mem, save, bit, z, n, b2), if n.data.Entry? then store[Key(n) := n.data.data]
      else store)
  {
    var mem' := PushDown(mem, save, bit, z, n, b2);
    assert Key(mem'[z]) == Key(n);
    if n.data.Entry? {
      EntrySet(mem, mem', store, z);
    } else {
      EntriesMoved(mem, mem', store, save, save);
    }
  }

  lemma EntryExempt(mem: Memory, z: Addr)
    requires z in mem && mem[z].data.Entry? && z != NULL
    ensures Formed(mem, z) <==> WellFormed(mem)
  {
    assert LoadOK(mem[z]);
  }

  lemma SafeInPlace(mem: Memory, store: Store, save: Addr, prefix: Bits, plen: nat)
    requires WellFormed(mem) && Represents(mem, store) && |prefix| == WIDTH && plen <= WIDTH
    requires Reached(mem, prefix, plen, save) && mem[save].plen < plen
    requires var c := Child(mem[save], prefix[mem[save].plen]);
      c != NULL && c in mem && |mem[c].prefix| == WIDTH && plen < mem[c].plen <= WIDTH &&
        mem[c].prefix[..plen] == prefix[..plen]
    ensures Safe(store, prefix, plen) <==> mem[Child(mem[save], prefix[mem[save].plen])].prefix[plen] == prefix[plen]
  {
    var c, k := Child(mem[save], prefix[mem[save].plen]), prefix[..plen];
    forall l | l in store && Extends(l, k) ensures |l| <= WIDTH && l[plen] == mem[c].prefix[plen] {
      ExtensionBelow(mem, store, save, prefix, plen, l);
      assert l[plen] == Key(mem[c])[plen];
    }
    var n := EntryBelow(mem, c);
    assert NodeOK(mem[n]);
    assert Key(mem[c])[..plen] == k;
    StartsTransitive(k, Key(mem[c]), Key(mem[n]));
    assert Key(mem[n]) in store && Extends(Key(mem[n]), k);
    NoKeyYet(mem, save, prefix, plen);
    assert !HasEntry(mem, k);
  }

  /** The new prefix and the child part ways after `cplen` bits. */
  lemma ForkSet(mem: Memory, store: Store, save: Addr, z: Addr, v: Addr, prefix: Bits, plen: nat, cplen: nat, data: nat)
    requires CanPlant(mem, store, prefix, plen, save) && z !in mem && z != NULL && v !in mem && v != NULL && z != v
    requires mem[save].plen < cplen < plen
    requires var c := Child(mem[save], prefix[mem[save].plen]);
      && c != NULL && c in mem && |mem[c].prefix| == WIDTH && cplen < mem[c].plen <= WIDTH
      && mem[c].prefix[..cplen] == prefix[..cplen]
      && mem[c].prefix[cplen] != prefix[cplen]
    ensures var mem1 := PushDown(mem, save, prefix[mem[save].plen], v, Node(prefix, cplen, Virtual, save, NULL, NULL),
                                 !prefix[cplen]);
      var mem' := HangLeaf(mem1, v, prefix[cplen], z, Node(prefix, plen, Entry(data), v, NULL, NULL));
      && z in mem' && mem'[z].prefix == prefix && mem'[z].plen == plen && mem'[z].data == Entry(data)
      && WellFormed(mem') && Represents(mem', store[prefix[..plen] := data]) && Safe(store, prefix, plen)
  {
    var n := Node(prefix, cplen, Virtual, save, NULL, NULL);
    ForkBranching(mem, store, save, z, v, prefix, plen, cplen, n);
    ForkLeaf(PushDown(mem, save, prefix[mem[save].plen], v, n, !prefix[cplen]), store, v, z, prefix, plen, cplen, data);
    NoExtension(mem, store, save, prefix, plen, cplen);
  }

  /** The branching node `v` waits for the new node. */
  ghost predicate Branching(mem: Memory, store: Store, v: Addr, z: Addr, prefix: Bits, plen: nat, cplen: nat) {
    BranchingParts(mem, store, v, z, prefix, plen, cplen) == true
  }

  ghost predicate BranchingParts(mem: Memory, store: Store, v: Addr, z: Addr, prefix: Bits, plen: nat, cplen: nat) {
    && Formed(mem, v) && Represents(mem, store) && |prefix| == WIDTH && cplen < plen <= WIDTH
    && NoKey(mem, prefix[..plen])
    && v in mem && v != NULL && z !in mem && z != NULL && mem[v].prefix == prefix && mem[v].plen == cplen
    && Child(mem[v], prefix[cplen]) == NULL && Child(mem[v], !prefix[cplen]) != NULL
  }

  lemma ForkBranching(mem: Memory, store: Store, save: Addr, z: Addr, v: Addr, prefix: Bits, plen: nat, cplen: nat,
                      n: Node)
    requires CanPlant(mem, store, prefix, plen, save) && z !in mem && z != NULL && v !in mem && v != NULL && z != v
    requires mem[save].plen < cplen < plen && n == Node(prefix, cplen, Virtual, save, NULL, NULL)
    requires var c := Child(mem[save], prefix[mem[save].plen]);
      && c != NULL && c in mem && |mem[c].prefix| == WIDTH && cplen < mem[c].plen <= WIDTH
      && mem[c].prefix[..cplen] == prefix[..cplen]
      && mem[c].prefix[cplen] != prefix[cplen]
    ensures Branching(PushDown(mem, save, prefix[mem[save].plen], v, n, !prefix[cplen]), store, v, z, prefix, plen,
                      cplen)
  {
    hide Formed, Represents;
    var bit := prefix[mem[save].plen];
    ChildFacts(mem, NULL, save, bit);
    ForkPushed(mem, store, save, v, prefix, plen, cplen, n);
    PushedNode(mem, save, bit, v, n, !prefix[cplen]);
  }

  lemma ForkLeaf(mem: Memory, store: Store, v: Addr, z: Addr, prefix: Bits, plen: nat, cplen: nat, data: nat)
    requires |prefix| == WIDTH && cplen < plen <= WIDTH && v in mem && Branching(mem, store, v, z, prefix, plen, cplen)
    ensures var mem' := HangLeaf(mem, v, prefix[cplen], z, Node(prefix, plen, Entry(data), v, NULL, NULL));
      && z in mem' && mem'[z].prefix == prefix && mem'[z].plen == plen && mem'[z].data == Entry(data)
      && WellFormed(mem') && Represents(mem', store[prefix[..plen] := data])
  {
    var leaf := Node(prefix, plen, Entry(data), v, NULL, NULL);
    LeafFormed(mem, v, v, prefix[cplen], z, leaf);
    LeafEntry(mem, store, v, prefix[cplen], z, leaf);
  }

  /** The branching node with the child under it, before the new node joins it. */
  lemma ForkPushed(mem: Memory, store: Store, save: Addr, v: Addr, prefix: Bits, plen: nat, cplen: nat, n: Node)
    requires CanPlant(mem, store, prefix, plen, save) && v !in mem && v != NULL
    requires mem[save].plen < cplen < plen && n == Node(prefix, cplen, Virtual, save, NULL, NULL)
    requires var c := Child(mem[save], prefix[mem[save].plen]);
      && c != NULL && c in mem && |mem[c].prefix| == WIDTH && cplen < mem[c].plen <= WIDTH
      && mem[c].prefix[..cplen] == prefix[..cplen]
      && mem[c].prefix[cplen] != prefix[cplen]
    ensures var mem1 := PushDown(mem, save, prefix[mem[save].plen], v, n, !prefix[cplen]);
      && Formed(mem1, v) && Represents(mem1, store) && NoKey(mem1, prefix[..plen])
  {
    var bit := prefix[mem[save].plen];
    ChildFacts(mem, NULL, save, bit);
    NewHangs(mem, save, prefix, plen);
    assert Hangs(mem[save].prefix, mem[save].plen, n.prefix, n.plen, bit);
    PushedDownFormed(mem, save, bit, v, n, !prefix[cplen]);
    PushedEntries(mem, store, save, bit, v, n, !prefix[cplen]);
    NoKeyYet(mem, save, prefix, plen);
    PushedKeys(mem, save, bit, v, n, !prefix[cplen], prefix[..plen]);
  }

  lemma PushedNode(mem: Memory, save: Addr, bit: bool, z: Addr, n: Node, b2: bool)
    requires save in mem && Child(mem[save], bit) in mem && Child(mem[save], bit) != save && z !in mem
    ensures var mem' := PushDown(mem, save, bit, z, n, b2);
      && mem'.Keys == mem.Keys + {z} && mem'[z].prefix == n.prefix && mem'[z].plen == n.plen
      && Child(mem'[z], b2) == Child(mem[save], bit) && Child(mem'[z], !b2) == Child(n, !b2)
  {
  }

  lemma PushedKeys(mem: Memory, save: Addr, bit: bool, z: Addr, n: Node, b2: bool, k: Bits)
    requires save in mem && Child(mem[save], bit) in mem && Child(mem[save], bit) != save && z !in mem
    requires NoKey(mem, k) && Key(n) != k
    ensures NoKey(PushDown(mem, save, bit, z, n, b2), k)
  {
    assert Key(SetChild(n, b2, Child(mem[save], bit))) == Key(n);
  }

  lemma NoExtension(mem: Memory, store: Store, save: Addr, prefix: Bits, plen: nat, cplen: nat)
    requires WellFormed(mem) && Represents(mem, store) && |prefix| == WIDTH && plen <= WIDTH
    requires Reached(mem, prefix, plen, save) && mem[save].plen < cplen < plen
    requires var c := Child(mem[save], prefix[mem[save].plen]);
      c != NULL && c in mem && |mem[c].prefix| == WIDTH && cplen < mem[c].plen <= WIDTH &&
        mem[c].prefix[cplen] != prefix[cplen]
    ensures forall l :: l in store ==> !Extends(l, prefix[..plen])
  {
    forall l | l in store ensures !Extends(l, prefix[..plen]) {
      if Extends(l, prefix[..plen]) {
        ExtensionAgrees(mem, store, save, prefix, plen, cplen, l);
      }
    }
  }

  lemma ExtensionAgrees(mem: Memory, store: Store, save: Addr, prefix: Bits, plen: nat, i: nat, l: Bits)
    requires WellFormed(mem) && Represents(mem, store) && |prefix| == WIDTH && plen <= WIDTH
    requires Reached(mem, prefix, plen, save) && mem[save].plen < plen && i < plen && l in store
    requires Extends(l, prefix[..plen])
    ensures var c := Child(mem[save], prefix[mem[save].plen]);
      c != NULL && c in mem && (i < mem[c].plen <= |mem[c].prefix| ==> mem[c].prefix[i] == prefix[i])
  {
    ExtensionBelow(mem, store, save, prefix, plen, l);
    var c := Child(mem[save], prefix[mem[save].plen]);
    assert l[i] == l[..plen][i] == prefix[i];
    if i < mem[c].plen <= |mem[c].prefix| {
      assert l[i] == Key(mem[c])[i];
    }
  }

  lemma ExactReached(mem: Memory, prefix: Bits, plen: nat, a: Addr)
    requires WellFormed(mem) && |prefix| == WIDTH && plen <= WIDTH && a in mem && mem[a].plen <= plen
    requires Starts(Key(mem[a]), prefix[..plen])
    requires mem[a].plen == plen || forall bit ::
      Child(mem[a], bit) != NULL && Child(mem[a], bit) in mem && mem[Child(mem[a], bit)].plen <= plen ==>
      !Starts(Key(mem[Child(mem[a], bit)]), prefix)
    ensures Reached(mem, prefix, plen, a)
  {
    var k := prefix[..plen];
    if mem[a].plen == plen {
      assert forall n :: n in mem && Starts(Key(mem[n]), k) ==> NodeOK(mem[n]) && mem[n].plen <= plen;
    } else {
      forall bit | Child(mem[a], bit) != NULL && Child(mem[a], bit) in mem
        ensures !Starts(Key(mem[Child(mem[a], bit)]), k)
      {
        var c := Child(mem[a], bit);
        assert NodeOK(mem[c]);
        if mem[c].plen <= plen {
          ExactStarts(mem[c], prefix, plen);
        }
      }
      ExactEnd(mem, k, a);
    }
  }

  lemma HeadReached(mem: Memory, addr: Bits)
    requires WellFormed(mem) && |addr| == WIDTH
    ensures Starts(Key(mem[HEAD]), addr) && BestSoFar(mem, addr, HEAD, 0)
  {
    assert NodeOK(mem[HEAD]) && Key(mem[HEAD]) == [];
  }
}
