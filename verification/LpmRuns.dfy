/** Runs of insertions and deletions, and the insertion that goes wrong. */
module LpmRuns {
  import opened LpmMemory
  import opened LpmStore
  import opened LpmTrie

  datatype Op = Put(prefix: Bits, plen: nat, data: nat) | Drop(prefix: Bits, plen: nat)

  ghost predicate Possible(op: Op) {
    |op.prefix| == WIDTH && op.plen <= WIDTH && (op.Drop? ==> op.plen >= 1)
  }

  ghost function Applied(store: Store, op: Op): Store
    requires Possible(op)
  {
    if op.Put? then store[op.prefix[..op.plen] := op.data] else store - {op.prefix[..op.plen]}
  }

  /** The table after the first `n` operations. */
  ghost function After(ops: seq<Op>, n: nat): Store
    requires n <= |ops| && forall i :: 0 <= i < |ops| ==> Possible(ops[i])
  {
    if n == 0 then map[[] := NULL] else Applied(After(ops, n - 1), ops[n - 1])
  }

  /** Every insertion of the run is safe when its turn comes. */
  ghost predicate SafeRun(ops: seq<Op>) {
    && (forall i :: 0 <= i < |ops| ==> Possible(ops[i]))
    && (forall i :: 0 <= i < |ops| && ops[i].Put? ==> Safe(After(ops, i), ops[i].prefix, ops[i].plen))
  }

  /** After a run of safe insertions and of deletions, every lookup gives what a linear
      search of the stored prefixes gives. */
  method Run(ops: seq<Op>) returns (trie: Trie)
    requires SafeRun(ops)
    ensures fresh(trie) && trie.Valid() && trie.store == After(ops, |ops|)
  {
    trie := new Trie();
    var i := 0;
    while i < |ops|
      invariant 0 <= i <= |ops| && fresh(trie) && trie.Valid() && trie.store == After(ops, i)
    {
      Perform(trie, ops[i]);
      i := i + 1;
    }
  }

  method Perform(trie: Trie, op: Op)
    requires trie.Valid() && Possible(op) && (op.Put? ==> Safe(trie.store, op.prefix, op.plen))
    modifies trie
    ensures trie.Valid() && trie.store == Applied(old(trie.store), op)
  {
    match op {
      case Put(prefix, plen, data) =>
        var z, v := FreshCells(trie.mem);
        var _ := trie.Insert(prefix, plen, data, z, v);
      case Drop(prefix, plen) =>
        var _ := trie.Delete(prefix, plen);
    }
  }

  method FreshCells(mem: Memory) returns (z: Addr, v: Addr)
    ensures z !in mem && v !in mem && z != NULL && v != NULL && z != v
  {
    FreshCell(mem.Keys + {NULL});
    z :| z !in mem.Keys + {NULL};
    FreshCell(mem.Keys + {NULL, z});
    v :| v !in mem.Keys + {NULL, z};
  }

  /** There is always a cell that is not in use. */
  lemma FreshCell(used: set<Addr>)
    ensures exists z: nat :: z !in used
  {
    var top := Bound(used);
    assert top !in used;
  }

  ghost function Bound(used: set<Addr>): (top: nat)
    ensures forall a :: a in used ==> a < top
  {
    if used == {} then 0
    else
      var a :| a in used;
      var rest := Bound(used - {a});
      assert forall x :: x in used ==> x == a || x in used - {a};
      if a < rest then rest else a + 1
  }

  /* ---- The insertion that goes wrong ---- */

  /** The address whose first `n` bits are set. */
  function Ones(n: nat): Bits {
    seq(WIDTH, i => 0 <= i < n)
  }

  lemma UnsafeFour(store: Store)
    requires store == map[[] := NULL, Ones(8)[..8] := 1]
    ensures !Safe(store, Ones(4), 4)
  {
    var k := Ones(4)[..4];
    assert Extends(Ones(8)[..8], k);
    assert |k| == 4;
    assert forall l :: l in store ==> |l| == 0 || (l == Ones(8)[..8] && |l| == 8 && l[4]);
    assert !Ones(4)[4];
  }

  /** ff00::/8 first and f000::/4 next: the bit after f000::/4 is zero, that of the stored
      prefix below it is one, and the child lands in the wrong slot. */
  method WrongSlot() returns (trie: Trie)
    ensures !WellFormed(trie.mem) && Represents(trie.mem, trie.store)
    ensures trie.store == map[[] := NULL, Ones(8)[..8] := 1, Ones(4)[..4] := 2]
  {
    trie := new Trie();
    var z, v := FreshCells(trie.mem);
    var _ := trie.Insert(Ones(8), 8, 1, z, v);
    z, v := FreshCells(trie.mem);
    UnsafeFour(trie.store);
    var _ := trie.Insert(Ones(4), 4, 2, z, v);
  }

  function Clamp(x: nat, low: nat, high: nat): nat
    requires low <= high
  {
    if x < low then low else if x > high then high else x
  }

  lemma OnesAgree(n: Node, i: nat, j: nat, from: nat)
    requires n.prefix == Ones(i) && n.plen <= WIDTH && from <= n.plen
    ensures Agrees(n, Ones(j), from) <==> Clamp(i, from, n.plen) == Clamp(j, from, n.plen)
  {
    var ci, cj := Clamp(i, from, n.plen), Clamp(j, from, n.plen);
    var s, t := n.prefix[from..n.plen], Ones(j)[from..n.plen];
    if ci == cj {
      assert s == t;
    } else {
      var b := (if ci < cj then ci else cj) - from;
      assert s[b] == n.prefix[b + from] && t[b] == Ones(j)[b + from];
      assert s[b] != t[b];
    }
  }

  function NewTree(): Memory {
    map[HEAD := Node(seq(WIDTH, _ => false), 0, Entry(NULL), NULL, NULL, NULL)]
  }

  /** After ff00::/8. */
  function AfterOne(): Memory {
    HangLeaf(NewTree(), HEAD, true, 2, Node(Ones(8), 8, Entry(1), HEAD, NULL, NULL))
  }

  /** And f000::/4. */
  function AfterTwo(): Memory {
    PushDown(AfterOne(), HEAD, true, 3, Node(Ones(4), 4, Entry(2), HEAD, NULL, NULL), false)
  }

  /** And f800::/8. */
  function AfterThree(): Memory {
    HangLeaf(AfterTwo(), 3, true, 4, Node(Ones(5), 8, Entry(3), 3, NULL, NULL))
  }

  /** And f000::/8. */
  function AfterFour(): Memory {
    Forked(AfterThree(), 3, false, Ones(4), 8, 4, 5, 6, 4)
  }

  lemma FirstInserted()
    ensures Inserted(NewTree(), AfterOne(), Ones(8), 8, 1, 2, 7)
  {
    assert InsertedBy(NewTree(), AfterOne(), [HEAD], Ones(8), 8, 1, 2, 7);
  }

  lemma SecondInserted()
    ensures Inserted(AfterOne(), AfterTwo(), Ones(4), 4, 2, 3, 7)
  {
    var m := AfterOne();
    assert m[HEAD].zero == NULL && m[HEAD].one == 2 && Child(m[HEAD], Ones(4)[0]) == 2;
    assert Ones(8)[..4] == Ones(4)[..4];
    assert PlantedAbove(m, AfterTwo(), HEAD, true, Ones(4), 4, 2, 3, 7, 4);
    assert InsertedBy(m, AfterTwo(), [HEAD], Ones(4), 4, 2, 3, 7);
  }

  lemma ThirdInserted()
    ensures Inserted(AfterTwo(), AfterThree(), Ones(5), 8, 3, 4, 7)
  {
    var m := AfterTwo();
    assert m[HEAD].zero == NULL && m[HEAD].one == 3 && m[3].zero == 2 && m[3].one == NULL;
    OnesAgree(m[3], 4, 5, 0);
    OnesAgree(m[2], 8, 5, 4);
    assert Child(m[3], Ones(5)[4]) == NULL;
    assert InsertedBy(m, AfterThree(), [HEAD, 3], Ones(5), 8, 3, 4, 7);
  }

  lemma FourthInserted()
    ensures Inserted(AfterThree(), AfterFour(), Ones(4), 8, 4, 5, 6)
  {
    var m := AfterThree();
    assert m[HEAD].zero == NULL && m[HEAD].one == 3 && m[3].zero == 2 && m[3].one == 4;
    OnesAgree(m[3], 4, 4, 0);
    OnesAgree(m[2], 8, 4, 4);
    OnesAgree(m[4], 5, 4, 4);
    assert Child(m[3], Ones(4)[4]) == 2 && Ones(8)[..4] == Ones(4)[..4] && Ones(8)[4] != Ones(4)[4];
    assert PlantedAbove(m, AfterFour(), 3, false, Ones(4), 8, 4, 5, 6, 4);
    assert InsertedBy(m, AfterFour(), [HEAD, 3], Ones(4), 8, 4, 5, 6);
  }

  /** The four insertions, each as the code does it. */
  lemma FourInsertions()
    ensures Inserted(NewTree(), AfterOne(), Ones(8), 8, 1, 2, 7)
    ensures Inserted(AfterOne(), AfterTwo(), Ones(4), 4, 2, 3, 7)
    ensures Inserted(AfterTwo(), AfterThree(), Ones(5), 8, 3, 4, 7)
    ensures Inserted(AfterThree(), AfterFour(), Ones(4), 8, 4, 5, 6)
  {
    FirstInserted();
    SecondInserted();
    ThirdInserted();
    FourthInserted();
  }

  lemma LookupWalk()
    ensures var m := AfterFour(); LookedUp(m, [HEAD, 3, 6], Ones(5)) && LastEntry(m, [HEAD, 3, 6]) == 3
  {
    var m := AfterFour();
    assert m[HEAD].zero == NULL && m[HEAD].one == 3 && m[3].zero == 6 && m[3].one == 4 && m[6].zero == 5 &&
      m[6].one == 2;
    OnesAgree(m[3], 4, 5, 0);
    OnesAgree(m[6], 4, 5, 4);
    OnesAgree(m[5], 4, 5, 4);
    OnesAgree(m[2], 8, 5, 4);
    assert [HEAD, 3, 6][..2] == [HEAD, 3];
  }

  /** After them f800::/8 is stored with data 3, but every lookup of f800:: gives the data
      of f000::/4: it goes to the branching node that has the same length as its parent. */
  lemma LostPrefix(path: seq<Addr>)
    requires LookedUp(AfterFour(), path, Ones(5))
    ensures var m := AfterFour();
      && 4 in m && Key(m[4]) == Ones(5)[..8] && m[4].data == Entry(3)
      && LastEntry(m, path) in m && m[LastEntry(m, path)].data == Entry(2)
  {
    LookupWalk();
    OneWalk(AfterFour(), path, [HEAD, 3, 6], Ones(5), 0);
  }
}
