/** Doubly-linked circular lists with a dummy head, as the resolver threads its queries
    through them: every operation on pointers is one on sequences. */
module CircularList {

  type Addr = nat

  const NULL: Addr := 0

  datatype Link = Link(prev: Addr, next: Addr)

  type Memory = map<Addr, Link>

  ghost predicate NoDup(s: seq<Addr>) {
    s != [] ==> s[0] !in s[1..] && NoDup(s[1..])
  }

  ghost predicate Linked(mem: Memory, a: Addr, b: Addr) {
    a in mem && b in mem && a != NULL && b != NULL && mem[a].next == b && mem[b].prev == a
  }

  /** From `a` the links lead over the nodes `s` to `b`, and back. */
  ghost predicate Seg(mem: Memory, a: Addr, s: seq<Addr>, b: Addr)
    decreases s
  {
    if s == [] then Linked(mem, a, b) else Linked(mem, a, s[0]) && Seg(mem, s[0], s[1..], b)
  }

  /** The list at `head` has the nodes `s`. */
  ghost predicate IsList(mem: Memory, head: Addr, s: seq<Addr>) {
    Seg(mem, head, s, head) && head !in s && NoDup(s)
  }

  function Last(a: Addr, s: seq<Addr>): Addr {
    if s == [] then a else s[|s|-1]
  }

  function First(s: seq<Addr>, b: Addr): Addr {
    if s == [] then b else s[0]
  }

  lemma {:induction false} SegEnds(mem: Memory, a: Addr, s: seq<Addr>, b: Addr)
    requires Seg(mem, a, s, b)
    ensures a in mem && b in mem && a != NULL && b != NULL && mem[a].next == First(s, b) && mem[b].prev == Last(a, s)
    ensures forall x :: x in s ==> x in mem && x != NULL
    decreases s
  {
    if s != [] {
      SegEnds(mem, s[0], s[1..], b);
      assert s == [s[0]] + s[1..];
    }
  }

  lemma {:induction false} SegSplit(mem: Memory, a: Addr, s: seq<Addr>, x: Addr, t: seq<Addr>, b: Addr)
    ensures Seg(mem, a, s + [x] + t, b) <==> Seg(mem, a, s, x) && Seg(mem, x, t, b)
    decreases s
  {
    var all := s + [x] + t;
    if s == [] {
      assert all[0] == x && all[1..] == t;
    } else {
      assert all[0] == s[0] && all[1..] == s[1..] + [x] + t;
      SegSplit(mem, s[0], s[1..], x, t, b);
    }
  }

  /** Links that were not written to are still there. */
  lemma {:induction false} SegKept(mem: Memory, mem': Memory, a: Addr, s: seq<Addr>, b: Addr)
    requires Seg(mem, a, s, b) && a in mem && a in mem' && mem'[a].next == mem[a].next && b in mem && b in mem'
    requires mem'[b].prev == mem[b].prev
    requires forall x :: x in s ==> x in mem && x in mem' && mem'[x] == mem[x]
    ensures Seg(mem', a, s, b)
    decreases s
  {
    if s != [] {
      assert s[0] in s;
      SegEnds(mem, s[0], s[1..], b);
      SegKept(mem, mem', s[0], s[1..], b);
    }
  }

  /** The last link of a segment leads elsewhere. */
  lemma {:induction false} SegTurned(mem: Memory, mem': Memory, a: Addr, s: seq<Addr>, b: Addr, x: Addr)
    requires Seg(mem, a, s, b) && NoDup(s) && a !in s && Linked(mem', Last(a, s), x)
    requires s != [] ==> a in mem && a in mem' && mem'[a].next == mem[a].next
    requires forall y :: y in s ==>
      y in mem && y in mem' && mem'[y].prev == mem[y].prev && (y != Last(a, s) ==> mem'[y].next == mem[y].next)
    ensures Seg(mem', a, s, x)
    decreases s
  {
    if s != [] {
      assert s[0] in s;
      if |s| == 1 {
        assert s[1..] == [];
      } else {
        assert s[0] != Last(a, s) by {
          assert s[1..][|s|-2] == Last(a, s);
        }
        assert Last(s[0], s[1..]) == Last(a, s);
        SegTurned(mem, mem', s[0], s[1..], b, x);
      }
    }
  }

  lemma {:induction false} NoDupParts(s: seq<Addr>, t: seq<Addr>)
    ensures NoDup(s + t) <==> NoDup(s) && NoDup(t) && forall x :: x in s ==> x !in t
    decreases s
  {
    if s == [] {
      assert s + t == t;
    } else {
      assert (s + t)[0] == s[0] && (s + t)[1..] == s[1..] + t;
      NoDupParts(s[1..], t);
      assert s == [s[0]] + s[1..];
    }
  }

  class Lists {
    var mem: Memory

    /** A new empty list. */
    method InitHead(head: Addr)
      requires head != NULL
      modifies this
      ensures IsList(mem, head, []) && mem == old(mem)[head := Link(head, head)]
    {
      mem := mem[head := Link(head, head)];
    }

    method IsEmpty(head: Addr, ghost s: seq<Addr>) returns (empty: bool)
      requires IsList(mem, head, s)
      ensures head in mem && (empty <==> s == [])
    {
      SegEnds(mem, head, s, head);
      assert s != [] ==> s[0] in s;
      empty := mem[head].next == head && mem[head].prev == head;
    }

    /** Inserts a node before another: before the head, that is at the tail. */
    method InsertBefore(node: Addr, before: Addr, ghost head: Addr, ghost s: seq<Addr>, ghost t: seq<Addr>)
      requires IsList(mem, head, s + t) && before == First(t, head) && node != head && node !in s + t && node != NULL
      modifies this
      ensures IsList(mem, head, s + [node] + t)
      ensures forall x :: x in old(mem) && x != head && x !in s + [node] + t ==> x in mem && mem[x] == old(mem)[x]
    {
      ghost var m := mem;
      InsertFacts(mem, head, s, t);
      var p := mem[before].prev;
      mem := mem[node := Link(p, before)];
      mem := mem[p := mem[p].(next := node)];
      mem := mem[before := mem[before].(prev := node)];
      Inserted(m, mem, head, s, node, t);
    }

    /** Removes a node from the list it is in; a node that is in none is left alone. */
    method Remove(node: Addr, ghost head: Addr, ghost s: seq<Addr>, ghost t: seq<Addr>)
      requires node in mem && (mem[node].next != NULL ==> IsList(mem, head, s + [node] + t))
      modifies this
      ensures old(mem)[node].next == NULL ==> mem == old(mem)
      ensures old(mem)[node].next != NULL ==> IsList(mem, head, s + t) && node in mem && mem[node] == Link(NULL, NULL)
      ensures forall x :: x in old(mem) && x != head && x !in s + [node] + t ==> x in mem && mem[x] == old(mem)[x]
    {
      if mem[node].next != NULL {
        ghost var m := mem;
        RemoveFacts(mem, head, s, node, t);
        var p, q := mem[node].prev, mem[node].next;
        mem := mem[p := mem[p].(next := q)];
        mem := mem[q := mem[q].(prev := p)];
        mem := mem[node := Link(NULL, NULL)];
        Removed(m, mem, head, s, node, t);
      }
    }

    /** Two lists exchange their nodes. */
    method SwapLists(a: Addr, b: Addr, ghost s: seq<Addr>, ghost t: seq<Addr>)
      requires IsList(mem, a, s) && IsList(mem, b, t) && a != b && a !in t && b !in s && forall x :: x in s ==> x !in t
      modifies this
      ensures IsList(mem, a, t) && IsList(mem, b, s)
    {
      var aEmpty := IsEmpty(a, s);
      var bEmpty := IsEmpty(b, t);
      HeadFacts(mem, a, s);
      HeadFacts(mem, b, t);
      var oldA, oldB := mem[a], mem[b];
      ghost var m := mem;
      if aEmpty {
        InitHead(b);
      } else {
        mem := mem[b := oldA];
        mem := mem[oldA.next := mem[oldA.next].(prev := b)];
        mem := mem[oldA.prev := mem[oldA.prev].(next := b)];
      }
      Rehead(m, mem, a, b, s);
      ghost var m1 := mem;
      OtherKept(m, m1, b, t, a);
      if bEmpty {
        InitHead(a);
      } else {
        mem := mem[a := oldB];
        mem := mem[oldB.next := mem[oldB.next].(prev := a)];
        mem := mem[oldB.prev := mem[oldB.prev].(next := a)];
      }
      Rehead(m, mem, b, a, t);
      SegKept(m1, mem, b, s, b);
    }
  }

  lemma HeadFacts(mem: Memory, head: Addr, s: seq<Addr>)
    requires IsList(mem, head, s)
    ensures head in mem && head != NULL && mem[head] == Link(Last(head, s), First(s, head))
    ensures forall x :: x in s ==> x in mem && x != NULL
    ensures s != [] ==> First(s, head) in s && Last(head, s) in s
  {
    SegEnds(mem, head, s, head);
  }

  /** The nodes of the other list have not changed. */
  lemma OtherKept(mem: Memory, mem': Memory, b: Addr, t: seq<Addr>, a: Addr)
    requires forall x :: x in t ==> x in mem && x in mem' && mem'[x] == mem[x]
    ensures t != [] ==> First(t, b) in t && Last(b, t) in t
  {
  }

  /** The nodes `s` of the list at `a`, once `b` has taken the place of `a`. */
  lemma Rehead(mem: Memory, mem': Memory, a: Addr, b: Addr, s: seq<Addr>)
    requires IsList(mem, a, s) && b != NULL && b !in s && b in mem'
    requires mem'[b] == if s == [] then Link(b, b) else Link(Last(a, s), First(s, a))
    requires forall x :: x in s ==> (x in mem && x in mem'
      && mem'[x] == Link(if x == First(s, a) then b else mem[x].prev, if x == Last(a, s) then b else mem[x].next))
    ensures IsList(mem', b, s)
  {
    if s != [] {
      var front, last := s[..|s|-1], s[|s|-1];
      assert s == front + [last] && First(s, a) in s && last in s;
      SegEnds(mem, s[0], s[1..], a);
      assert forall y :: y in s[1..] ==> y in s && y != s[0];
      SegTurned(mem, mem', s[0], s[1..], a, b);
    }
  }

  lemma Distinct(head: Addr, s: seq<Addr>, node: Addr, t: seq<Addr>)
    requires head !in s + [node] + t && NoDup(s + [node] + t)
    ensures node != head && node !in s && node !in t && head !in s && head !in t
    ensures NoDup(s) && NoDup(t) && forall x :: x in s ==> x !in t
  {
    var u := [node] + t;
    assert s + [node] + t == s + u;
    NoDupParts(s, u);
    assert u[0] == node && u[1..] == t;
    InBoth(head, s, u);
    InBoth(head, [node], t);
    InBoth(node, [node], t);
    forall x | x in s ensures x !in t {
      InBoth(x, [node], t);
    }
  }

  lemma InBoth(x: Addr, s: seq<Addr>, t: seq<Addr>)
    ensures x in s + t <==> x in s || x in t
  {
  }

  lemma RemoveFacts(mem: Memory, head: Addr, s: seq<Addr>, node: Addr, t: seq<Addr>)
    requires IsList(mem, head, s + [node] + t)
    ensures node in mem && node != head && node != NULL && node !in s && node !in t && head !in s && head !in t
    ensures mem[node] == Link(Last(head, s), First(t, head)) && head in mem
    ensures Last(head, s) in mem && First(t, head) in mem && Last(head, s) != NULL && First(t, head) != NULL
    ensures Seg(mem, head, s, node) && Seg(mem, node, t, head) && NoDup(s) && NoDup(t) && forall x :: x in s ==> x !in t
    ensures (Last(head, s) == head || Last(head, s) in s) && (First(t, head) == head || First(t, head) in t)
    ensures forall x :: x in s || x in t ==> x in mem
  {
    Distinct(head, s, node, t);
    SegSplit(mem, head, s, node, t, head);
    SegEnds(mem, head, s, node);
    SegEnds(mem, node, t, head);
  }

  lemma Removed(mem: Memory, mem': Memory, head: Addr, s: seq<Addr>, node: Addr, t: seq<Addr>)
    requires IsList(mem, head, s + [node] + t) && node in mem
    requires var p, q := Last(head, s), First(t, head);
      && p in mem && q in mem && mem'.Keys == mem.Keys
      && mem'[p] == (if p == q then Link(p, p) else mem[p].(next := q))
      && mem'[q] == (if p == q then Link(p, p) else mem[q].(prev := p))
      && forall x :: x in mem && x != node && x != p && x != q ==> mem'[x] == mem[x]
    ensures IsList(mem', head, s + t)
  {
    var p, q := Last(head, s), First(t, head);
    RemoveFacts(mem, head, s, node, t);
    SegEnds(mem, head, s, node);
    SegTurned(mem, mem', head, s, node, q);
    if t == [] {
      assert s + t == s;
    } else {
      assert t == [t[0]] + t[1..];
      SegEnds(mem, t[0], t[1..], head);
      SegKept(mem, mem', t[0], t[1..], head);
      SegSplit(mem', head, s, t[0], t[1..], head);
      assert s + t == s + [t[0]] + t[1..];
    }
    NoDupParts(s, t);
  }

  lemma InsertFacts(mem: Memory, head: Addr, s: seq<Addr>, t: seq<Addr>)
    requires IsList(mem, head, s + t)
    ensures head in mem && First(t, head) in mem && Last(head, s) in mem && mem[First(t, head)].prev == Last(head, s)
    ensures Last(head, s) == head || Last(head, s) in s
    ensures Seg(mem, head, s, First(t, head)) && (t != [] ==> Seg(mem, t[0], t[1..], head))
    ensures NoDup(s) && NoDup(t) && forall x :: x in s ==> x !in t
  {
    SegEnds(mem, head, s + t, head);
    NoDupParts(s, t);
    if t == [] {
      assert s + t == s;
      SegEnds(mem, head, s, head);
    } else {
      assert s + t == s + [t[0]] + t[1..];
      SegSplit(mem, head, s, t[0], t[1..], head);
      SegEnds(mem, head, s, t[0]);
    }
  }

  lemma Inserted(mem: Memory, mem': Memory, head: Addr, s: seq<Addr>, node: Addr, t: seq<Addr>)
    requires IsList(mem, head, s + t) && node != head && node !in s + t && node != NULL
    requires var p, b := Last(head, s), First(t, head);
      && p in mem && b in mem && mem'.Keys == mem.Keys + {node} && mem'[node] == Link(p, b)
      && mem'[p] == (if p == b then Link(node, node) else mem[p].(next := node))
      && mem'[b] == (if p == b then Link(node, node) else mem[b].(prev := node))
      && forall x :: x in mem && x != node && x != p && x != b ==> mem'[x] == mem[x]
    ensures IsList(mem', head, s + [node] + t)
  {
    var p, b := Last(head, s), First(t, head);
    InsertFacts(mem, head, s, t);
    SegEnds(mem, head, s, b);
    assert s != [] ==> p in s;
    assert t != [] ==> b in t;
    SegTurned(mem, mem', head, s, b, node);
    if t != [] {
      assert t == [t[0]] + t[1..];
      SegEnds(mem, t[0], t[1..], head);
      SegKept(mem, mem', t[0], t[1..], head);
    }
    assert Seg(mem', node, t, head);
    SegSplit(mem', head, s, node, t, head);
    NoDupParts([node], t);
    NoDupParts(s, [node] + t);
    assert s + [node] + t == s + ([node] + t);
  }
}
