/** Bucketed lists of query ids: the query-id table, the timing wheel and the
    per-server lists are all of this form. */
module QueryIndex {

  type Id = nat
  type Buckets = map<nat, seq<Id>>

  ghost predicate NoDup(s: seq<Id>) {
    forall i, j :: 0 <= i < j < |s| ==> s[i] != s[j]
  }

  function Without(s: seq<Id>, x: Id): seq<Id> {
    if s == [] then [] else Without(s[..|s|-1], x) + if s[|s|-1] == x then [] else [s[|s|-1]]
  }

  /** Inserts at the tail of a list. */
  function Link(ix: Buckets, b: nat, x: Id): Buckets
    requires b in ix
  {
    ix[b := ix[b] + [x]]
  }

  /** Removes from whatever list the id is in. */
  function Unlink(ix: Buckets, x: Id): Buckets {
    map b | b in ix :: Without(ix[b], x)
  }

  /** The lists are numbered below `n`, and each id is in the one list `place` says,
      once, and in no other. */
  ghost predicate Indexed(ix: Buckets, n: nat, place: map<Id, nat>) {
    && (forall b: nat :: b in ix <==> b < n)
    && (forall b: nat :: b in ix ==> NoDup(ix[b]))
    && (forall b: nat, x: Id {:trigger x in ix[b]} :: b in ix ==> (x in ix[b] <==> x in place && place[x] == b))
    && (forall x :: x in place ==> place[x] < n)
  }

  lemma {:induction false} WithoutIs(s: seq<Id>, x: Id)
    ensures forall y :: y in Without(s, x) <==> y in s && y != x
    ensures NoDup(s) ==> NoDup(Without(s, x))
    ensures x !in s ==> Without(s, x) == s
    decreases s
  {
    if s != [] {
      var r := s[..|s|-1];
      assert s == r + [s[|s|-1]];
      WithoutIs(r, x);
      if NoDup(s) {
        assert s[|s|-1] !in r;
      }
    }
  }

  lemma {:induction false} WithoutLast(s: seq<Id>, t: seq<Id>, x: Id)
    ensures Without(s + t, x) == Without(s, x) + Without(t, x)
    decreases t
  {
    if t == [] {
      assert s + t == s;
    } else {
      var t' := t[..|t|-1];
      assert (s + t)[..|s + t|-1] == s + t';
      WithoutLast(s, t', x);
    }
  }

  lemma LinkIndexed(ix: Buckets, n: nat, place: map<Id, nat>, b: nat, x: Id)
    requires Indexed(ix, n, place) && b < n && x !in place
    ensures b in ix && Indexed(Link(ix, b, x), n, place[x := b])
  {
    assert b in ix && x !in ix[b];
  }

  lemma UnlinkIndexed(ix: Buckets, n: nat, place: map<Id, nat>, x: Id)
    requires Indexed(ix, n, place)
    ensures Indexed(Unlink(ix, x), n, place - {x})
  {
    var ix' := Unlink(ix, x);
    forall b | b in ix'
      ensures NoDup(ix'[b])
      ensures forall y :: y in ix'[b] <==> y in place - {x} && (place - {x})[y] == b
    {
      WithoutIs(ix[b], x);
    }
  }
}
