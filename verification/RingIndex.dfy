/** Ring indices by masking: right for exactly the powers of two. */
module RingIndex {

  /** Bitwise and. */
  function And(a: nat, b: nat): (r: nat)
    ensures r <= b
    decreases a
  {
    if a == 0 || b == 0 then 0 else 2 * And(a / 2, b / 2) + (if a % 2 == 1 && b % 2 == 1 then 1 else 0)
  }

  /** The slot of index `v` in a ring of `capacity` places. */
  function Mask(capacity: nat, v: nat): nat
    requires capacity >= 1
  {
    And(v, capacity - 1)
  }

  ghost predicate PowerOfTwo(n: nat) {
    n == 1 || (n >= 2 && n % 2 == 0 && PowerOfTwo(n / 2))
  }

  lemma {:induction false} MaskIsModulo(capacity: nat, v: nat)
    requires PowerOfTwo(capacity)
    ensures Mask(capacity, v) == v % capacity
    decreases capacity
  {
    if capacity >= 2 {
      var c := capacity / 2;
      MaskIsModulo(c, v / 2);
      HalfModulo(v, c);
      assert (capacity - 1) / 2 == c - 1 && (capacity - 1) % 2 == 1;
    } else {
      assert v % 1 == 0;
    }
  }

  lemma HalfModulo(v: nat, c: nat)
    requires c >= 1
    ensures v % (2 * c) == 2 * ((v / 2) % c) + v % 2
  {
    var q, r := (v / 2) / c, (v / 2) % c;
    assert v / 2 == q * c + r;
    assert v == q * (2 * c) + (2 * r + v % 2);
    ModuloIs(v, 2 * c, q, 2 * r + v % 2);
  }

  lemma ModuloIs(v: nat, n: nat, q: nat, r: nat)
    requires n >= 1 && v == q * n + r && r < n
    ensures v % n == r
  {
    var k := v / n - q;
    assert v == (v / n) * n + v % n;
    assert k * n == r - v % n;
    MultipleOf(k, n);
  }

  lemma MultipleOf(k: int, n: nat)
    requires n >= 1
    ensures (k >= 1 ==> k * n >= n) && (k <= -1 ==> k * n + n <= 0) && (k == 0 ==> k * n == 0)
  {
    if k >= 1 {
      assert (k - 1) * n >= 0;
    } else if k <= -1 {
      assert (-k - 1) * n >= 0;
    }
  }

  /** Two indices of one window share a slot. */
  ghost predicate Collides(capacity: nat, i: nat, j: nat)
    requires capacity >= 1
  {
    i < j < capacity && Mask(capacity, i) == Mask(capacity, j)
  }

  lemma {:induction false} OthersCollide(capacity: nat) returns (i: nat, j: nat)
    requires capacity >= 1 && !PowerOfTwo(capacity)
    ensures Collides(capacity, i, j)
    decreases capacity
  {
    if capacity % 2 == 1 {
      i, j := 0, 1;
      assert And(0, (capacity - 1) / 2) == 0;
    } else {
      var c := capacity / 2;
      var x, y := OthersCollide(c);
      i, j := 2 * x, 2 * y;
      assert (capacity - 1) / 2 == c - 1;
      AndDoubled(x, c - 1, capacity - 1);
      AndDoubled(y, c - 1, capacity - 1);
    }
  }

  lemma AndDoubled(x: nat, b: nat, bb: nat)
    requires bb == 2 * b + 1
    ensures And(2 * x, bb) == 2 * And(x, b)
  {
    if x > 0 {
      assert (2 * x) / 2 == x && bb / 2 == b && (2 * x) % 2 == 0;
    } else {
      assert And(0, b) == 0;
    }
  }

  /** Masking keeps the places of a full ring apart exactly when the capacity is a power
      of two. */
  lemma MaskWorksIff(capacity: nat)
    requires capacity >= 1
    ensures PowerOfTwo(capacity) <==>
      forall i: nat, j: nat :: i < j < capacity ==> Mask(capacity, i) != Mask(capacity, j)
  {
    if PowerOfTwo(capacity) {
      forall i: nat, j: nat | i < j < capacity ensures Mask(capacity, i) != Mask(capacity, j) {
        MaskIsModulo(capacity, i);
        MaskIsModulo(capacity, j);
        ModuloIs(i, capacity, 0, i);
        ModuloIs(j, capacity, 0, j);
      }
    } else {
      var i, j := OthersCollide(capacity);
    }
  }

  /** Indices closer than the capacity have slots of their own. */
  lemma SlotsApart(capacity: nat, i: nat, j: nat)
    requires PowerOfTwo(capacity) && i < j < i + capacity
    ensures Mask(capacity, i) != Mask(capacity, j)
  {
    MaskIsModulo(capacity, i);
    MaskIsModulo(capacity, j);
    SameRemainder(i, j, capacity);
  }

  lemma SameRemainder(i: nat, j: nat, n: nat)
    requires n >= 1 && i < j < i + n
    ensures i % n != j % n
  {
    var k, d := j / n - i / n, j % n - i % n;
    assert i == (i / n) * n + i % n && j == (j / n) * n + j % n;
    assert j - i == k * n + d;
    MultipleOf(k, n);
  }

  /** A counter that wraps around at a multiple of the capacity is in the same slot. */
  lemma {:induction false} WrapSlot(capacity: nat, word: nat, v: nat)
    requires PowerOfTwo(capacity) && PowerOfTwo(word) && capacity <= word
    ensures Mask(capacity, v % word) == Mask(capacity, v)
    decreases capacity
  {
    MaskIsModulo(capacity, v);
    MaskIsModulo(capacity, v % word);
    if capacity >= 2 {
      var c, w := capacity / 2, word / 2;
      HalfModulo(v, c);
      HalfModulo(v, w);
      HalfModulo(v % word, c);
      assert (v % word) / 2 == (v / 2) % w && (v % word) % 2 == v % 2;
      WrapSlot(c, w, v / 2);
      MaskIsModulo(c, v / 2);
      MaskIsModulo(c, (v / 2) % w);
    }
  }

  lemma {:induction false} ProductIsPower(a: nat, b: nat)
    requires PowerOfTwo(a) && PowerOfTwo(b)
    ensures PowerOfTwo(a * b)
    decreases a
  {
    if a == 1 {
      assert 1 * b == b;
    } else {
      var c := a / 2;
      ProductIsPower(c, b);
      var m := c * b;
      assert a * b == 2 * m;
      assert m >= 1;
    }
  }

  /** The machine word in which the counters wrap around. */
  const WORD: nat := 0x1_0000_0000_0000_0000

  lemma WordIsPower()
    ensures PowerOfTwo(WORD)
  {
    assert PowerOfTwo(2) && PowerOfTwo(4);
    ProductIsPower(4, 4);
    ProductIsPower(16, 16);
    ProductIsPower(256, 256);
    ProductIsPower(0x1_0000, 0x1_0000);
    ProductIsPower(0x1_0000_0000, 0x1_0000_0000);
  }

  /** A counter as it is kept in a machine word. */
  function Wrap(v: nat): nat {
    v % WORD
  }

  lemma WrapNext(v: nat)
    ensures (Wrap(v) + 1) % WORD == Wrap(v + 1)
  {
  }
}
