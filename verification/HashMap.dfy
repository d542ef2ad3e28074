/** The hash map whose entries are threaded through two lists: their bucket's and that of
    all keys. */
module HashMaps {
  import opened QueryIndex
  import opened RingIndex

  type Key = int
  type Elem = int
  type Addr = nat

  const NULL: Elem := 0
  const HASHMAP_DEFAULT_SIZE: nat := 16

  datatype Entry = Entry(key: Key, elem: Elem)

  type Memory = map<Addr, Entry>

  /** The bucket of a key. */
  function BucketOf(hash: Key -> nat, size: nat, key: Key): (b: nat)
    requires size >= 1
    ensures b < size
  {
    Mask(size, hash(key))
  }

  /** The entries on the key list, each once and each with a key of its own. */
  ghost predicate KeysOK(entries: Memory, keys: seq<Addr>) {
    KeysOKParts(entries, keys) == true
  }

  ghost predicate KeysOKParts(entries: Memory, keys: seq<Addr>) {
    && NoDup(keys) && (forall a :: a in keys <==> a in entries)
    && (forall a, b :: a in entries && b in entries && entries[a].key == entries[b].key ==> a == b)
  }

  /** A bucket threads exactly the entries that belong there, each once. */
  ghost predicate BucketOK(entries: Memory, hash: Key -> nat, size: nat, b: nat, bucket: seq<Addr>)
    requires size >= 1
  {
    && NoDup(bucket)
    && forall a {:trigger a in bucket} :: a in bucket <==> a in entries && BucketOf(hash, size, entries[a].key) == b
  }

  ghost predicate BucketsOK(entries: Memory, hash: Key -> nat, size: nat, buckets: seq<seq<Addr>>) {
    BucketsOKParts(entries, hash, size, buckets) == true
  }

  ghost predicate BucketsOKParts(entries: Memory, hash: Key -> nat, size: nat, buckets: seq<seq<Addr>>) {
    size >= 1 && |buckets| == size && forall b :: 0 <= b < size ==> BucketOK(entries, hash, size, b, buckets[b])
  }

  /** The keys in order of insertion. */
  ghost function KeyOrder(entries: Memory, keys: seq<Addr>): (s: seq<Key>)
    ensures |s| == |keys|
  {
    if keys == [] then []
    else KeyOrder(entries, keys[..|keys|-1]) + [if keys[|keys|-1] in entries then entries[keys[|keys|-1]].key else 0]
  }

  lemma {:induction false} SameOrder(entries: Memory, entries': Memory, keys: seq<Addr>)
    requires forall a :: a in keys ==> a in entries && a in entries' && entries[a].key == entries'[a].key
    ensures KeyOrder(entries, keys) == KeyOrder(entries', keys)
  {
    if keys != [] {
      assert keys == keys[..|keys|-1] + [keys[|keys|-1]];
      SameOrder(entries, entries', keys[..|keys|-1]);
    }
  }

  lemma OrderNext(entries: Memory, keys: seq<Addr>, a: Addr)
    requires a in entries
    ensures KeyOrder(entries, keys + [a]) == KeyOrder(entries, keys) + [entries[a].key]
  {
    assert (keys + [a])[..|keys|] == keys;
  }

  /** What the map holds. */
  ghost predicate Holds(entries: Memory, model: map<Key, Elem>) {
    HoldsParts(entries, model) == true
  }

  ghost predicate HoldsParts(entries: Memory, model: map<Key, Elem>) {
    && (forall a :: a in entries ==> entries[a].key in model && model[entries[a].key] == entries[a].elem)
    && (forall k {:trigger HasKey(entries, k)} :: k in model ==> HasKey(entries, k))
  }

  ghost predicate HasKey(entries: Memory, k: Key) {
    exists a :: a in entries && entries[a].key == k
  }

  lemma SetElem(entries: Memory, hash: Key -> nat, size: nat, buckets: seq<seq<Addr>>, keys: seq<Addr>,
                model: map<Key, Elem>, a: Addr, elem: Elem)
    requires KeysOK(entries, keys) && BucketsOK(entries, hash, size, buckets) && Holds(entries, model) && a in entries
    ensures var entries' := entries[a := entries[a].(elem := elem)];
      && KeysOK(entries', keys) && BucketsOK(entries', hash, size, buckets)
      && Holds(entries', model[entries[a].key := elem])
      && KeyOrder(entries', keys) == KeyOrder(entries, keys)
  {
    var entries' := entries[a := entries[a].(elem := elem)];
    forall b | 0 <= b < size ensures BucketOK(entries', hash, size, b, buckets[b]) {
      assert BucketOK(entries, hash, size, b, buckets[b]);
    }
    HoldsSet(entries, model, a, Entry(entries[a].key, elem));
    SameOrder(entries, entries', keys);
  }

  lemma HoldsSet(entries: Memory, model: map<Key, Elem>, a: Addr, e: Entry)
    requires Holds(entries, model) && (forall b :: b in entries && b != a ==> entries[b].key != e.key)
    requires (a in entries ==> entries[a].key == e.key)
    ensures Holds(entries[a := e], model[e.key := e.elem])
  {
    var entries', model' := entries[a := e], model[e.key := e.elem];
    forall k | k in model' ensures HasKey(entries', k) {
      if k == e.key {
        assert entries'[a].key == k;
      } else {
        assert HasKey(entries, k);
        var b :| b in entries && entries[b].key == k;
        assert entries'[b].key == k;
      }
    }
  }

  lemma AddToBucket(entries: Memory, hash: Key -> nat, size: nat, buckets: seq<seq<Addr>>, a: Addr, e: Entry)
    requires BucketsOK(entries, hash, size, buckets) && size >= 1 && a !in entries
    ensures var b := BucketOf(hash, size, e.key);
      b < |buckets| && BucketsOK(entries[a := e], hash, size, buckets[b := buckets[b] + [a]])
  {
    var entries', b := entries[a := e], BucketOf(hash, size, e.key);
    var buckets' := buckets[b := buckets[b] + [a]];
    forall c | 0 <= c < size ensures BucketOK(entries', hash, size, c, buckets'[c]) {
      assert BucketOK(entries, hash, size, c, buckets[c]);
      assert a !in buckets[c];
    }
  }

  lemma AddToKeys(entries: Memory, keys: seq<Addr>, model: map<Key, Elem>, a: Addr, e: Entry)
    requires KeysOK(entries, keys) && Holds(entries, model) && a !in entries && !HasKey(entries, e.key)
    ensures var entries' := entries[a := e];
      && KeysOK(entries', keys + [a]) && Holds(entries', model[e.key := e.elem])
      && KeyOrder(entries', keys + [a]) == KeyOrder(entries, keys) + [e.key]
  {
    var entries' := entries[a := e];
    assert a !in keys;
    assert forall x :: x in entries ==> entries[x].key != e.key;
    HoldsSet(entries, model, a, e);
    SameOrder(entries, entries', keys);
    OrderNext(entries', keys, a);
  }

  function WithoutKey(s: seq<Key>, k: Key): seq<Key> {
    if s == [] then [] else WithoutKey(s[..|s|-1], k) + if s[|s|-1] == k then [] else [s[|s|-1]]
  }

  lemma {:induction false} WithoutAbsent(s: seq<Key>, k: Key)
    requires k !in s
    ensures WithoutKey(s, k) == s
    decreases |s|
  {
    if s != [] {
      var r := s[..|s|-1];
      assert s == r + [s[|s|-1]];
      WithoutAbsent(r, k);
    }
  }

  /** A key that is there once goes, and what was before it and behind it stays. */
  lemma {:induction false} WithoutOne(p: seq<Key>, k: Key, q: seq<Key>)
    requires k !in p && k !in q
    ensures WithoutKey(p + [k] + q, k) == p + q
    decreases |q|
  {
    var s := p + [k] + q;
    if q == [] {
      assert s[..|s|-1] == p && p + q == p;
      WithoutAbsent(p, k);
    } else {
      var r, x := q[..|q|-1], q[|q|-1];
      assert s[..|s|-1] == p + [k] + r && x in q;
      assert p + q == (p + r) + [x];
      WithoutOne(p, k, r);
    }
  }

  lemma {:induction false} OrderWithout(entries: Memory, keys: seq<Addr>, a: Addr)
    requires NoDup(keys) && a in entries && forall x :: x in keys ==> x in entries
    requires forall x, y :: x in entries && y in entries && entries[x].key == entries[y].key ==> x == y
    ensures KeyOrder(entries - {a}, Without(keys, a)) == WithoutKey(KeyOrder(entries, keys), entries[a].key)
    ensures |Without(keys, a)| == |keys| - if a in keys then 1 else 0
    decreases keys
  {
    if keys != [] {
      var front, last := keys[..|keys|-1], keys[|keys|-1];
      assert keys == front + [last];
      OnceAtEnd(keys);
      OrderWithout(entries, front, a);
      if last != a {
        OrderNext(entries - {a}, Without(front, a), last);
      } else {
        assert Without(keys, a) == Without(front, a);
      }
    }
  }

  lemma OnceAtEnd(keys: seq<Addr>)
    requires NoDup(keys) && keys != []
    ensures keys[|keys|-1] !in keys[..|keys|-1] && NoDup(keys[..|keys|-1])
  {
  }

  lemma RemoveFromBucket(entries: Memory, hash: Key -> nat, size: nat, buckets: seq<seq<Addr>>, a: Addr)
    requires BucketsOK(entries, hash, size, buckets) && size >= 1 && a in entries
    ensures var b := BucketOf(hash, size, entries[a].key);
      b < |buckets| && BucketsOK(entries - {a}, hash, size, buckets[b := Without(buckets[b], a)])
  {
    var entries', b := entries - {a}, BucketOf(hash, size, entries[a].key);
    var buckets' := buckets[b := Without(buckets[b], a)];
    WithoutIs(buckets[b], a);
    forall c | 0 <= c < size ensures BucketOK(entries', hash, size, c, buckets'[c]) {
      assert BucketOK(entries, hash, size, c, buckets[c]);
    }
  }

  lemma RemoveFromKeys(entries: Memory, keys: seq<Addr>, a: Addr)
    requires KeysOK(entries, keys) && a in entries
    ensures KeysOK(entries - {a}, Without(keys, a))
  {
    WithoutIs(keys, a);
  }

  lemma RemovedOrder(entries: Memory, keys: seq<Addr>, a: Addr)
    requires KeysOK(entries, keys) && a in entries
    ensures KeyOrder(entries - {a}, Without(keys, a)) == WithoutKey(KeyOrder(entries, keys), entries[a].key)
    ensures |Without(keys, a)| + 1 == |keys|
  {
    OrderWithout(entries, keys, a);
  }

  lemma OneLess(keys: seq<Addr>, a: Addr)
    requires NoDup(keys) && a in keys
    ensures |Without(keys, a)| + 1 == |keys|
    decreases keys
  {
    var front, last := keys[..|keys|-1], keys[|keys|-1];
    assert keys == front + [last];
    OnceAtEnd(keys);
    WithoutIs(front, a);
    if last != a {
      OneLess(front, a);
    }
  }

  lemma HoldsWithout(entries: Memory, keys: seq<Addr>, model: map<Key, Elem>, a: Addr)
    requires KeysOK(entries, keys) && Holds(entries, model) && a in entries
    ensures Holds(entries - {a}, model - {entries[a].key})
  {
    var entries', model' := entries - {a}, model - {entries[a].key};
    forall k | k in model' ensures HasKey(entries', k) {
      assert HasKey(entries, k);
      var c :| c in entries && entries[c].key == k;
      assert entries'[c].key == k;
    }
  }

  /** A bucket has the key's entry if any has. */
  lemma InItsBucket(entries: Memory, hash: Key -> nat, size: nat, buckets: seq<seq<Addr>>, key: Key)
    requires BucketsOK(entries, hash, size, buckets)
    ensures var b := BucketOf(hash, size, key);
      && (forall a :: a in buckets[b] ==> a in entries)
      && ((forall a :: a in buckets[b] && a in entries ==> entries[a].key != key) ==> !HasKey(entries, key))
  {
    var b := BucketOf(hash, size, key);
    assert BucketOK(entries, hash, size, b, buckets[b]);
  }

  class HashMap {
    const hash: Key -> nat
    var size: nat
    var elems: nat
    var entries: Memory
    var table: seq<seq<Addr>>
    var keys: seq<Addr>
    ghost var model: map<Key, Elem>

    ghost predicate Valid()
      reads this
    {
      && PowerOfTwo(size) && size >= HASHMAP_DEFAULT_SIZE
      && KeysOK(entries, keys) && BucketsOK(entries, hash, size, table) && Holds(entries, model)
      && elems == |keys| <= size / 4 * 3 + 1
    }

    /** The keys in order of insertion. */
    ghost function Order(): seq<Key>
      reads this
      requires Valid()
    {
      KeyOrder(entries, keys)
    }

    constructor (h: Key -> nat)
      ensures Valid() && hash == h && model == map[] && Order() == []
    {
      hash := h;
      size := HASHMAP_DEFAULT_SIZE;
      elems := 0;
      entries := map[];
      table := seq(HASHMAP_DEFAULT_SIZE, _ => []);
      keys := [];
      model := map[];
      new;
      assert PowerOfTwo(2) && PowerOfTwo(4) && PowerOfTwo(8);
    }

    /** Looks through the key's bucket. */
    method Find(key: Key) returns (a: Addr, found: bool)
      requires Valid()
      ensures found ==> a in entries && entries[a].key == key && key in model && model[key] == entries[a].elem
      ensures !found ==> !HasKey(entries, key) && key !in model
    {
      var bucket := table[BucketOf(hash, size, key)];
      InItsBucket(entries, hash, size, table, key);
      var i := 0;
      while i < |bucket|
        invariant 0 <= i <= |bucket|
        invariant forall j :: 0 <= j < i ==> bucket[j] in entries && entries[bucket[j]].key != key
      {
        a := bucket[i];
        assert a in bucket;
        if entries[a].key == key {
          return a, true;
        }
        i := i + 1;
      }
      assert HasKey(entries, key) || key !in model;
      a, found := 0, false;
    }

    method Get(key: Key) returns (elem: Elem)
      requires Valid()
      ensures elem == if key in model then model[key] else NULL
    {
      var a, found := Find(key);
      elem := if found then entries[a].elem else NULL;
    }

    /** Sets the element of a key; a new key goes to the end of the order. */
    method Set(key: Key, elem: Elem, he: Addr)
      requires Valid() && he !in entries
      modifies this
      ensures Valid() && model == old(model)[key := elem]
      ensures Order() == if key in old(model) then old(Order()) else old(Order()) + [key]
    {
      var a, found := Find(key);
      if found {
        SetElem(entries, hash, size, table, keys, model, a, elem);
        entries := entries[a := entries[a].(elem := elem)];
        model := model[key := elem];
        return;
      }
      if elems > size / 4 * 3 {
        Grow(size * 2);
      }
      Append(key, elem, he);
    }

    /** Enters a new entry at the end of its bucket and of the key list. */
    method Append(key: Key, elem: Elem, he: Addr)
      requires Valid() && he !in entries && !HasKey(entries, key) && elems <= size / 4 * 3
      modifies this`entries, this`table, this`keys, this`elems, this`model
      ensures Valid() && model == old(model)[key := elem] && Order() == old(Order()) + [key]
    {
      var idx := BucketOf(hash, size, key);
      AddToBucket(entries, hash, size, table, he, Entry(key, elem));
      AddToKeys(entries, keys, model, he, Entry(key, elem));
      entries := entries[he := Entry(key, elem)];
      table := table[idx := table[idx] + [he]];
      keys := keys + [he];
      model := model[key := elem];
      elems := elems + 1;
    }

    /** Moves every entry, in key order, to a table of another size. */
    method Grow(nsize: nat)
      requires Valid() && PowerOfTwo(nsize) && nsize >= size && elems <= nsize / 4 * 3 + 1
      modifies this`size, this`table
      ensures size == nsize && Valid()
    {
      var newTable: seq<seq<Addr>> := seq(nsize, _ => []);
      size := nsize;
      var i := 0;
      while i < |keys|
        invariant 0 <= i <= |keys| && size == nsize && |newTable| == nsize
        invariant forall b :: 0 <= b < nsize ==> PartOK(entries, hash, nsize, keys, i, b, newTable[b])
      {
        var he := keys[i];
        var idx := BucketOf(hash, size, entries[he].key);
        PartNext(entries, hash, nsize, keys, i, newTable);
        newTable := newTable[idx := newTable[idx] + [he]];
        i := i + 1;
      }
      PartWhole(entries, hash, nsize, keys, newTable);
      table := newTable;
    }

    /** Deletes a key; the order of the others stays. */
    method Delete(key: Key)
      requires Valid()
      modifies this
      ensures Valid() && model == old(model) - {key} && size == old(size)
      ensures Order() == if key in old(model) then WithoutKey(old(Order()), key) else old(Order())
    {
      var a, found := Find(key);
      if found {
        RemovedOrder(entries, keys, a);
        Remove(a);
      } else {
        assert model - {key} == model;
      }
    }

    /** Removes the entries one by one, oldest first, until none is left. */
    method Flush()
      requires Valid()
      modifies this`entries, this`table, this`keys, this`elems, this`model
      ensures Valid() && model == map[] && Order() == [] && elems == 0
    {
      NoKeysNoModel(entries, keys, model);
      while keys != []
        invariant Valid() && (keys == [] ==> model == map[]) && (keys != [] ==> keys[0] in entries)
        decreases |keys|
      {
        Remove(keys[0]);
        NoKeysNoModel(entries, keys, model);
      }
    }

    /** Takes an entry out of both of its lists. */
    method Remove(a: Addr)
      requires Valid() && a in entries
      modifies this`entries, this`table, this`keys, this`elems, this`model
      ensures Valid() && model == old(model) - {old(entries)[a].key}
      ensures entries == old(entries) - {a} && keys == Without(old(keys), a) && |keys| < |old(keys)|
    {
      var key := entries[a].key;
      var idx := BucketOf(hash, size, key);
      RemoveFromBucket(entries, hash, size, table, a);
      RemoveFromKeys(entries, keys, a);
      assert a in keys;
      OneLess(keys, a);
      HoldsWithout(entries, keys, model, a);
      table := table[idx := Without(table[idx], a)];
      keys := Without(keys, a);
      elems := elems - 1;
      entries := entries - {a};
      model := model - {key};
    }
  }

  lemma NoKeysNoModel(entries: Memory, keys: seq<Addr>, model: map<Key, Elem>)
    requires KeysOK(entries, keys) && Holds(entries, model)
    ensures keys == [] ==> model == map[]
    ensures keys != [] ==> keys[0] in entries
  {
    assert keys != [] ==> keys[0] in keys;
    if keys == [] {
      forall k ensures k !in model {
        assert HasKey(entries, k) ==> exists a :: a in entries && a in keys;
      }
      assert model.Keys == {};
    }
  }

  /** After `i` keys have been moved, a new bucket holds those of them that belong there. */
  ghost predicate PartOK(entries: Memory, hash: Key -> nat, size: nat, keys: seq<Addr>, i: nat, b: nat,
                         bucket: seq<Addr>)
    requires size >= 1 && i <= |keys|
  {
    && NoDup(bucket)
    && forall a {:trigger a in bucket} :: a in bucket <==>
         a in keys[..i] && a in entries && BucketOf(hash, size, entries[a].key) == b
  }

  lemma PartNext(entries: Memory, hash: Key -> nat, size: nat, keys: seq<Addr>, i: nat, table: seq<seq<Addr>>)
    requires size >= 1 && i < |keys| && KeysOK(entries, keys) && |table| == size
    requires forall b :: 0 <= b < size ==> PartOK(entries, hash, size, keys, i, b, table[b])
    ensures keys[i] in entries
    ensures var idx := BucketOf(hash, size, entries[keys[i]].key); var table' := table[idx := table[idx] + [keys[i]]];
      forall b :: 0 <= b < size ==> PartOK(entries, hash, size, keys, i + 1, b, table'[b])
  {
    var he := keys[i];
    assert he in keys;
    var idx := BucketOf(hash, size, entries[he].key);
    var table' := table[idx := table[idx] + [he]];
    assert keys[..i + 1] == keys[..i] + [he] && he !in keys[..i];
    forall b | 0 <= b < size ensures PartOK(entries, hash, size, keys, i + 1, b, table'[b]) {
      assert PartOK(entries, hash, size, keys, i, b, table[b]);
      assert he !in table[b];
    }
  }

  lemma PartWhole(entries: Memory, hash: Key -> nat, size: nat, keys: seq<Addr>, table: seq<seq<Addr>>)
    requires size >= 1 && KeysOK(entries, keys) && |table| == size
    requires forall b :: 0 <= b < size ==> PartOK(entries, hash, size, keys, |keys|, b, table[b])
    ensures BucketsOK(entries, hash, size, table)
  {
    assert keys[..|keys|] == keys;
    forall b | 0 <= b < size ensures BucketOK(entries, hash, size, b, table[b]) {
      assert PartOK(entries, hash, size, keys, |keys|, b, table[b]);
    }
  }
}
