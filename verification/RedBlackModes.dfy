/** The lookup modes and what each asks for. */
module RedBlackModes {
  import opened Wrappers
  import opened RedBlackSpec
  import opened RedBlackMemory
  import opened RedBlackUnlink
  import opened RedBlackSearch

  datatype Mode = Equal | GtEq | LtEq | Less | Greater | Next | Prev | First | Last

  /** The keys a mode accepts. */
  predicate Wanted(mode: Mode, s: seq<int>, key: int, k: int) {
    match mode
    case Equal => k == key
    case GtEq => k >= key
    case LtEq => k <= key
    case Less => k < key
    case Greater => k > key
    case Next => key in s && k > key
    case Prev => key in s && k < key
    case _ => true
  }

  /** The answer is the accepted key nearest to the key asked for, or the first or last
      one; there is none exactly when no key is accepted. */
  ghost predicate Answers(mode: Mode, s: seq<int>, key: int, r: Option<int>) {
    match r
    case None => forall k :: k in s ==> !Wanted(mode, s, key, k)
    case Some(a) =>
      && a in s && Wanted(mode, s, key, a)
      && forall k :: k in s && Wanted(mode, s, key, k) ==> if mode in {LtEq, Less, Prev, Last} then k <= a else a <= k
  }

  /** The modes spelt out; `Next` and `Prev` have an answer only for stored keys. */
  lemma AnswersMean(mode: Mode, s: seq<int>, key: int, r: Option<int>)
    requires Answers(mode, s, key, r)
    ensures r.None? ==> forall k :: k in s ==>
      match mode
      case Equal => k != key
      case GtEq => k < key
      case LtEq => k > key
      case Less => k >= key
      case Greater => k <= key
      case Next => key !in s || k <= key
      case Prev => key !in s || k >= key
      case _ => false
    ensures r.Some? ==> r.value in s && forall k :: k in s ==>
      var a := r.value;
      match mode
      case Equal => a == key
      case GtEq => a >= key && (k < key || k >= a)
      case LtEq => a <= key && (k > key || k <= a)
      case Less => a < key && (k >= key || k <= a)
      case Greater => a > key && (k <= key || k >= a)
      case Next => key in s && a > key && (k <= key || k >= a)
      case Prev => key in s && a < key && (k >= key || k <= a)
      case First => k >= a
      case Last => k <= a
  {
  }

  lemma ExtremeIs(t: Tree)
    ensures Ahead(Right, Top, t) == InOrder(t) && Ahead(Left, Top, t) == InOrder(t)
    ensures InOrder(t) == [] <==> t.Leaf?
  {
    assert InOrder(t) + [] == InOrder(t) && [] + InOrder(t) == InOrder(t);
  }

  lemma ExtremeAnswers(mode: Mode, s: seq<int>, key: int, r: Option<int>)
    requires Sorted(s) && (mode == First || mode == Last)
    requires if r.None? then s == [] else Nearest(if mode == First then Right else Left, s, r.value)
    ensures Answers(mode, s, key, r)
  {
  }

  lemma SplitAt(tree: Tree, ctx: Context, t: Tree, key: int) returns (p: seq<int>, q: seq<int>)
    requires Fill(ctx, t) == tree && Sorted(InOrder(tree)) && AllBelow(Before(ctx), key) && AllAbove(After(ctx), key)
    requires t.Node? ==> t.key == key
    ensures InOrder(tree) == if t.Node? then p + [key] + q else p + q
    ensures AllBelow(p, key) && AllAbove(q, key)
    ensures t.Node? ==> p == Beyond(Left, ctx, t) && q == Beyond(Right, ctx, t)
    ensures t.Leaf? ==> p == Before(ctx) && q == After(ctx)
  {
    FillOrder(ctx, t);
    p, q := Before(ctx), After(ctx);
    if t.Node? {
      var l, r := InOrder(t.left), InOrder(t.right);
      assert p + (l + [key] + r) + q == (p + l) + [key] + (r + q);
      p, q := p + l, r + q;
      SortedAround(p, key, q);
    } else {
      assert p + [] + q == p + q;
    }
  }

  lemma FoundAnswers(mode: Mode, p: seq<int>, q: seq<int>, key: int)
    requires mode in {Equal, GtEq, LtEq} && AllBelow(p, key) && AllAbove(q, key)
    ensures Answers(mode, p + [key] + q, key, Some(key))
  {
    assert (p + [key] + q)[|p|] == key;
  }

  lemma MissingAnswers(mode: Mode, p: seq<int>, q: seq<int>, key: int)
    requires mode in {Equal, Next, Prev} && AllBelow(p, key) && AllAbove(q, key)
    ensures Answers(mode, p + q, key, None)
  {
  }

  /** The nearest of the keys on a side, among all keys. */
  lemma NearestIs(d: Side, s: seq<int>, a: int)
    requires Sorted(s) && Nearest(d, s, a)
    ensures a in s && forall k :: k in s ==> if d == Right then a <= k else k <= a
  {
  }

  /** The keys below, at and above the one asked for. */
  lemma Members(p: seq<int>, q: seq<int>, key: int, found: bool)
    requires AllBelow(p, key) && AllAbove(q, key) && Sorted(if found then p + [key] + q else p + q)
    ensures Sorted(p) && Sorted(q)
    ensures var s := if found then p + [key] + q else p + q;
      && (forall k :: k in s <==> k in p || k in q || (found && k == key))
      && (forall k :: k in p ==> k < key) && (forall k :: k in q ==> k > key)
  {
    if found {
      SortedParts(p + [key], q);
      SortedParts(p, [key]);
      forall k ensures k in p + [key] + q <==> k in p || k in q || k == key {
        InConcat(p, [key], q, k);
      }
    } else {
      SortedParts(p, q);
    }
  }

  lemma NeighbourAnswers(mode: Mode, d: Side, p: seq<int>, q: seq<int>, key: int, r: Option<int>, found: bool)
    requires AllBelow(p, key) && AllAbove(q, key)
    requires mode in (if found then {Less, Greater, Next, Prev} else {GtEq, LtEq, Less, Greater})
    requires d == if mode in {GtEq, Greater, Next} then Right else Left
    requires var s := if d == Right then q else p; if r.None? then s == [] else Nearest(d, s, r.value)
    requires Sorted(if found then p + [key] + q else p + q)
    ensures Answers(mode, if found then p + [key] + q else p + q, key, r)
  {
    Members(p, q, key, found);
    if r.Some? {
      NearestIs(d, if d == Right then q else p, r.value);
    }
    SidesAnswer(mode, d, if found then p + [key] + q else p + q, p, q, key, r, found);
  }

  lemma SidesAnswer(mode: Mode, d: Side, s: seq<int>, p: seq<int>, q: seq<int>, key: int, r: Option<int>, found: bool)
    requires forall k :: k in s <==> k in p || k in q || (found && k == key)
    requires (forall k :: k in p ==> k < key) && (forall k :: k in q ==> k > key)
    requires mode in (if found then {Less, Greater, Next, Prev} else {GtEq, LtEq, Less, Greater})
    requires d == if mode in {GtEq, Greater, Next} then Right else Left
    requires var u := if d == Right then q else p;
      if r.None? then u == [] else r.value in u && forall k :: k in u ==>
        if d == Right then r.value <= k else k <= r.value
    ensures Answers(mode, s, key, r)
  {
  }
}
