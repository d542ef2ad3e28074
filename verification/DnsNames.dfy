/** Domain names: as text with escapes, as labels, and as the compressed form of a
    message, which is read by walking from label to label and along pointers. */
module DnsNames {
  import opened Wrappers

  type byte = x: int | 0 <= x < 256

  const DOT: byte := 46
  const BACKSLASH: byte := 92

  /** The top two bits that mark a pointer. */
  const INDIR: byte := 192

  const MAXLABEL: nat := 63
  const MAXCDNAME: nat := 255

  type Label = seq<byte>

  /* ---- Text ---- */

  predicate NeedsEscape(b: byte) {
    b == DOT || b == BACKSLASH
  }

  function Escape(l: Label): seq<byte> {
    if l == [] then []
    else Escape(l[..|l|-1]) + (if NeedsEscape(l[|l|-1]) then [BACKSLASH] else []) + [l[|l|-1]]
  }

  function Spelt(l: Label): seq<byte> {
    Escape(l) + [DOT]
  }

  /** The labels, escaped, each followed by a dot. */
  function Dotted(ls: seq<Label>): seq<byte> {
    if ls == [] then [] else Dotted(ls[..|ls|-1]) + Spelt(ls[|ls|-1])
  }

  /** The canonical text of a name: no dot at the end, no needless escape. */
  function Canon(ls: seq<Label>): seq<byte> {
    if ls == [] then [] else Dotted(ls)[..|Dotted(ls)|-1]
  }

  /** Dots and backslashes are escaped, and nothing else is. */
  lemma {:induction false} EscapeFirst(l: Label)
    requires l != []
    ensures Escape(l) == (if l[0] == 46 || l[0] == 92 then [92, l[0]] else [l[0]]) + Escape(l[1..])
    decreases |l|
  {
    var n := |l| - 1;
    if n > 0 {
      EscapeFirst(l[..n]);
      assert l[..n][1..] == l[1..][..n-1] && l[1..][n-1] == l[n];
    } else {
      assert Escape(l[..0]) == [] && Escape(l[1..]) == [];
    }
  }

  /** A label without dots and backslashes is spelt as itself. */
  lemma {:induction false} PlainSpelt(l: Label)
    requires 46 !in l && 92 !in l
    ensures Escape(l) == l
    decreases |l|
  {
    if l != [] {
      assert l == l[..|l|-1] + [l[|l|-1]];
      assert l[|l|-1] in l;
      PlainSpelt(l[..|l|-1]);
    }
  }

  lemma {:induction false} DottedFirst(ls: seq<Label>)
    requires ls != []
    ensures Dotted(ls) == Spelt(ls[0]) + Dotted(ls[1..])
    decreases |ls|
  {
    var n := |ls| - 1;
    if n > 0 {
      DottedFirst(ls[..n]);
      assert ls[..n][1..] == ls[1..][..n-1] && ls[1..][n-1] == ls[n];
    }
  }

  /** Labels are joined by dots. */
  lemma CanonFirst(ls: seq<Label>)
    requires ls != []
    ensures Canon(ls) == if |ls| == 1 then Escape(ls[0]) else Escape(ls[0]) + [46] + Canon(ls[1..])
  {
    DottedFirst(ls);
    var d := Dotted(ls[1..]);
    if |ls| == 1 {
      assert Dotted(ls)[..|Dotted(ls)|-1] == Escape(ls[0]);
    } else {
      assert d != [] && Dotted(ls) == Escape(ls[0]) + [46] + d;
    }
  }

  /* ---- Wire form without compression ---- */

  function Flat(ls: seq<Label>): (r: seq<int>) {
    if ls == [] then [] else Flat(ls[..|ls|-1]) + [|ls[|ls|-1]|] + ls[|ls|-1]
  }

  ghost predicate LabelsOK(ls: seq<Label>) {
    forall i :: 0 <= i < |ls| ==> 1 <= |ls[i]| <= MAXLABEL
  }

  /* ---- The walk through a message ---- */

  datatype Step = End | Pointer(to: nat) | Run(len: nat) | Bad

  function StepAt(msg: seq<byte>, pos: nat): (s: Step)
    requires pos < |msg|
    ensures s.Pointer? ==> s.to < |msg| && pos + 1 < |msg|
    ensures s.Run? ==> 1 <= s.len < 64 && pos + s.len + 1 < |msg|
  {
    var b := msg[pos];
    if b == 0 then End
    else if b >= INDIR then
      if pos + 1 < |msg| && (b - INDIR) * 256 + msg[pos + 1] < |msg| then Pointer((b - INDIR) * 256 + msg[pos + 1])
        else Bad
    else if b < 64 then
      if pos + b + 1 < |msg| then Run(b) else Bad
    else Bad
  }

  /** Where a walk from `pos` is after `k` steps. */
  function WalkAt(msg: seq<byte>, pos: nat, k: nat): (r: Option<nat>)
    ensures r.Some? ==> r.value < |msg|
  {
    if k == 0 then (if pos < |msg| then Some(pos) else None)
    else
      match WalkAt(msg, pos, k - 1)
      case None => None
      case Some(p) =>
        match StepAt(msg, p)
        case Pointer(to) => Some(to)
        case Run(len) => Some(p + len + 1)
        case _ => None
  }

  /** The label whose length byte is at `p`. */
  function LabelAt(msg: seq<byte>, p: nat, len: nat): Label
    requires p + len < |msg|
  {
    msg[p+1..p+1+len]
  }

  /** The labels met in the first `k` steps. */
  function LabelsMet(msg: seq<byte>, pos: nat, k: nat): seq<Label> {
    if k == 0 then []
    else
      match WalkAt(msg, pos, k - 1)
      case None => LabelsMet(msg, pos, k - 1)
      case Some(p) =>
        match StepAt(msg, p)
        case Run(len) => LabelsMet(msg, pos, k - 1) + [LabelAt(msg, p, len)]
        case _ => LabelsMet(msg, pos, k - 1)
  }

  ghost function PointersMet(msg: seq<byte>, pos: nat, k: nat): (n: nat)
    ensures n <= k
  {
    if k == 0 then 0
    else PointersMet(msg, pos, k - 1) +
         (if WalkAt(msg, pos, k - 1).Some? && StepAt(msg, WalkAt(msg, pos, k - 1).value).Pointer? then 1 else 0)
  }

  /** The walk comes to the empty label after `k` steps. */
  ghost predicate EndsAt(msg: seq<byte>, pos: nat, k: nat) {
    WalkAt(msg, pos, k).Some? && msg[WalkAt(msg, pos, k).value] == 0
  }

  ghost predicate Ends(msg: seq<byte>, pos: nat) {
    exists k :: EndsAt(msg, pos, k)
  }

  /** How far the part of a name that is at `pos` itself goes. */
  function InPlaceEnd(msg: seq<byte>, pos: nat): (e: nat)
    requires pos < |msg|
    ensures pos <= e <= |msg|
    decreases |msg| - pos
  {
    match StepAt(msg, pos)
    case End => pos + 1
    case Pointer(_) => pos + 2
    case Run(len) => InPlaceEnd(msg, pos + len + 1)
    case Bad => pos
  }

  lemma {:induction false} WalkBefore(msg: seq<byte>, pos: nat, j: nat, k: nat)
    requires j <= k && WalkAt(msg, pos, k).Some?
    ensures WalkAt(msg, pos, j).Some?
    ensures j < k ==> !EndsAt(msg, pos, j) && !StepAt(msg, WalkAt(msg, pos, j).value).Bad?
    decreases k
  {
    if j < k {
      WalkBefore(msg, pos, j, k - 1);
    }
  }

  /** A walk that meets something invalid never ends. */
  lemma BadNeverEnds(msg: seq<byte>, pos: nat, k: nat)
    requires WalkAt(msg, pos, k).Some? && StepAt(msg, WalkAt(msg, pos, k).value).Bad?
    ensures !Ends(msg, pos)
  {
    forall j: nat ensures !EndsAt(msg, pos, j) {
      if EndsAt(msg, pos, j) {
        if j <= k {
          WalkBefore(msg, pos, j, k);
        } else {
          WalkBefore(msg, pos, k, j);
        }
      }
    }
  }

  /** The walk is determined by where it is. */
  lemma {:induction false} WalkOn(msg: seq<byte>, pos: nat, i: nat, j: nat, d: nat)
    requires WalkAt(msg, pos, i) == WalkAt(msg, pos, j)
    ensures WalkAt(msg, pos, i + d) == WalkAt(msg, pos, j + d)
    decreases d
  {
    if d > 0 {
      WalkOn(msg, pos, i, j, d - 1);
    }
  }

  /** A walk that ends never comes to a position twice. */
  lemma NoRepeat(msg: seq<byte>, pos: nat, i: nat, j: nat, e: nat)
    requires EndsAt(msg, pos, e) && i < j <= e
    ensures WalkAt(msg, pos, i) != WalkAt(msg, pos, j)
  {
    if WalkAt(msg, pos, i) == WalkAt(msg, pos, j) {
      WalkOn(msg, pos, i, j, e - j);
      WalkBefore(msg, pos, i + (e - j), e);
    }
  }

  /* ---- Walks in two parts ---- */

  /** A walk that has come to `p` goes on like the walk from there. */
  lemma {:induction false} WalkFrom(msg: seq<byte>, pos: nat, n: nat, p: nat, k: nat)
    requires WalkAt(msg, pos, n) == Some(p)
    ensures WalkAt(msg, pos, n + k) == WalkAt(msg, p, k)
    ensures LabelsMet(msg, pos, n + k) == LabelsMet(msg, pos, n) + LabelsMet(msg, p, k)
    decreases k
  {
    hide WalkAt, LabelsMet;
    if k == 0 {
      NoStepYet(msg, pos, n, p);
    } else {
      WalkFrom(msg, pos, n, p, k - 1);
      WalkNext(msg, pos, n + k - 1, p, k - 1, LabelsMet(msg, pos, n));
    }
  }

  lemma NoStepYet(msg: seq<byte>, pos: nat, n: nat, p: nat)
    requires WalkAt(msg, pos, n) == Some(p)
    ensures WalkAt(msg, p, 0) == Some(p) && LabelsMet(msg, pos, n) == LabelsMet(msg, pos, n) + LabelsMet(msg, p, 0)
  {
  }

  lemma WalkNext(msg: seq<byte>, pos: nat, i: nat, p: nat, k: nat, met: seq<Label>)
    requires WalkAt(msg, pos, i) == WalkAt(msg, p, k) && LabelsMet(msg, pos, i) == met + LabelsMet(msg, p, k)
    ensures WalkAt(msg, pos, i + 1) == WalkAt(msg, p, k + 1)
    ensures LabelsMet(msg, pos, i + 1) == met + LabelsMet(msg, p, k + 1)
  {
  }

  /** A pointer gives the high six bits of its target in its first byte and the low eight in
      its second; a walk that begins with one goes on at the target. */
  lemma PointerTo(msg: seq<byte>, pos: nat, t: nat)
    requires pos + 1 < |msg| && t < |msg| && t < 0x4000
    requires msg[pos] == 192 + t / 256 && msg[pos+1] == t % 256
    ensures WalkAt(msg, pos, 1) == Some(t) && LabelsMet(msg, pos, 1) == [] && InPlaceEnd(msg, pos) == pos + 2
    ensures StepAt(msg, pos) == Pointer(t)
  {
    assert 256 * (msg[pos] as int - 192) + msg[pos+1] == t;
    assert WalkAt(msg, pos, 0) == Some(pos);
  }

  /** A length byte of 64 to 191 means nothing, a pointer must lie within the message and lead
      into it, and a label must end before the message does. */
  lemma NotAName(msg: seq<byte>, pos: nat)
    requires pos < |msg|
    requires
      || 64 <= msg[pos] < 192
      || (msg[pos] >= 192 && (pos + 1 == |msg| || 256 * (msg[pos] as int - 192) + msg[pos+1] >= |msg|))
      || (0 < msg[pos] < 64 && pos + msg[pos] + 1 >= |msg|)
    ensures !Ends(msg, pos)
  {
    assert WalkAt(msg, pos, 0) == Some(pos);
    BadNeverEnds(msg, pos, 0);
  }

  ghost function Below(n: nat): (s: set<nat>)
    ensures |s| == n && forall x: nat :: x in s <==> x < n
  {
    if n == 0 then {}
    else
      var r := Below(n - 1);
      assert n - 1 !in r;
      r + {n - 1}
  }

  ghost function Visited(msg: seq<byte>, pos: nat, k: nat): (s: set<nat>)
    ensures forall x :: x in s ==> x < |msg|
  {
    if k == 0 then {}
    else
      Visited(msg, pos, k - 1) + (if WalkAt(msg, pos, k - 1).Some? then {WalkAt(msg, pos, k - 1).value} else {})
  }

  lemma {:induction false} VisitedWhen(msg: seq<byte>, pos: nat, k: nat, x: nat) returns (i: nat)
    requires x in Visited(msg, pos, k)
    ensures i < k && WalkAt(msg, pos, i) == Some(x)
    decreases k
  {
    i := k - 1;
    if WalkAt(msg, pos, k - 1) != Some(x) {
      i := VisitedWhen(msg, pos, k - 1, x);
    }
  }

  lemma {:induction false} VisitedIs(msg: seq<byte>, pos: nat, k: nat, e: nat)
    requires EndsAt(msg, pos, e) && k <= e + 1
    ensures |Visited(msg, pos, k)| == k
    decreases k
  {
    if k > 0 {
      VisitedIs(msg, pos, k - 1, e);
      WalkBefore(msg, pos, k - 1, e);
      NotVisited(msg, pos, k - 1, e);
    }
  }

  lemma NotVisited(msg: seq<byte>, pos: nat, k: nat, e: nat)
    requires EndsAt(msg, pos, e) && k <= e && WalkAt(msg, pos, k).Some?
    ensures WalkAt(msg, pos, k).value !in Visited(msg, pos, k)
  {
    var x := WalkAt(msg, pos, k).value;
    if x in Visited(msg, pos, k) {
      var i := VisitedWhen(msg, pos, k, x);
      NoRepeat(msg, pos, i, k, e);
    }
  }

  lemma SmallerSet(a: set<nat>, b: set<nat>)
    requires a <= b
    ensures |a| <= |b|
    decreases |a|
  {
    if a != {} {
      var x :| x in a;
      SmallerSet(a - {x}, b - {x});
    }
  }

  /** A walk that ends takes fewer steps than the message has bytes; so counting more
      pointers than bytes rejects only walks that never end. */
  lemma EndsSoon(msg: seq<byte>, pos: nat, e: nat)
    requires EndsAt(msg, pos, e)
    ensures e < |msg|
  {
    VisitedIs(msg, pos, e + 1, e);
    SmallerSet(Visited(msg, pos, e + 1), Below(|msg|));
  }

  lemma TooManyPointers(msg: seq<byte>, pos: nat, k: nat)
    requires WalkAt(msg, pos, k).Some? && PointersMet(msg, pos, k) > |msg|
    ensures !Ends(msg, pos)
  {
    forall e: nat ensures !EndsAt(msg, pos, e) {
      LateEnd(msg, pos, k, e);
    }
  }

  lemma LateEnd(msg: seq<byte>, pos: nat, k: nat, e: nat)
    requires WalkAt(msg, pos, k).Some? && k > |msg|
    ensures !EndsAt(msg, pos, e)
  {
    if EndsAt(msg, pos, e) {
      EndsSoon(msg, pos, e);
      WalkBefore(msg, pos, e, k);
    }
  }
}
