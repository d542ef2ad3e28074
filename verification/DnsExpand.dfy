/** Reading a name out of a message, in two passes: the first checks and measures, the
    second copies without looking back. */
module DnsExpand {
  import opened Wrappers
  import opened DnsNames

  /** The length of the label at `p` once escaped. */
  method EscapedLength(msg: seq<byte>, p: nat, len: nat) returns (n: nat)
    requires p + len < |msg|
    ensures n == |Escape(LabelAt(msg, p, len))|
  {
    n := 0;
    var i := 0;
    while i < len
      invariant 0 <= i <= len && n == |Escape(LabelAt(msg, p, i))|
    {
      EscapeNext(msg, p + 1, i);
      n := n + if msg[p + 1 + i] == DOT || msg[p + 1 + i] == BACKSLASH then 2 else 1;
      i := i + 1;
    }
  }

  lemma EscapeNext(msg: seq<byte>, from: nat, i: nat)
    requires from + i < |msg|
    ensures Escape(msg[from..from+i+1]) ==
            Escape(msg[from..from+i]) + (if NeedsEscape(msg[from+i]) then [BACKSLASH] else []) + [msg[from+i]]
  {
    var l := msg[from..from+i+1];
    assert l[..|l|-1] == msg[from..from+i];
  }

  /** A walk from `start` is at `p` after `k` steps, `np` of them along pointers, and the
      labels it has met make a text of `n` bytes. */
  ghost predicate Here(msg: seq<byte>, start: nat, k: nat, p: nat, n: nat, np: nat) {
    WalkAt(msg, start, k) == Some(p) && |Dotted(LabelsMet(msg, start, k))| == n && PointersMet(msg, start, k) == np
  }

  lemma HereFirst(msg: seq<byte>, start: nat)
    requires start < |msg|
    ensures Here(msg, start, 0, start, 0, 0)
  {
  }

  lemma HerePointer(msg: seq<byte>, start: nat, k: nat, p: nat, n: nat, np: nat, to: nat)
    requires Here(msg, start, k, p, n, np) && p < |msg| && StepAt(msg, p) == Pointer(to)
    ensures Here(msg, start, k + 1, to, n, np + 1)
  {
  }

  lemma HereRun(msg: seq<byte>, start: nat, k: nat, p: nat, n: nat, np: nat, len: nat)
    requires Here(msg, start, k, p, n, np) && p < |msg| && StepAt(msg, p) == Run(len)
    ensures p + 1 + len < |msg| && Here(msg, start, k + 1, p + 1 + len, n + |Escape(LabelAt(msg, p, len))| + 1, np)
  {
    DottedNext(LabelsMet(msg, start, k), LabelAt(msg, p, len));
  }

  /** A walk that meets something invalid, or too many pointers, has no end. */
  lemma HereNever(msg: seq<byte>, start: nat, k: nat, p: nat, n: nat, np: nat)
    requires Here(msg, start, k, p, n, np)
    ensures p < |msg|
    ensures StepAt(msg, p).Bad? || np > |msg| ==> !Ends(msg, start)
  {
    if StepAt(msg, p).Bad? {
      BadNeverEnds(msg, start, k);
    }
    if np > |msg| {
      TooManyPointers(msg, start, k);
    }
  }

  lemma HereEnds(msg: seq<byte>, start: nat, k: nat, p: nat, n: nat, np: nat)
    requires Here(msg, start, k, p, n, np) && p < |msg| && msg[p] == 0
    ensures Ends(msg, start)
    ensures forall ls :: Reads(msg, start, ls) ==> |Canon(ls)| == if n != 0 then n - 1 else 0
  {
    assert EndsAt(msg, start, k);
    ReadsOnce(msg, start, k);
    CanonLength(LabelsMet(msg, start, k));
  }

  lemma DottedNext(ls: seq<Label>, l: Label)
    ensures Dotted(ls + [l]) == Dotted(ls) + Spelt(l)
  {
    assert (ls + [l])[..|ls|] == ls;
  }

  lemma OneEnd(msg: seq<byte>, pos: nat, j: nat, k: nat)
    requires EndsAt(msg, pos, j) && EndsAt(msg, pos, k)
    ensures j == k
  {
    if j < k {
      WalkBefore(msg, pos, j, k);
    } else if k < j {
      WalkBefore(msg, pos, k, j);
    }
  }

  /** The name that starts at `pos` is the text of these labels. */
  ghost predicate Reads(msg: seq<byte>, pos: nat, ls: seq<Label>) {
    exists e: nat {:trigger EndsAt(msg, pos, e)} :: EndsAt(msg, pos, e) && LabelsMet(msg, pos, e) == ls
  }

  lemma ReadsOnce(msg: seq<byte>, pos: nat, k: nat)
    requires EndsAt(msg, pos, k)
    ensures forall ls :: Reads(msg, pos, ls) <==> ls == LabelsMet(msg, pos, k)
  {
    forall ls | Reads(msg, pos, ls) ensures ls == LabelsMet(msg, pos, k) {
      var e: nat :| EndsAt(msg, pos, e) && LabelsMet(msg, pos, e) == ls;
      OneEnd(msg, pos, e, k);
    }
  }

  /** The length of a name's text, or nothing if it has no end. */
  method NameLength(msg: seq<byte>, start: nat) returns (r: Option<nat>)
    ensures r.Some? <==> Ends(msg, start)
    ensures r.Some? ==> forall ls :: Reads(msg, start, ls) ==> r.value == |Canon(ls)|
  {
    if start >= |msg| {
      NoStart(msg, start);
      return None;
    }
    var n: nat, indir: nat, pos: nat := 0, 0, start;
    ghost var k: nat := 0;
    HereFirst(msg, start);
    while msg[pos] != 0
      invariant pos < |msg| && Here(msg, start, k, pos, n, indir) && indir <= |msg|
      decreases |msg| - indir, |msg| - pos
    {
      var ok;
      ok, pos, n, indir := MeasureStep(msg, start, pos, n, indir, k);
      if !ok {
        return None;
      }
      k := k + 1;
    }
    HereEnds(msg, start, k, pos, n, indir);
    return Some(if n != 0 then n - 1 else n);
  }

  /** One pointer or one label of the first pass, which checks everything. */
  method MeasureStep(msg: seq<byte>, start: nat, pos: nat, n: nat, indir: nat, ghost k: nat)
    returns (ok: bool, pos': nat, n': nat, indir': nat)
    requires Here(msg, start, k, pos, n, indir) && pos < |msg| && msg[pos] != 0 && indir <= |msg|
    ensures !ok ==> !Ends(msg, start)
    ensures ok ==> pos' < |msg| && Here(msg, start, k + 1, pos', n', indir') && indir' <= |msg|
    ensures ok ==> (indir' == indir && pos' > pos) || indir' == indir + 1
  {
    HereNever(msg, start, k, pos, n, indir);
    ok, pos', n', indir' := false, pos, n, indir;
    var b := msg[pos];
    if b >= INDIR {
      if pos + 1 >= |msg| {
        return;
      }
      var offset := (b - INDIR) * 256 + msg[pos + 1];
      if offset >= |msg| {
        return;
      }
      HerePointer(msg, start, k, pos, n, indir, offset);
      pos' := offset;
      indir' := indir + 1;
      HereNever(msg, start, k + 1, pos', n, indir');
      if indir' > |msg| {
        return;
      }
    } else if b < 64 {
      if pos + b + 1 >= |msg| {
        return;
      }
      HereRun(msg, start, k, pos, n, indir, b);
      var m := EscapedLength(msg, pos, b);
      n' := n + m + 1;
      pos' := pos + 1 + b;
    } else {
      return;
    }
    ok := true;
  }

  lemma NoStart(msg: seq<byte>, start: nat)
    requires start >= |msg|
    ensures !Ends(msg, start)
  {
    forall k: nat ensures !EndsAt(msg, start, k) {
      if EndsAt(msg, start, k) {
        WalkBefore(msg, start, 0, k);
      }
    }
  }

  lemma CanonLength(ls: seq<Label>)
    ensures |Dotted(ls)| >= |ls| && (ls != [] ==> |Dotted(ls)| >= 1 && Dotted(ls)[|Dotted(ls)|-1] == DOT)
    ensures |Canon(ls)| == if |Dotted(ls)| != 0 then |Dotted(ls)| - 1 else 0
  {
    if ls != [] {
      CanonLength(ls[..|ls|-1]);
    }
  }

  /** A text of labels that are not empty has at least two bytes for each. */
  lemma NoShortText(ls: seq<Label>)
    ensures LabelsNonEmpty(ls) ==> |Dotted(ls)| >= 2 * |ls|
  {
    if ls != [] && LabelsNonEmpty(ls) {
      assert LabelsNonEmpty(ls[..|ls|-1]);
      NoShortText(ls[..|ls|-1]);
      EscapeLength(ls[|ls|-1]);
    }
  }

  ghost predicate LabelsNonEmpty(ls: seq<Label>) {
    forall i :: 0 <= i < |ls| ==> ls[i] != []
  }

  lemma EscapeLength(l: Label)
    ensures |Escape(l)| >= |l|
  {
  }

  lemma {:induction false} MetNonEmpty(msg: seq<byte>, pos: nat, k: nat)
    ensures LabelsNonEmpty(LabelsMet(msg, pos, k))
  {
    if k > 0 {
      MetNonEmpty(msg, pos, k - 1);
    }
  }

  /** Writes a label, escaped, to a buffer. */
  method WriteLabel(msg: seq<byte>, from: nat, len: nat, s: array<byte>, q: nat) returns (q': nat)
    requires from + len <= |msg| && q + |Escape(msg[from..from+len])| <= s.Length
    modifies s
    ensures q' == q + |Escape(msg[from..from+len])| && s[..q'] == old(s[..q]) + Escape(msg[from..from+len])
  {
    q' := q;
    var i := 0;
    while i < len
      invariant 0 <= i <= len && q' == q + |Escape(msg[from..from+i])| <= s.Length
      invariant s[..q'] == old(s[..q]) + Escape(msg[from..from+i])
    {
      EscapeNext(msg, from, i);
      EscapeGrows(msg, from, i + 1, len);
      ghost var before := s[..q'];
      if msg[from + i] == DOT || msg[from + i] == BACKSLASH {
        s[q'] := BACKSLASH;
        q' := q' + 1;
      }
      s[q'] := msg[from + i];
      q' := q' + 1;
      assert s[..q'] == before + (if NeedsEscape(msg[from+i]) then [BACKSLASH] else []) + [msg[from+i]];
      i := i + 1;
    }
  }

  lemma {:induction false} EscapeGrows(msg: seq<byte>, from: nat, i: nat, len: nat)
    requires i <= len && from + len <= |msg|
    ensures |Escape(msg[from..from+i])| <= |Escape(msg[from..from+len])|
    decreases len
  {
    if i < len {
      EscapeNext(msg, from, len - 1);
      EscapeGrows(msg, from, i, len - 1);
    }
  }

  /** What was met on the way is part of what is met in the end. */
  lemma {:induction false} DottedGrows(msg: seq<byte>, pos: nat, k: nat, e: nat)
    requires k <= e && WalkAt(msg, pos, e).Some?
    ensures |Dotted(LabelsMet(msg, pos, k))| <= |Dotted(LabelsMet(msg, pos, e))|
    decreases e
  {
    if k < e {
      var ls, p := LabelsMet(msg, pos, e - 1), WalkAt(msg, pos, e - 1);
      DottedGrows(msg, pos, k, e - 1);
      if StepAt(msg, p.value).Run? {
        DottedNext(ls, LabelAt(msg, p.value, StepAt(msg, p.value).len));
      }
    }
  }

  /** A whole walk: where it is after every step and the text it has made by then. */
  datatype Walk = Walk(pos: seq<nat>, text: seq<seq<byte>>)

  /** Step `k` of a walk goes along a pointer or past a label. */
  ghost predicate StepOf(msg: seq<byte>, w: Walk, k: nat)
    requires k + 1 < |w.pos| == |w.text|
  {
    var p := w.pos[k];
    && p < |msg| && |w.text[k+1]| <= |w.text[|w.text|-1]|
    && match StepAt(msg, p)
       case Pointer(to) => w.pos[k+1] == to && w.text[k+1] == w.text[k]
       case Run(len) => w.pos[k+1] == p + 1 + len && w.text[k+1] == w.text[k] + Spelt(LabelAt(msg, p, len))
       case _ => false
  }

  ghost predicate IsWalk(msg: seq<byte>, w: Walk, start: nat) {
    && |w.pos| == |w.text| > 0 && w.pos[0] == start && w.text[0] == []
    && (forall k: nat {:trigger StepOf(msg, w, k)} :: k + 1 < |w.pos| ==> StepOf(msg, w, k))
    && var last := w.pos[|w.pos|-1]; last < |msg| && msg[last] == 0
  }

  /** Expands the name at `start`: its text, ended by a zero, and the number of bytes it
      takes up there. */
  method ExpandName(msg: seq<byte>, start: nat) returns (ok: bool, s: array<byte>, enclen: nat)
    ensures ok <==> Ends(msg, start)
    ensures ok ==> forall ls :: Reads(msg, start, ls) ==> s[..] == Canon(ls) + [0]
    ensures ok ==> start < |msg| && start + enclen == InPlaceEnd(msg, start) <= |msg|
    ensures fresh(s)
  {
    enclen := 0;
    var nlen := NameLength(msg, start);
    if nlen.None? {
      s := new byte[0];
      return false, s, 0;
    }
    ghost var w, ls, canon := WholeWalk(msg, start);
    assert nlen.value == |canon|;
    s := new byte[nlen.value + 1];
    ok := true;
    if nlen.value == 0 {
      s[0] := 0;
      enclen := if msg[start] >= INDIR then 2 else 1;
      assert s[..] == canon + [0];
    } else {
      var q;
      q, enclen := CopyLabels(msg, start, s, w);
      s[q - 1] := 0;
      assert s[..] == canon + [0];
    }
    OneText(msg, start, ls, s[..]);
  }

  lemma OneText(msg: seq<byte>, start: nat, ls: seq<Label>, txt: seq<byte>)
    requires txt == Canon(ls) + [0] && forall ls' :: Reads(msg, start, ls') ==> ls' == ls
    ensures forall ls' :: Reads(msg, start, ls') ==> txt == Canon(ls') + [0]
  {
  }

  /** The whole walk of a name that has an end. */
  lemma WholeWalk(msg: seq<byte>, start: nat) returns (w: Walk, ls: seq<Label>, canon: seq<byte>)
    requires Ends(msg, start)
    ensures start < |msg| && IsWalk(msg, w, start)
    ensures Reads(msg, start, ls) && canon == Canon(ls) && forall ls' :: Reads(msg, start, ls') ==> ls' == ls
    ensures var all := w.text[|w.text|-1];
      if canon == [] then InPlaceEnd(msg, start) == start + (if msg[start] >= INDIR then 2 else 1)
      else |all| == |canon| + 1 && canon == all[..|canon|]
  {
    var e: nat :| EndsAt(msg, start, e);
    ls := LabelsMet(msg, start, e);
    canon := Canon(ls);
    ReadsOnce(msg, start, e);
    assert Reads(msg, start, ls);
    CanonLength(ls);
    MetNonEmpty(msg, start, e);
    NoShortText(ls);
    w := WalkOf(msg, start, e);
    if canon == [] {
      EmptyName(msg, start, w);
    }
  }

  lemma WalkOf(msg: seq<byte>, start: nat, e: nat) returns (w: Walk)
    requires EndsAt(msg, start, e)
    ensures start < |msg| && IsWalk(msg, w, start) && w.text[|w.text|-1] == Dotted(LabelsMet(msg, start, e))
  {
    hide StepOf, TextAt, PositionAt, EndsAt, LabelsMet, Dotted, WalkAt, WalkTo;
    w := WalkTo(msg, start, e);
    WalkEnds(msg, start, e);
    forall k: nat | k + 1 < |w.pos| ensures StepOf(msg, w, k) {
      WalkStep(msg, start, e, w, k);
    }
  }

  /** The walk as the lists of its positions and of the texts read until then. */
  ghost function WalkTo(msg: seq<byte>, start: nat, e: nat): (w: Walk)
    ensures |w.pos| == |w.text| == e + 1
    ensures forall k: nat :: k <= e ==> w.pos[k] == PositionAt(msg, start, k) && w.text[k] == TextAt(msg, start, k)
  {
    Walk(seq(e + 1, k requires 0 <= k <= e => PositionAt(msg, start, k)),
         seq(e + 1, k requires 0 <= k <= e => TextAt(msg, start, k)))
  }

  lemma WalkEnds(msg: seq<byte>, start: nat, e: nat)
    requires EndsAt(msg, start, e)
    ensures start < |msg| && PositionAt(msg, start, 0) == start && TextAt(msg, start, 0) == []
    ensures PositionAt(msg, start, e) < |msg| && msg[PositionAt(msg, start, e)] == 0
    ensures TextAt(msg, start, e) == Dotted(LabelsMet(msg, start, e))
  {
    WalkBefore(msg, start, 0, e);
  }

  ghost function TextAt(msg: seq<byte>, start: nat, k: nat): seq<byte> {
    Dotted(LabelsMet(msg, start, k))
  }

  lemma WalkStep(msg: seq<byte>, start: nat, e: nat, w: Walk, k: nat)
    requires EndsAt(msg, start, e) && |w.pos| == |w.text| == e + 1 && k < e
    requires w.pos[k] == PositionAt(msg, start, k) && w.pos[k+1] == PositionAt(msg, start, k + 1)
    requires w.text[k] == TextAt(msg, start, k) && w.text[k+1] == TextAt(msg, start, k + 1)
    requires w.text[e] == TextAt(msg, start, e)
    ensures StepOf(msg, w, k)
  {
    PositionNext(msg, start, e, k);
    TextGrows(msg, start, k + 1, e);
    StepOfBy(msg, w, k, TextAt(msg, start, k), TextAt(msg, start, k + 1), TextAt(msg, start, e));
  }

  lemma StepOfBy(msg: seq<byte>, w: Walk, k: nat, t: seq<byte>, t': seq<byte>, all: seq<byte>)
    requires k + 1 < |w.pos| == |w.text| && w.text[k] == t && w.text[k+1] == t' && w.text[|w.text|-1] == all
    requires |t'| <= |all|
    requires w.pos[k] < |msg|
    requires match StepAt(msg, w.pos[k])
             case Pointer(to) => w.pos[k+1] == to && t' == t
             case Run(len) => w.pos[k+1] == w.pos[k] + 1 + len && t' == t + Spelt(LabelAt(msg, w.pos[k], len))
             case _ => false
    ensures StepOf(msg, w, k)
  {
  }

  lemma PositionNext(msg: seq<byte>, start: nat, e: nat, k: nat)
    requires EndsAt(msg, start, e) && k < e
    ensures PositionAt(msg, start, k) < |msg|
    ensures var p := PositionAt(msg, start, k);
      match StepAt(msg, p)
      case Pointer(to) => PositionAt(msg, start, k + 1) == to && TextAt(msg, start, k + 1) == TextAt(msg, start, k)
      case Run(len) =>
        PositionAt(msg, start, k + 1) == p + 1 + len &&
          TextAt(msg, start, k + 1) == TextAt(msg, start, k) + Spelt(LabelAt(msg, p, len))
      case _ => false
  {
    WalkBefore(msg, start, k, e);
    WalkBefore(msg, start, k + 1, e);
    TextNext(msg, start, k);
  }

  lemma TextGrows(msg: seq<byte>, start: nat, k: nat, e: nat)
    requires k <= e && WalkAt(msg, start, e).Some?
    ensures |TextAt(msg, start, k)| <= |TextAt(msg, start, e)|
  {
    DottedGrows(msg, start, k, e);
  }

  ghost function PositionAt(msg: seq<byte>, start: nat, k: nat): nat {
    match WalkAt(msg, start, k) case Some(p) => p case None => 0
  }

  lemma TextNext(msg: seq<byte>, start: nat, k: nat)
    requires WalkAt(msg, start, k).Some? && WalkAt(msg, start, k + 1).Some?
    ensures var p := WalkAt(msg, start, k).value;
      match StepAt(msg, p)
      case Pointer(to) => WalkAt(msg, start, k + 1).value == to && TextAt(msg, start, k + 1) == TextAt(msg, start, k)
      case Run(len) =>
        WalkAt(msg, start, k + 1).value == p + 1 + len &&
          TextAt(msg, start, k + 1) == TextAt(msg, start, k) + Spelt(LabelAt(msg, p, len))
      case _ => false
  {
    var p := WalkAt(msg, start, k).value;
    if StepAt(msg, p).Run? {
      DottedNext(LabelsMet(msg, start, k), LabelAt(msg, p, StepAt(msg, p).len));
    }
  }

  lemma EmptyName(msg: seq<byte>, start: nat, w: Walk)
    requires start < |msg| && IsWalk(msg, w, start) && w.text[|w.text|-1] == []
    ensures InPlaceEnd(msg, start) == start + if msg[start] >= INDIR then 2 else 1
  {
    if |w.pos| > 1 {
      assert StepOf(msg, w, 0);
    }
  }

  /** The second pass. */
  method CopyLabels(msg: seq<byte>, start: nat, s: array<byte>, ghost w: Walk) returns (q: nat, enclen: nat)
    requires IsWalk(msg, w, start) && s.Length == |w.text[|w.text|-1]| && start < |msg|
    modifies s
    ensures q == s.Length && s[..] == w.text[|w.text|-1]
    ensures start + enclen == InPlaceEnd(msg, start)
  {
    q, enclen := 0, 0;
    var p: nat, indir := start, false;
    ghost var k: nat := 0;
    while msg[p] != 0
      invariant p < |msg| && k < |w.pos| && p == w.pos[k]
      invariant q == |w.text[k]| <= s.Length && s[..q] == w.text[k]
      invariant if indir then start + enclen == InPlaceEnd(msg, start) else InPlaceEnd(msg, p) == InPlaceEnd(msg, start)
      decreases |w.pos| - k
    {
      assert StepOf(msg, w, k);
      if msg[p] >= INDIR {
        if !indir {
          enclen := p + 2 - start;
          indir := true;
        }
        p := (msg[p] - INDIR) * 256 + msg[p + 1];
      } else {
        var len := msg[p];
        q := CopyLabel(msg, p, len, s, q, w.text[k]);
        p := p + 1 + len;
      }
      k := k + 1;
    }
    if k + 1 < |w.pos| {
      StepGoesOn(msg, w, start, k);
    }
    if !indir {
      enclen := p + 1 - start;
    }
    assert s[..] == s[..q];
  }

  lemma StepGoesOn(msg: seq<byte>, w: Walk, start: nat, k: nat)
    requires IsWalk(msg, w, start) && k + 1 < |w.pos|
    ensures w.pos[k] < |msg| && msg[w.pos[k]] != 0
  {
    assert StepOf(msg, w, k);
  }

  /** Writes a label and the dot behind it. */
  method CopyLabel(msg: seq<byte>, p: nat, len: nat, s: array<byte>, q: nat, ghost txt: seq<byte>) returns (q': nat)
    requires p + 1 + len <= |msg| && q == |txt| && q + |Spelt(LabelAt(msg, p, len))| <= s.Length && s[..q] == txt
    modifies s
    ensures q' == q + |Spelt(LabelAt(msg, p, len))| && s[..q'] == txt + Spelt(LabelAt(msg, p, len))
  {
    q' := WriteLabel(msg, p + 1, len, s, q);
    ghost var before := s[..q'];
    s[q'] := DOT;
    q' := q' + 1;
    assert s[..q'] == before + [DOT];
  }
}
