/** Names survive being written and read, and dropping EDNS from a query gives the query
    that would have been built without it. */
module DnsRoundTrip {
  import opened Wrappers
  import opened DnsNames
  import opened DnsExpand
  import opened DnsQuery

  /* ---- What is written is read back ---- */

  lemma {:induction false} FlatSplit(ls: seq<Label>, k: nat)
    requires k < |ls|
    ensures |Flat(ls[..k])| + 1 + |ls[k]| <= |Flat(ls)|
    ensures Flat(ls)[..|Flat(ls[..k])|] == Flat(ls[..k])
    ensures Flat(ls)[|Flat(ls[..k])|] == |ls[k]|
    ensures Flat(ls)[|Flat(ls[..k])|+1..|Flat(ls[..k])|+1+|ls[k]|] == ls[k]
    ensures |Flat(ls[..k+1])| == |Flat(ls[..k])| + 1 + |ls[k]|
    decreases |ls|
  {
    var n, last := |ls| - 1, ls[|ls|-1];
    assert ls[..k+1][..k] == ls[..k];
    if k < n {
      FlatSplit(ls[..n], k);
      assert ls[..n][..k] == ls[..k] && ls[..n][..k+1] == ls[..k+1];
      var f := Flat(ls[..n]);
      assert Flat(ls) == f + ([|last|] + last);
      assert Flat(ls)[..|f|] == f;
    }
  }

  lemma SliceIn(msg: seq<byte>, pos: nat, f: seq<int>, i: nat, j: nat)
    requires pos + |f| <= |msg| && msg[pos..pos+|f|] == f && i <= j <= |f|
    ensures msg[pos+i..pos+j] == f[i..j] && (i < |f| ==> msg[pos+i] == f[i])
  {
    var a, b := msg[pos..pos+|f|][i..j], msg[pos+i..pos+j];
    assert forall t :: 0 <= t < j - i ==> a[t] == b[t];
    assert a == b;
    assert i < |f| ==> msg[pos..pos+|f|][i] == msg[pos+i];
  }

  /** The labels `ls` are written at `pos`. */
  ghost predicate Written(msg: seq<byte>, pos: nat, ls: seq<Label>) {
    pos + |Flat(ls)| < |msg| && msg[pos..pos+|Flat(ls)|] == Flat(ls) && LabelsOK(ls)
  }

  /** Where the `k`-th label is written there is a run of its length. */
  lemma RunWritten(msg: seq<byte>, pos: nat, ls: seq<Label>, k: nat, l: Label, n: nat)
    requires Written(msg, pos, ls) && k < |ls| && l == ls[k] && n == |Flat(ls[..k])|
    ensures n + 1 + |l| <= |Flat(ls)| && |Flat(ls[..k+1])| == n + 1 + |l| && ls[..k+1] == ls[..k] + [l]
    ensures pos + n + 1 + |l| < |msg| && StepAt(msg, pos + n) == Run(|l|) && LabelAt(msg, pos + n, |l|) == l
  {
    FlatSplit(ls, k);
    SliceIn(msg, pos, Flat(ls), n, n);
    SliceIn(msg, pos, Flat(ls), n + 1, n + 1 + |l|);
  }

  lemma WalkStarts(msg: seq<byte>, pos: nat, ls: seq<Label>)
    requires Written(msg, pos, ls)
    ensures ls[..0] == [] && Flat(ls[..0]) == [] && WalkAt(msg, pos, 0) == Some(pos)
    ensures LabelsMet(msg, pos, 0) == ls[..0]
  {
  }

  /** Labels as they were written are met one by one. */
  lemma {:induction false} WalkWritten(msg: seq<byte>, pos: nat, ls: seq<Label>, k: nat)
    requires Written(msg, pos, ls) && k <= |ls|
    ensures |Flat(ls[..k])| <= |Flat(ls)| && InPlaceEnd(msg, pos + |Flat(ls[..k])|) == InPlaceEnd(msg, pos)
    ensures WalkAt(msg, pos, k) == Some(pos + |Flat(ls[..k])|) && LabelsMet(msg, pos, k) == ls[..k]
    decreases k
  {
    hide WalkAt, LabelsMet, InPlaceEnd, StepAt, LabelAt, Written, Flat;
    if k == 0 {
      WalkStarts(msg, pos, ls);
    } else {
      WalkWritten(msg, pos, ls, k - 1);
      var l, n := ls[k-1], |Flat(ls[..k-1])|;
      RunWritten(msg, pos, ls, k - 1, l, n);
      StepWritten(msg, pos, k - 1, pos + n, ls[..k-1], l);
      assert ls[..k] == ls[..k-1] + [l];
    }
  }

  lemma StepWritten(msg: seq<byte>, pos: nat, k: nat, p: nat, met: seq<Label>, l: Label)
    requires WalkAt(msg, pos, k) == Some(p) && LabelsMet(msg, pos, k) == met && StepAt(msg, p) == Run(|l|)
    requires LabelAt(msg, p, |l|) == l
    ensures WalkAt(msg, pos, k + 1) == Some(p + 1 + |l|) && LabelsMet(msg, pos, k + 1) == met + [l]
    ensures InPlaceEnd(msg, p + 1 + |l|) == InPlaceEnd(msg, p)
  {
  }

  /** Reading a name where it was written gives its labels and nothing else. */
  lemma WrittenReads(msg: seq<byte>, pos: nat, ls: seq<Label>)
    requires Written(msg, pos, ls) && msg[pos+|Flat(ls)|] == 0
    ensures forall ls' :: Reads(msg, pos, ls') <==> ls' == ls
    ensures Ends(msg, pos) && InPlaceEnd(msg, pos) == pos + |Flat(ls)| + 1
  {
    hide WalkAt, LabelsMet, Flat, Reads, InPlaceEnd;
    assert ls[..|ls|] == ls;
    WalkWritten(msg, pos, ls, |ls|);
    assert EndsAt(msg, pos, |ls|);
    ReadsOnce(msg, pos, |ls|);
    ZeroEnds(msg, pos + |Flat(ls)|);
  }

  lemma ZeroEnds(msg: seq<byte>, p: nat)
    requires p < |msg| && msg[p] == 0
    ensures InPlaceEnd(msg, p) == p + 1
  {
  }

  /* ---- Compressed names ---- */

  /** A name that is a pointer is the name it points to. */
  lemma PointerReads(msg: seq<byte>, pos: nat, t: nat)
    requires pos + 1 < |msg| && t < |msg| && t < 0x4000
    requires msg[pos] == 192 + t / 256 && msg[pos+1] == t % 256
    ensures forall ls :: Reads(msg, pos, ls) <==> Reads(msg, t, ls)
    ensures Ends(msg, pos) <==> Ends(msg, t)
    ensures InPlaceEnd(msg, pos) == pos + 2
  {
    PointerTo(msg, pos, t);
    ReadsFrom(msg, pos, 1, t);
  }

  /** The name at `pos` is the labels met up to `p`, followed by the name at `p`. */
  lemma ReadsFrom(msg: seq<byte>, pos: nat, n: nat, p: nat)
    requires WalkAt(msg, pos, n) == Some(p)
    ensures Ends(msg, pos) <==> Ends(msg, p)
    ensures forall ls :: Reads(msg, p, ls) ==> Reads(msg, pos, LabelsMet(msg, pos, n) + ls)
    ensures LabelsMet(msg, pos, n) == [] ==> forall ls :: Reads(msg, pos, ls) <==> Reads(msg, p, ls)
  {
    hide WalkAt, LabelsMet;
    if k: nat :| EndsAt(msg, pos, k) {
      var d := StepsLeft(msg, pos, n, p, k);
    }
    forall k: nat | EndsAt(msg, p, k) ensures Reads(msg, pos, LabelsMet(msg, pos, n) + LabelsMet(msg, p, k)) {
      WalkFrom(msg, pos, n, p, k);
      assert EndsAt(msg, pos, n + k);
    }
    forall ls | Reads(msg, pos, ls) && LabelsMet(msg, pos, n) == [] ensures Reads(msg, p, ls) {
      var k: nat :| EndsAt(msg, pos, k) && LabelsMet(msg, pos, k) == ls;
      var d := StepsLeft(msg, pos, n, p, k);
    }
    forall ls | Reads(msg, p, ls) && LabelsMet(msg, pos, n) == [] ensures Reads(msg, pos, ls) {
      assert [] + ls == ls;
    }
  }

  lemma StepsLeft(msg: seq<byte>, pos: nat, n: nat, p: nat, k: nat) returns (d: nat)
    requires WalkAt(msg, pos, n) == Some(p) && EndsAt(msg, pos, k)
    ensures k == n + d && EndsAt(msg, p, d)
    ensures LabelsMet(msg, pos, k) == LabelsMet(msg, pos, n) + LabelsMet(msg, p, d)
  {
    if k < n {
      WalkBefore(msg, pos, k, n);
    }
    d := k - n;
    WalkFrom(msg, pos, n, p, d);
  }

  /** Labels written at `pos` and then a pointer to labels written at `t` are read as the
      first followed by the second. */
  lemma CompressedReads(msg: seq<byte>, pos: nat, first: seq<Label>, t: nat, second: seq<Label>)
    requires Written(msg, pos, first) && Written(msg, t, second) && msg[t+|Flat(second)|] == 0 && t < 0x4000
    requires var p := pos + |Flat(first)|; p + 1 < |msg| && msg[p] == 192 + t / 256 && msg[p+1] == t % 256
    ensures forall ls :: Reads(msg, pos, ls) <==> ls == first + second
    ensures Ends(msg, pos) && InPlaceEnd(msg, pos) == pos + |Flat(first)| + 2
  {
    hide WalkAt, LabelsMet, Flat, Reads, InPlaceEnd, Ends;
    var p := pos + |Flat(first)|;
    WrittenReads(msg, t, second);
    PointerReads(msg, p, t);
    assert first[..|first|] == first;
    WalkWritten(msg, pos, first, |first|);
    ReadsFrom(msg, pos, |first|, p);
    assert Reads(msg, p, second);
    OneReading(msg, pos, first + second);
  }

  lemma OneReading(msg: seq<byte>, pos: nat, ls: seq<Label>)
    requires Reads(msg, pos, ls)
    ensures forall ls' :: Reads(msg, pos, ls') <==> ls' == ls
  {
    var k: nat :| EndsAt(msg, pos, k) && LabelsMet(msg, pos, k) == ls;
    ReadsOnce(msg, pos, k);
  }

  /** Expanding a compressed name: labels, then a pointer to the rest elsewhere. */
  method ReadCompressed(msg: seq<byte>, pos: nat, ghost first: seq<Label>, ghost t: nat, ghost second: seq<Label>)
    returns (text: array<byte>, enclen: nat)
    requires forall l :: l in first + second ==> 1 <= |l| <= 63
    requires pos + |Flat(first)| + 1 < |msg| && msg[pos..pos+|Flat(first)|] == Flat(first)
    requires msg[pos+|Flat(first)|] == 192 + t / 256 && msg[pos+|Flat(first)|+1] == t % 256
    requires t + |Flat(second)| < |msg| && msg[t..t+|Flat(second)|] == Flat(second) && msg[t+|Flat(second)|] == 0
    ensures text[..] == Canon(first + second) + [0] && enclen == |Flat(first)| + 2
  {
    assert forall i :: 0 <= i < |first| ==> first[i] in first + second;
    assert forall i :: 0 <= i < |second| ==> second[i] in first + second;
    CompressedReads(msg, pos, first, t, second);
    var ok;
    ok, text, enclen := ExpandName(msg, pos);
    assert Reads(msg, pos, first + second);
  }

  lemma PacketName(ls: seq<Label>, dnsclass: nat, qtype: nat, id: nat, rd: bool, maxUdpSize: nat)
    ensures var p := Packet(ls, dnsclass, qtype, id, rd, maxUdpSize); var n := |Flat(ls)|;
      |p| > HFIXEDSZ + n && p[HFIXEDSZ..HFIXEDSZ+n] == Flat(ls) && p[HFIXEDSZ+n] == 0
      && |p| == HFIXEDSZ + n + 1 + QFIXEDSZ + (if maxUdpSize != 0 then EDNSFIXEDSZ else 0)
  {
    var p := Packet(ls, dnsclass, qtype, id, rd, maxUdpSize);
    assert |Header(id, rd, maxUdpSize != 0)| == HFIXEDSZ;
  }

  /** Decoding the name of an encoded query yields its canonical text: the round trip.  The
      question's type and class stand right behind the name. */
  method AskAndRead(name: seq<byte>, dnsclass: nat, qtype: nat, id: nat, rd: bool, maxUdpSize: nat)
    returns (text: array?<byte>, enclen: nat, buf: array<byte>, buflen: nat)
    ensures text != null <==> ValidName(name)
    ensures text != null ==>
      text[..] == Canon(Labels(name).value) + [0] && enclen == |Flat(Labels(name).value)| + 1 <= 255
    ensures text != null ==>
      var k := 12 + enclen;
      && k + 4 <= buflen <= buf.Length
      && 256 * (buf[k] as int) + buf[k+1] == qtype % 0x1_0000
      && 256 * (buf[k+2] as int) + buf[k+3] == dnsclass % 0x1_0000
  {
    text, enclen := null, 0;
    var ok;
    ok, buf, buflen := CreateQuery(name, dnsclass, qtype, id, rd, maxUdpSize);
    if !ok {
      return;
    }
    ghost var ls := Labels(name).value;
    PacketName(ls, dnsclass, qtype, id, rd, maxUdpSize);
    WrittenReads(buf[..buflen], HFIXEDSZ, ls);
    var read;
    read, text, enclen := ExpandName(buf[..buflen], HFIXEDSZ);
    assert Reads(buf[..buflen], HFIXEDSZ, ls);
  }

  /* ---- Canonical text is read as the labels it came from ---- */

  /** An escaped label is read as the label. */
  lemma {:induction false} ReadLabel(name: seq<byte>, i: nat, l: Label)
    requires i + |Escape(l)| <= |name| && name[i..i+|Escape(l)|] == Escape(l)
    requires i + |Escape(l)| == |name| || name[i + |Escape(l)|] == DOT
    ensures LabelEnd(name, i) == i + |Escape(l)| && LabelText(name, i) == l
    decreases |l|
  {
    if l != [] {
      EscapeFirst(l);
      var w := if l[0] == DOT || l[0] == BACKSLASH then 2 else 1;
      var s := name[i..i+|Escape(l)|];
      assert name[i] == s[0] && name[i + w - 1] == s[w - 1] == l[0];
      assert name[i+w..i+|Escape(l)|] == s[w..] == Escape(l[1..]);
      ReadLabel(name, i + w, l[1..]);
      assert l == [l[0]] + l[1..];
    }
  }

  /** A text whose first label is known, with the dot that is not written at its end. */
  lemma FirstLabel(name: seq<byte>, i: nat, e: seq<byte>, d: seq<byte>)
    requires i <= |name| && name[i..] + [DOT] == e + [DOT] + d && (d == [] || d[|d|-1] == DOT)
    ensures i + |e| <= |name| && name[i..i+|e|] == e
    ensures if d == [] then i + |e| == |name|
      else i + |e| < |name| && name[i+|e|] == DOT && name[i+|e|+1..] + [DOT] == d
  {
    var s := name[i..] + [DOT];
    assert name[i..i+|e|] == s[..|e|] == e;
    if d != [] {
      assert name[i+|e|] == s[|e|] == DOT;
      assert name[i+|e|+1..] + [DOT] == s[|e|+1..] == d;
    }
  }

  /** The first label of canonical text is where it was written. */
  lemma CanonHead(name: seq<byte>, i: nat, ls: seq<Label>)
    requires LabelsOK(ls) && i <= |name| && name[i..] + [DOT] == Dotted(ls) && ls != []
    ensures var e := i + |Escape(ls[0])|;
      && i < e <= |name| && name[i] != DOT && LabelEnd(name, i) == e && LabelText(name, i) == ls[0] && LabelsOK(ls[1..])
      && if |ls| == 1 then e == |name| else e + 1 <= |name| && name[e+1..] + [DOT] == Dotted(ls[1..])
  {
    var l, rest := ls[0], ls[1..];
    DottedFirst(ls);
    CanonLength(rest);
    FirstLabel(name, i, Escape(l), Dotted(rest));
    ReadLabel(name, i, l);
    EscapeFirst(l);
    HeadAt(name, i, Escape(l));
  }

  lemma HeadAt(name: seq<byte>, i: nat, e: seq<byte>)
    requires e != [] && i + |e| <= |name| && name[i..i+|e|] == e
    ensures name[i] == e[0]
  {
    assert name[i..i+|e|][0] == e[0];
  }

  lemma {:induction false} ReadCanon(name: seq<byte>, i: nat, ls: seq<Label>)
    requires LabelsOK(ls) && i <= |name| && name[i..] + [DOT] == Dotted(ls) && ls != []
    ensures LabelsFrom(name, i) == Some(ls) && i < |name| && name[i] != DOT
    decreases |ls|
  {
    hide LabelsFrom, Escape, Dotted, LabelEnd, LabelText, LabelsOK;
    CanonHead(name, i, ls);
    var l, rest, e := ls[0], ls[1..], i + |Escape(ls[0])|;
    if |ls| > 1 {
      ReadCanon(name, e + 1, rest);
    }
    LabelThen(name, i, e, l, rest);
    assert [l] + rest == ls;
  }

  lemma LabelThen(name: seq<byte>, i: nat, e: nat, l: Label, rest: seq<Label>)
    requires i < e <= |name| && name[i] != DOT && LabelEnd(name, i) == e && LabelText(name, i) == l
    requires if rest == [] then e == |name| else e + 1 <= |name| && LabelsFrom(name, e + 1) == Some(rest)
    ensures LabelsFrom(name, i) == Some([l] + rest)
  {
    hide LabelEnd, LabelText;
    assert rest == [] ==> [l] + rest == [l];
  }

  /** Canonical names are fixed points: they stand for the labels they were made from. */
  lemma CanonFixed(ls: seq<Label>)
    requires LabelsOK(ls)
    ensures Labels(Canon(ls)) == Some(ls)
  {
    var t := Canon(ls);
    if ls != [] {
      CanonLength(ls);
      assert t[0..] + [DOT] == Dotted(ls);
      ReadCanon(t, 0, ls);
    }
  }

  /** So reading, writing and reading again changes nothing any more. */
  lemma CanonicalTwice(name: seq<byte>)
    requires ValidName(name)
    ensures var t := Canon(Labels(name).value);
      ValidName(t) && Labels(t) == Labels(name) && Canon(Labels(t).value) == t
  {
    CanonFixed(Labels(name).value);
  }

  /* ---- The grammar of names ---- */

  /** The text from `i` to `e` spells the label `l`: a backslash makes the next byte plain,
      and any other byte but a dot stands for itself. */
  ghost predicate Spells(name: seq<byte>, i: nat, e: nat, l: Label)
    decreases |l|
  {
    && i <= e <= |name|
    && if l == [] then i == e
       else if i < |name| && name[i] == 92 && i + 1 < |name| then l[0] == name[i+1] && Spells(name, i + 2, e, l[1..])
       else i < |name| && name[i] != 46 && l[0] == name[i] && Spells(name, i + 1, e, l[1..])
  }

  /** The text from `i` on is these labels with dots between them, and perhaps one behind. */
  ghost predicate Joined(name: seq<byte>, i: nat, ls: seq<Label>)
    decreases |ls|
  {
    if ls == [] then i == |name|
    else exists e: nat :: JoinedAt(name, i, e, ls)
  }

  ghost predicate JoinedAt(name: seq<byte>, i: nat, e: nat, ls: seq<Label>)
    requires ls != []
    decreases |ls|, 0
  {
    && i < e && Spells(name, i, e, ls[0]) && ls[0] != []
    && if e == |name| then |ls| == 1 else e < |name| && name[e] == 46 && Joined(name, e + 1, ls[1..])
  }

  lemma {:induction false} LabelSpelt(name: seq<byte>, i: nat, e: nat, l: Label)
    requires i <= |name|
    ensures e == LabelEnd(name, i) && l == LabelText(name, i) <==>
      Spells(name, i, e, l) && (e == |name| || name[e] == 46)
    decreases |name| - i
  {
    if i < |name| && name[i] != 46 {
      var b := if name[i] == 92 && i + 1 < |name| then i + 1 else i;
      LabelGoesOn(name, i);
      if l != [] {
        LabelSpelt(name, b + 1, e, l[1..]);
        assert l == [l[0]] + l[1..];
      }
    }
  }

  /** The labels of a text are exactly those it is made of. */
  lemma {:induction false} LabelsJoined(name: seq<byte>, i: nat, ls: seq<Label>)
    requires i <= |name|
    ensures LabelsFrom(name, i) == Some(ls) <==> Joined(name, i, ls)
    decreases |name| - i
  {
    hide LabelText, LabelEnd, Spells;
    if i == |name| || name[i] == 46 {
      NotSpelt(name, i);
    } else {
      LabelGoesOn(name, i);
      var e, l := LabelEnd(name, i), LabelText(name, i);
      LabelSpelt(name, i, e, l);
      if ls != [] {
        forall e': nat | JoinedAt(name, i, e', ls) ensures e' == e && ls[0] == l {
          FirstSpelt(name, i, e', ls);
        }
        if e < |name| {
          LabelsJoined(name, e + 1, ls[1..]);
          if LabelsFrom(name, e + 1).Some? {
            Cons(l, LabelsFrom(name, e + 1).value, ls);
          }
        } else {
          Cons(l, [], ls);
          assert [l] + [] == [l];
        }
        assert Joined(name, i, ls) <==> JoinedAt(name, i, e, ls);
      }
    }
  }

  lemma Cons(l: Label, rest: seq<Label>, ls: seq<Label>)
    ensures [l] + rest == ls <==> ls != [] && ls[0] == l && ls[1..] == rest
  {
    assert ([l] + rest)[1..] == rest;
    assert ls != [] ==> ls == [ls[0]] + ls[1..];
  }

  lemma FirstSpelt(name: seq<byte>, i: nat, e: nat, ls: seq<Label>)
    requires ls != [] && JoinedAt(name, i, e, ls) && i <= |name|
    ensures e == LabelEnd(name, i) && ls[0] == LabelText(name, i)
  {
    hide Spells;
    LabelSpelt(name, i, e, ls[0]);
  }

  lemma NotSpelt(name: seq<byte>, i: nat)
    requires i == |name| || (i < |name| && name[i] == 46)
    ensures forall e: nat, l: Label :: l != [] ==> !Spells(name, i, e, l)
  {
  }

  /* ---- EDNS taken out again ---- */

  /** A query as it goes over TCP: its length in two bytes, then the query. */
  function TcpForm(q: seq<int>): seq<int> {
    [High(|q|), Low(|q|)] + q
  }

  /** Prepends the length to a query. */
  method FormTcp(q: array<byte>, qlen: nat) returns (tcpbuf: array<byte>)
    requires qlen <= q.Length
    ensures fresh(tcpbuf) && tcpbuf[..] == TcpForm(q[..qlen])
    ensures tcpbuf.Length == qlen + 2 && 256 * (tcpbuf[0] as int) + tcpbuf[1] == qlen % 0x1_0000
    ensures tcpbuf[2..] == q[..qlen]
  {
    tcpbuf := new byte[qlen + 2];
    tcpbuf[0], tcpbuf[1] := High(qlen), Low(qlen);
    var i := 0;
    while i < qlen
      invariant 0 <= i <= qlen && tcpbuf[0] == High(qlen) && tcpbuf[1] == Low(qlen)
      invariant tcpbuf[2..2+i] == q[..i]
    {
      tcpbuf[2 + i] := q[i];
      i := i + 1;
    }
    assert tcpbuf[2..] == tcpbuf[2..2+qlen];
    assert tcpbuf[..] == [High(qlen), Low(qlen)] + tcpbuf[2..2+qlen];
    TwoBytes(qlen);
  }

  /** Takes the EDNS record off the end of a query: byte for byte what the encoder
      produces without EDNS. */
  method StripEdns(tcpbuf: array<byte>, tcplen: nat, ghost ls: seq<Label>, ghost dnsclass: nat, ghost qtype: nat,
                   ghost id: nat,
                   ghost rd: bool, ghost maxUdpSize: nat) returns (tcplen': nat)
    requires tcplen == tcpbuf.Length && maxUdpSize != 0
    requires tcpbuf[..] == TcpForm(Packet(ls, dnsclass, qtype, id, rd, maxUdpSize))
    modifies tcpbuf
    ensures tcplen' <= tcpbuf.Length && tcpbuf[..tcplen'] == TcpForm(Packet(ls, dnsclass, qtype, id, rd, 0))
    ensures tcplen' + 11 == tcplen && 256 * (tcpbuf[0] as int) + tcpbuf[1] == (tcplen' - 2) % 0x1_0000
    ensures tcpbuf[12] == tcpbuf[13] == 0
    ensures forall i :: 2 <= i < tcplen && i != 12 && i != 13 ==> tcpbuf[i] == old(tcpbuf[i])
  {
    PacketName(ls, dnsclass, qtype, id, rd, maxUdpSize);
    ghost var before := tcpbuf[..];
    var qlen := tcplen - 2 - EDNSFIXEDSZ;
    tcplen' := tcplen - EDNSFIXEDSZ;
    tcpbuf[0], tcpbuf[1] := High(qlen), Low(qlen);
    tcpbuf[2 + 10], tcpbuf[2 + 11] := 0, 0;
    TwoBytes(qlen);
    ghost var tail := Flat(ls) + [0] + Question(qtype, dnsclass);
    StripParts(before, ls, dnsclass, qtype, id, rd, maxUdpSize, tail);
    assert tcpbuf[14..tcplen'] == before[14..tcplen'] == tail;
    assert tcpbuf[..tcplen'] == [High(qlen), Low(qlen)] + Header(id, rd, false) + tail;
  }

  lemma StripParts(before: seq<int>, ls: seq<Label>, dnsclass: nat, qtype: nat, id: nat, rd: bool, maxUdpSize: nat,
                   tail: seq<int>)
    requires maxUdpSize != 0 && before == TcpForm(Packet(ls, dnsclass, qtype, id, rd, maxUdpSize))
    requires tail == Flat(ls) + [0] + Question(qtype, dnsclass)
    ensures |before| == 14 + |tail| + EDNSFIXEDSZ
    ensures before[2..14] == Header(id, rd, true) && before[14..14+|tail|] == tail
    ensures TcpForm(Packet(ls, dnsclass, qtype, id, rd, 0)) == [High(12 + |tail|), Low(12 + |tail|)] +
      Header(id, rd, false) + tail
  {
    Regroup(Header(id, rd, true), Flat(ls), [0], Question(qtype, dnsclass), OptRecord(maxUdpSize));
    Regroup(Header(id, rd, false), Flat(ls), [0], Question(qtype, dnsclass), []);
    var p := Packet(ls, dnsclass, qtype, id, rd, maxUdpSize);
    assert p == Header(id, rd, true) + tail + OptRecord(maxUdpSize);
    assert before[2..14] == p[..12] && before[14..14+|tail|] == p[12..12+|tail|];
    assert Packet(ls, dnsclass, qtype, id, rd, 0) == Header(id, rd, false) + tail;
  }

  lemma Regroup(h: seq<int>, f: seq<int>, z: seq<int>, q: seq<int>, o: seq<int>)
    ensures h + f + z + q + o == h + (f + z + q) + o
    ensures h + f + z + q + [] == h + (f + z + q)
  {
  }
}
