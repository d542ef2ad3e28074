/** Writing a query: header, the name as labels, the question, and the EDNS record. */
module DnsQuery {
  import opened Wrappers
  import opened DnsNames

  const HFIXEDSZ: nat := 12
  const QFIXEDSZ: nat := 4
  const EDNSFIXEDSZ: nat := 11
  const T_OPT: nat := 41

  /* ---- Names as text ---- */

  /** Where the label that starts at `i` ends: at a dot that is not escaped, or at the end. */
  function LabelEnd(name: seq<byte>, i: nat): (e: nat)
    requires i <= |name|
    ensures i <= e <= |name| && (e == |name| || name[e] == DOT)
    decreases |name| - i
  {
    if i == |name| || name[i] == DOT then i
    else if name[i] == BACKSLASH && i + 1 < |name| then LabelEnd(name, i + 2)
    else LabelEnd(name, i + 1)
  }

  /** The label that starts at `i`, without its escapes. */
  function LabelText(name: seq<byte>, i: nat): (l: Label)
    requires i <= |name|
    ensures |l| <= LabelEnd(name, i) - i
    decreases |name| - i
  {
    if i == |name| || name[i] == DOT then []
    else if name[i] == BACKSLASH && i + 1 < |name| then [name[i + 1]] + LabelText(name, i + 2)
    else [name[i]] + LabelText(name, i + 1)
  }

  lemma LabelGoesOn(name: seq<byte>, i: nat)
    requires i < |name| && name[i] != DOT
    ensures LabelEnd(name, i) > i && |LabelText(name, i)| >= 1
  {
  }

  /** The labels of the name that starts at `i`, unless one of them is empty. */
  function LabelsFrom(name: seq<byte>, i: nat): Option<seq<Label>>
    requires i <= |name|
    decreases |name| - i
  {
    if i == |name| then Some([])
    else if name[i] == DOT then None
    else
      LabelGoesOn(name, i);
      var e, l := LabelEnd(name, i), LabelText(name, i);
      if e == |name| then Some([l])
      else
        match LabelsFrom(name, e + 1)
        case None => None
        case Some(ls) => Some([l] + ls)
  }

  /** The labels of a name; a lone dot is the root. */
  function Labels(name: seq<byte>): Option<seq<Label>> {
    if name == [DOT] then Some([]) else LabelsFrom(name, 0)
  }

  /** A name that can be asked for. */
  ghost predicate ValidName(name: seq<byte>) {
    Labels(name).Some? && LabelsOK(Labels(name).value) && |Flat(Labels(name).value)| + 1 <= MAXCDNAME
  }

  /* ---- The packet ---- */

  function High(v: nat): byte {
    (v / 256) % 256
  }

  function Low(v: nat): byte {
    v % 256
  }

  function Header(id: nat, rd: bool, edns: bool): seq<int> {
    [High(id), Low(id), if rd then 1 else 0, 0, 0, 1, 0, 0, 0, 0, 0, if edns then 1 else 0]
  }

  function Question(qtype: nat, dnsclass: nat): seq<int> {
    [High(qtype), Low(qtype), High(dnsclass), Low(dnsclass)]
  }

  function OptRecord(maxUdpSize: nat): seq<int> {
    [0, High(T_OPT), Low(T_OPT), High(maxUdpSize), Low(maxUdpSize), 0, 0, 0, 0, 0, 0]
  }

  /** A query as bytes. */
  function Packet(ls: seq<Label>, dnsclass: nat, qtype: nat, id: nat, rd: bool, maxUdpSize: nat): seq<int> {
    Header(id, rd, maxUdpSize != 0) + Flat(ls) + [0] + Question(qtype, dnsclass) +
      (if maxUdpSize != 0 then OptRecord(maxUdpSize) else [])
  }

  lemma TwoBytes(v: nat)
    ensures High(v) * 256 + Low(v) == v % 0x1_0000
  {
  }

  /** What a query says, field by field (section 4.1 of RFC 1035, section 6.1 of RFC 6891). */
  lemma PacketFields(ls: seq<Label>, dnsclass: nat, qtype: nat, id: nat, rd: bool, maxUdpSize: nat)
    ensures var p := Packet(ls, dnsclass, qtype, id, rd, maxUdpSize);
      var k := 12 + |Flat(ls)| + 1;
      && |p| == k + 4 + (if maxUdpSize != 0 then 11 else 0)
      && p[0] * 256 + p[1] == id % 0x1_0000 && p[2] == (if rd then 1 else 0) && p[3] == 0
      && p[4] * 256 + p[5] == 1 && p[6] == p[7] == p[8] == p[9] == 0
      && p[10] * 256 + p[11] == (if maxUdpSize != 0 then 1 else 0)
      && p[12..k] == Flat(ls) + [0]
      && p[k] * 256 + p[k+1] == qtype % 0x1_0000 && p[k+2] * 256 + p[k+3] == dnsclass % 0x1_0000
      && (maxUdpSize != 0 ==>
            && p[k+4] == 0 && p[k+5] * 256 + p[k+6] == 41 && p[k+7] * 256 + p[k+8] == maxUdpSize % 0x1_0000
            && forall i :: k + 9 <= i < |p| ==> p[i] == 0)
  {
    hide High, Low, Flat;
    TwoBytes(1);
    TwoBytes(T_OPT);
    TwoBytes(id);
    TwoBytes(qtype);
    TwoBytes(dnsclass);
    TwoBytes(maxUdpSize);
  }

  /* ---- Writing it ---- */

  /** Counts the bytes of a label. */
  method MeasureLabel(name: seq<byte>, i: nat) returns (len: nat)
    requires i <= |name|
    ensures len == |LabelText(name, i)|
  {
    len := 0;
    var p := i;
    while p < |name| && name[p] != DOT
      invariant i <= p <= |name| && len + |LabelText(name, p)| == |LabelText(name, i)|
      decreases |name| - p
    {
      if name[p] == BACKSLASH && p + 1 < |name| {
        p := p + 1;
      }
      len := len + 1;
      p := p + 1;
    }
  }

  /** Copies a label without its escapes. */
  method CopyText(name: seq<byte>, i: nat, buf: array<byte>, q: nat, ghost pre: seq<byte>) returns (p: nat, q': nat)
    requires i <= |name| && q + |LabelText(name, i)| <= buf.Length && buf[..q] == pre
    modifies buf
    ensures p == LabelEnd(name, i) && q' == q + |LabelText(name, i)|
    ensures buf[..q'] == pre + LabelText(name, i)
  {
    p, q' := i, q;
    ghost var out: seq<byte> := [];
    TextStarts(name, i);
    hide LabelEnd, LabelText;
    while p < |name| && name[p] != DOT
      invariant i <= p <= |name| && InText(name, i, p, out) && q' == q + |out| <= buf.Length && buf[..q'] == pre + out
      decreases |name| - p
    {
      TextStep(name, i, p, out);
      if name[p] == BACKSLASH && p + 1 < |name| {
        p := p + 1;
      }
      buf[q'] := name[p];
      q' := q' + 1;
      assert buf[..q'] == pre + (out + [name[p]]);
      out := out + [name[p]];
      p := p + 1;
    }
    TextEnds(name, i, p, out);
  }

  /** A copy of the label at `i` has come to `p` and has written `out`. */
  ghost predicate InText(name: seq<byte>, i: nat, p: nat, out: seq<byte>) {
    i <= |name| && p <= |name| && LabelEnd(name, p) == LabelEnd(name, i) &&
      out + LabelText(name, p) == LabelText(name, i)
  }

  lemma TextStarts(name: seq<byte>, i: nat)
    requires i <= |name|
    ensures InText(name, i, i, [])
  {
    assert [] + LabelText(name, i) == LabelText(name, i);
  }

  lemma TextStep(name: seq<byte>, i: nat, p: nat, out: seq<byte>)
    requires InText(name, i, p, out) && p < |name| && name[p] != DOT
    ensures |out| < |LabelText(name, i)|
    ensures var r := if name[p] == BACKSLASH && p + 1 < |name| then p + 1 else p;
      InText(name, i, r + 1, out + [name[r]])
  {
    var r := if name[p] == BACKSLASH && p + 1 < |name| then p + 1 else p;
    Shift(out, name[r], LabelText(name, r + 1));
  }

  lemma Shift(a: seq<byte>, b: byte, c: seq<byte>)
    ensures a + ([b] + c) == (a + [b]) + c
  {
  }

  lemma TextEnds(name: seq<byte>, i: nat, p: nat, out: seq<byte>)
    requires InText(name, i, p, out) && (p == |name| || name[p] == DOT)
    ensures p == LabelEnd(name, i) && out == LabelText(name, i)
  {
    assert out + [] == out;
  }

  /** The wire form of the name that starts at `i`, if it has one. */
  function FlatFrom(name: seq<byte>, i: nat): Option<seq<int>>
    requires i <= |name|
    decreases |name| - i
  {
    if i == |name| then Some([])
    else if name[i] == DOT then None
    else
      LabelGoesOn(name, i);
      var e, l := LabelEnd(name, i), LabelText(name, i);
      if |l| > MAXLABEL then None
      else if e == |name| then Some([|l|] + l)
      else
        match FlatFrom(name, e + 1)
        case None => None
        case Some(f) => Some([|l|] + l + f)
  }

  lemma {:induction false} FlatFirst(ls: seq<Label>)
    requires ls != []
    ensures Flat(ls) == [|ls[0]|] + ls[0] + Flat(ls[1..])
    decreases |ls|
  {
    var n := |ls| - 1;
    if n > 0 {
      FlatFirst(ls[..n]);
      assert ls[..n][1..] == ls[1..][..n-1] && ls[1..][n-1] == ls[n];
    }
  }

  lemma {:induction false} FlatIs(name: seq<byte>, i: nat)
    requires i <= |name|
    ensures FlatFrom(name, i).Some? <==> LabelsFrom(name, i).Some? && LabelsOK(LabelsFrom(name, i).value)
    ensures FlatFrom(name, i).Some? ==>
      FlatFrom(name, i).value == Flat(LabelsFrom(name, i).value) && |FlatFrom(name, i).value| <= |name| - i + 1
    decreases |name| - i
  {
    if i < |name| && name[i] != DOT {
      LabelGoesOn(name, i);
      var e, l := LabelEnd(name, i), LabelText(name, i);
      if e < |name| {
        FlatIs(name, e + 1);
        if LabelsFrom(name, e + 1).Some? {
          FlatIsNext(l, LabelsFrom(name, e + 1).value);
        }
      } else {
        FlatIsNext(l, []);
      }
    }
  }

  lemma FlatIsNext(l: Label, ls: seq<Label>)
    requires |l| >= 1
    ensures Flat([l] + ls) == [|l|] + l + Flat(ls) && (LabelsOK([l] + ls) <==> |l| <= MAXLABEL && LabelsOK(ls))
    ensures Flat([l]) == [|l|] + l && (LabelsOK([l]) <==> |l| <= MAXLABEL)
  {
    var all := [l] + ls;
    FlatFirst(all);
    assert all[0] == l && all[1..] == ls;
    FlatFirst([l]);
    assert [l][1..] == [];
    if LabelsOK(all) {
      assert forall i :: 0 <= i < |ls| ==> ls[i] == all[i + 1];
    }
  }

  /** The bytes written so far and those still to come make up the name. */
  ghost predicate Encoding(name: seq<byte>, start: nat, i: nat, out: seq<byte>) {
    EncodingParts(name, start, i, out) == true
  }

  ghost predicate EncodingParts(name: seq<byte>, start: nat, i: nat, out: seq<byte>) {
    && start <= i <= |name| && |out| <= i
    && FlatFrom(name, start) == match FlatFrom(name, i) case None => None case Some(f) => Some(out + f)
  }

  lemma EncodingStarts(name: seq<byte>, start: nat)
    requires start <= |name|
    ensures Encoding(name, start, start, [])
  {
    if FlatFrom(name, start).Some? {
      assert [] + FlatFrom(name, start).value == FlatFrom(name, start).value;
    }
  }

  /** The end of the name, or an empty label. */
  lemma EncodingEnds(name: seq<byte>, start: nat, i: nat, out: seq<byte>)
    requires Encoding(name, start, i, out)
    ensures i <= |name| && |out| <= i
    ensures i == |name| ==> FlatFrom(name, start) == Some(out)
    ensures i < |name| && name[i] == DOT ==> FlatFrom(name, start).None?
  {
    assert out + [] == out;
  }

  lemma EncodingNext(name: seq<byte>, start: nat, i: nat, out: seq<byte>, l: Label, e: nat)
    requires Encoding(name, start, i, out) && i < |name| && name[i] != DOT && l == LabelText(name, i)
    requires e == LabelEnd(name, i)
    ensures e <= |name| && 1 <= |l| && |out| + 1 + |l| <= e + 1
    ensures |l| > MAXLABEL ==> FlatFrom(name, start).None?
    ensures |l| <= MAXLABEL && e < |name| ==> Encoding(name, start, e + 1, out + ([|l|] + l))
    ensures |l| <= MAXLABEL && e == |name| ==> FlatFrom(name, start) == Some(out + ([|l|] + l))
  {
    LabelGoesOn(name, i);
    if e < |name| && FlatFrom(name, e + 1).Some? {
      var f := FlatFrom(name, e + 1).value;
      assert out + ([|l|] + l + f) == (out + ([|l|] + l)) + f;
    }
  }

  /** Writes the labels of a name; fails at an empty or overlong one. */
  method EncodeName(name: seq<byte>, buf: array<byte>, q: nat, ghost pre: seq<byte>) returns (ok: bool, q': nat)
    requires q + |name| + 2 <= buf.Length && buf[..q] == pre
    modifies buf
    ensures ok <==> Labels(name).Some? && LabelsOK(Labels(name).value)
    ensures ok ==> q' == q + |Flat(Labels(name).value)| < buf.Length && buf[..q'] == pre + Flat(Labels(name).value)
    ensures ok ==> |Flat(Labels(name).value)| <= |name| + 1
  {
    var i := if name == [DOT] then 1 else 0;
    FlatIs(name, i);
    ok, q' := EncodeFrom(name, i, buf, q, pre);
  }

  /** Writes the labels from `start` on. */
  method EncodeFrom(name: seq<byte>, start: nat, buf: array<byte>, q: nat, ghost pre: seq<byte>)
    returns (ok: bool, q': nat)
    requires start <= |name| && q + |name| + 2 <= buf.Length && buf[..q] == pre
    modifies buf
    ensures ok <==> FlatFrom(name, start).Some?
    ensures ok ==> q' == q + |FlatFrom(name, start).value| && q' < buf.Length
    ensures ok ==> buf[..q'] == pre + FlatFrom(name, start).value
  {
    q' := q;
    var i := start;
    ghost var out: seq<byte> := [];
    EncodingStarts(name, start);
    EncodingEnds(name, start, i, out);
    while i < |name|
      invariant Encoding(name, start, i, out) && q' == q + |out| && |out| <= i <= |name| && buf[..q'] == pre + out
      decreases |name| - i
    {
      EncodingEnds(name, start, i, out);
      if name[i] == DOT {
        return false, q';
      }
      EncodingNext(name, start, i, out, LabelText(name, i), LabelEnd(name, i));
      var len := MeasureLabel(name, i);
      if len > MAXLABEL {
        return false, q';
      }
      var p;
      p, q', out := WriteLength(name, i, len, buf, q', pre, out);
      if p == |name| {
        return true, q';
      }
      i := p + 1;
      EncodingEnds(name, start, i, out);
    }
    EncodingEnds(name, start, i, out);
    return true, q';
  }

  /** Writes a label with its length in front. */
  method WriteLength(name: seq<byte>, i: nat, len: nat, buf: array<byte>, q: nat, ghost pre: seq<byte>,
                     ghost out: seq<byte>)
    returns (p: nat, q': nat, ghost out': seq<byte>)
    requires i <= |name| && len == |LabelText(name, i)| <= MAXLABEL && q + 1 + len <= buf.Length
    requires buf[..q] == pre + out
    modifies buf
    ensures p == LabelEnd(name, i) && q' == q + 1 + len
    ensures out' == out + ([len] + LabelText(name, i)) && buf[..q'] == pre + out'
  {
    buf[q] := len;
    assert buf[..q+1] == pre + out + [len];
    p, q' := CopyText(name, i, buf, q + 1, pre + out + [len]);
    out' := out + ([len] + LabelText(name, i));
    assert buf[..q'] == pre + out';
  }

  method WriteHeader(buf: array<byte>, id: nat, rd: bool, edns: bool)
    requires buf.Length >= HFIXEDSZ
    modifies buf
    ensures buf[..HFIXEDSZ] == Header(id, rd, edns)
  {
    hide High, Low, Header;
    OneIs();
    var i := 0;
    while i < HFIXEDSZ
      invariant 0 <= i <= HFIXEDSZ && forall j :: 0 <= j < i ==> buf[j] == 0
    {
      buf[i] := 0;
      i := i + 1;
    }
    buf[0], buf[1] := High(id), Low(id);
    if rd {
      buf[2] := 1;
    }
    buf[4], buf[5] := High(1), Low(1);
    if edns {
      buf[10], buf[11] := High(1), Low(1);
    }
    HeaderIs(buf, id, rd, edns);
  }

  lemma OneIs()
    ensures High(1) == 0 && Low(1) == 1
  {
  }

  lemma HeaderIs(buf: array<byte>, id: nat, rd: bool, edns: bool)
    requires buf.Length >= HFIXEDSZ && buf[0] == High(id) && buf[1] == Low(id)
    requires buf[2] == (if rd then 1 else 0) && buf[3] == buf[4] == 0 && buf[5] == 1
    requires buf[6] == buf[7] == buf[8] == buf[9] == buf[10] == 0 && buf[11] == if edns then 1 else 0
    ensures buf[..HFIXEDSZ] == Header(id, rd, edns)
  {
    hide High, Low;
  }

  method WriteQuestion(buf: array<byte>, q: nat, qtype: nat, dnsclass: nat, ghost pre: seq<byte>)
    requires q + QFIXEDSZ <= buf.Length && buf[..q] == pre
    modifies buf
    ensures buf[..q+QFIXEDSZ] == pre + Question(qtype, dnsclass)
  {
    buf[q], buf[q+1] := High(qtype), Low(qtype);
    buf[q+2], buf[q+3] := High(dnsclass), Low(dnsclass);
    assert buf[..q+4] == pre + Question(qtype, dnsclass);
  }

  method WriteOpt(buf: array<byte>, q: nat, maxUdpSize: nat, ghost pre: seq<byte>)
    requires q + EDNSFIXEDSZ <= buf.Length && buf[..q] == pre
    modifies buf
    ensures buf[..q+EDNSFIXEDSZ] == pre + OptRecord(maxUdpSize)
  {
    var i := 0;
    while i < EDNSFIXEDSZ
      invariant 0 <= i <= EDNSFIXEDSZ && buf[..q] == pre && forall j :: q <= j < q + i ==> buf[j] == 0
    {
      buf[q + i] := 0;
      i := i + 1;
    }
    buf[q+1], buf[q+2] := High(T_OPT), Low(T_OPT);
    buf[q+3], buf[q+4] := High(maxUdpSize), Low(maxUdpSize);
    assert buf[..q+11] == pre + OptRecord(maxUdpSize);
  }

  /** Builds a query.  The name must have labels of 1 to 63 bytes and take up at most 255
      bytes; two bytes more than the text are always room enough for it. */
  method CreateQuery(name: seq<byte>, dnsclass: nat, qtype: nat, id: nat, rd: bool, maxUdpSize: nat)
    returns (ok: bool, buf: array<byte>, buflen: nat)
    ensures fresh(buf) && (ok <==> ValidName(name))
    ensures ok ==> buflen <= buf.Length
    ensures ok ==> buf[..buflen] == Packet(Labels(name).value, dnsclass, qtype, id, rd, maxUdpSize)
    ensures ok <==>
      && Labels(name).Some? && |Flat(Labels(name).value)| + 1 <= 255
      && forall l :: l in Labels(name).value ==> 1 <= |l| <= 63
    ensures ok ==>
      var k := 12 + |Flat(Labels(name).value)| + 1;
      && buflen == k + 4 + (if maxUdpSize != 0 then 11 else 0)
      && 256 * (buf[0] as int) + buf[1] == id % 0x1_0000 && buf[2] == (if rd then 1 else 0) && buf[3] == 0
      && 256 * (buf[4] as int) + buf[5] == 1 && buf[6] == buf[7] == buf[8] == buf[9] == 0
      && 256 * (buf[10] as int) + buf[11] == (if maxUdpSize != 0 then 1 else 0)
      && 256 * (buf[k] as int) + buf[k+1] == qtype % 0x1_0000
      && 256 * (buf[k+2] as int) + buf[k+3] == dnsclass % 0x1_0000
      && (maxUdpSize != 0 ==>
            && buf[k+4] == 0 && 256 * (buf[k+5] as int) + buf[k+6] == 41
            && 256 * (buf[k+7] as int) + buf[k+8] == maxUdpSize % 0x1_0000
            && forall i :: k + 9 <= i < buflen ==> buf[i] == 0)
    ensures !ok ==> buflen == 0
  {
    hide LabelsFrom, Flat, LabelText, LabelEnd, High, Low, Header, Question, OptRecord;
    var edns := maxUdpSize != 0;
    buf := new byte[|name| + 2 + HFIXEDSZ + QFIXEDSZ + if edns then EDNSFIXEDSZ else 0];
    buflen := 0;
    WriteHeader(buf, id, rd, edns);
    var q;
    ok, q := EncodeName(name, buf, HFIXEDSZ, Header(id, rd, edns));
    if !ok {
      return;
    }
    ghost var flat := Flat(Labels(name).value);
    buf[q] := 0;
    assert buf[..q+1] == Header(id, rd, edns) + flat + [0];
    q := q + 1;
    WriteQuestion(buf, q, qtype, dnsclass, Header(id, rd, edns) + flat + [0]);
    q := q + QFIXEDSZ;
    if edns {
      WriteOpt(buf, q, maxUdpSize, Header(id, rd, edns) + flat + [0] + Question(qtype, dnsclass));
      q := q + EDNSFIXEDSZ;
    }
    if q > MAXCDNAME + HFIXEDSZ + QFIXEDSZ + (if edns then EDNSFIXEDSZ else 0) {
      ok := false;
      return;
    }
    buflen := q;
    PacketFields(Labels(name).value, dnsclass, qtype, id, rd, maxUdpSize);
    SameBytes(buf[..buflen], buf);
  }

  lemma SameBytes(s: seq<byte>, buf: array<byte>)
    requires |s| <= buf.Length && s == buf[..|s|]
    ensures forall i :: 0 <= i < |s| ==> s[i] == buf[i]
  {
  }
}
