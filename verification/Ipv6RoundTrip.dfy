/** Reading the text of an IPv6 address gives the address back. */
module Ipv6RoundTrip {
  import opened Wrappers
  import opened Ipv6Text

  type Result = Option<seq<byte>>

  ghost predicate Is(a: Result, b: Result) {
    a == b
  }

  lemma Assoc(x: string, y: string, z: string)
    ensures x + y + z == x + (y + z)
  {
  }

  /* ---- The embedded IPv4 address ---- */

  /** Reading `s` from `q` comes to reading `s'` from `q'`.  (The quantifier keeps the
      recursive function out of the verifier's sight where it is not needed.) */
  ghost predicate QuadLeads(s: string, q: Quad, s': string, q': Quad) {
    forall x {:trigger Is(ReadQuad(s, q), x)} :: Is(ReadQuad(s, q), x) <==> Is(ReadQuad(s', q'), x)
  }

  lemma QuadThen(s: string, q: Quad, s1: string, q1: Quad, s2: string, q2: Quad)
    requires QuadLeads(s, q, s1, q1) && QuadLeads(s1, q1, s2, q2)
    ensures QuadLeads(s, q, s2, q2)
  {
    forall x ensures Is(ReadQuad(s, q), x) <==> Is(ReadQuad(s2, q2), x) {
      assert Is(ReadQuad(s1, q1), x) <==> Is(ReadQuad(s2, q2), x);
    }
  }

  lemma QuadChar(ch: char, rest: string, q: Quad, q': Quad)
    requires QuadStep(ch, q) == Some(q')
    ensures QuadLeads([ch] + rest, q, rest, q')
  {
    assert ([ch] + rest)[1..] == rest;
    assert ReadQuad([ch] + rest, q) == ReadQuad(rest, q');
  }

  /** An octet in decimal is read as the octet. */
  lemma {:induction false} DecRead(b: nat, rest: string, octets: seq<byte>)
    requires b < 256
    ensures QuadLeads(Dec(b) + rest, Quad(octets, 0, 0), rest, Quad(octets, b, |Dec(b)|))
    decreases b
  {
    HexDigitValue(b % 10);
    if b < 10 {
      QuadChar(HexDigit(b), rest, Quad(octets, 0, 0), Quad(octets, b, 1));
    } else {
      var t, d := Dec(b / 10), [HexDigit(b % 10)];
      Assoc(t, d, rest);
      DecRead(b / 10, d + rest, octets);
      QuadChar(HexDigit(b % 10), rest, Quad(octets, b / 10, |t|), Quad(octets, b, |t| + 1));
      QuadThen(t + (d + rest), Quad(octets, 0, 0), d + rest, Quad(octets, b / 10, |t|), rest, Quad(octets, b, |t| + 1));
    }
  }

  lemma OctetRead(b: nat, rest: string, octets: seq<byte>, octets': seq<byte>)
    requires b < 256 && |octets| <= 3 && octets' == octets + [b]
    ensures QuadLeads(Dec(b) + ("." + rest), Quad(octets, 0, 0), rest, Quad(octets', 0, 0))
  {
    DecRead(b, "." + rest, octets);
    QuadChar('.', rest, Quad(octets, b, |Dec(b)|), Quad(octets', 0, 0));
    QuadThen(Dec(b) + ("." + rest), Quad(octets, 0, 0), "." + rest, Quad(octets, b, |Dec(b)|), rest,
             Quad(octets', 0, 0));
  }

  lemma NoRest(s: string)
    ensures s + "" == s
  {
  }

  lemma LastOctet(b: nat, octets: seq<byte>)
    requires b < 256
    ensures QuadLeads(Dec(b), Quad(octets, 0, 0), "", Quad(octets, b, |Dec(b)|))
  {
    NoRest(Dec(b));
    DecRead(b, "", octets);
  }

  lemma QuadEnds(octets: seq<byte>, b: nat, n: nat, a: seq<byte>)
    requires b < 256 && |octets| == 3 && a == octets + [b] && n >= 1
    ensures ReadQuad("", Quad(octets, b, n)) == Some(a)
  {
  }

  lemma QuadRead(a: seq<byte>)
    requires |a| == 4
    ensures ReadQuad(DottedQuad(a), Quad([], 0, 0)) == Some(a)
  {
    var t3 := Dec(a[3]);
    var t2 := Dec(a[2]) + ("." + t3);
    var t1 := Dec(a[1]) + ("." + t2);
    var q0, q1, q2, q3 := Quad([], 0, 0), Quad(a[..1], 0, 0), Quad(a[..2], 0, 0), Quad(a[..3], 0, 0);
    QuadText4(Dec(a[0]), Dec(a[1]), Dec(a[2]), t3);
    OctetRead(a[0], t1, [], a[..1]);
    OctetRead(a[1], t2, a[..1], a[..2]);
    OctetRead(a[2], t3, a[..2], a[..3]);
    LastOctet(a[3], a[..3]);
    QuadEnds(a[..3], a[3], |t3|, a);
    QuadThen(DottedQuad(a), q0, t1, q1, t2, q2);
    QuadThen(DottedQuad(a), q0, t2, q2, t3, q3);
    QuadThen(DottedQuad(a), q0, t3, q3, "", Quad(a[..3], a[3], |t3|));
    QuadResult(DottedQuad(a), q0, "", Quad(a[..3], a[3], |t3|), Some(a));
  }

  lemma QuadResult(s: string, q: Quad, s': string, q': Quad, x: Result)
    requires QuadLeads(s, q, s', q') && ReadQuad(s', q') == x
    ensures ReadQuad(s, q) == x
  {
    assert Is(ReadQuad(s, q), x) <==> Is(ReadQuad(s', q'), x);
  }

  lemma QuadText4(w: string, x: string, y: string, z: string)
    ensures w + "." + x + "." + y + "." + z == w + ("." + (x + ("." + (y + ("." + z)))))
  {
  }

  /* ---- Words ---- */

  ghost predicate Leads(s: string, r: Reader, s': string, r': Reader) {
    ReaderOK(r) && ReaderOK(r') && forall x {:trigger Is(ReadFrom(s, r), x)} :: Is(ReadFrom(s, r), x) <==>
      Is(ReadFrom(s', r'), x)
  }

  lemma Then(s: string, r: Reader, s1: string, r1: Reader, s2: string, r2: Reader)
    requires Leads(s, r, s1, r1) && Leads(s1, r1, s2, r2)
    ensures Leads(s, r, s2, r2)
  {
    forall x ensures Is(ReadFrom(s, r), x) <==> Is(ReadFrom(s2, r2), x) {
      assert Is(ReadFrom(s1, r1), x) <==> Is(ReadFrom(s2, r2), x);
    }
  }

  lemma Gives(s: string, r: Reader, s': string, r': Reader, x: Result)
    requires Leads(s, r, s', r') && ReadFrom(s', r') == x
    ensures ReadFrom(s, r) == x
  {
    assert Is(ReadFrom(s, r), x) <==> Is(ReadFrom(s', r'), x);
  }

  lemma ReadChar(ch: char, rest: string, r: Reader, r': Reader)
    requires ReaderOK(r) && ReadStep(ch, rest, r) == Go(r')
    ensures Leads([ch] + rest, r, rest, r')
  {
    assert ([ch] + rest)[1..] == rest;
    assert ReadFrom([ch] + rest, r) == ReadFrom(rest, r');
  }

  /** A word in hexadecimal is read as the word. */
  lemma {:induction false} HexRead(w: nat, rest: string, r: Reader)
    requires ReaderOK(r) && r.val == 0 && r.digits == 0 && |Hex(w)| <= 4
    ensures Leads(Hex(w) + rest, r, rest, r.(val := w, digits := |Hex(w)|, saw := true))
    decreases w
  {
    HexDigitValue(w % 16);
    if w < 16 {
      ReadChar(HexDigit(w), rest, r, r.(val := w, digits := 1, saw := true));
    } else {
      var t, d := Hex(w / 16), [HexDigit(w % 16)];
      Assoc(t, d, rest);
      HexRead(w / 16, d + rest, r);
      var r1, r2 := r.(val := w / 16, digits := |t|, saw := true), r.(val := w, digits := |t| + 1, saw := true);
      ReadChar(HexDigit(w % 16), rest, r1, r2);
      Then(t + (d + rest), r, d + rest, r1, rest, r2);
    }
  }

  lemma BytesOfWord(a: seq<byte>, i: nat)
    requires |a| == IN6ADDRSZ && i < WORDS
    ensures BytesOf(Word(a, i)) == a[2 * i..2 * i + 2]
  {
    var hi, lo := a[2 * i] as int, a[2 * i + 1] as int;
    assert (hi * 256 + lo) / 256 == hi && (hi * 256 + lo) % 256 == lo && hi % 256 == hi;
  }

  /** A colon and the next word. */
  lemma WordStep(w': nat, rest: string, out: seq<byte>, colon: Option<nat>, w: nat, digits: nat, tok: string,
                 out': seq<byte>)
    requires ReaderOK(Reader(out, colon, true, w, digits, tok)) && |out| + 2 <= IN6ADDRSZ && |Hex(w')| <= 4
    requires out' == out + BytesOf(w)
    ensures Leads(":" + (Hex(w') + rest), Reader(out, colon, true, w, digits, tok), rest,
                  Reader(out', colon, true, w', |Hex(w')|, Hex(w') + rest))
  {
    var x := Hex(w') + rest;
    var r, r1 := Reader(out, colon, true, w, digits, tok), Fresh(out', colon, x);
    ReadChar(':', x, r, r1);
    HexRead(w', rest, r1);
    Then(":" + x, r, x, r1, rest, Reader(out', colon, true, w', |Hex(w')|, x));
  }

  lemma Regroup(t: string, x: string, rest: string)
    ensures t + ":" + x + rest == t + (":" + (x + rest))
  {
  }

  lemma NextBytes(a: seq<byte>, out: seq<byte>, i: nat, k: nat)
    requires |a| == IN6ADDRSZ && i <= k < WORDS
    ensures out + a[2 * i..2 * k] + BytesOf(Word(a, k)) == out + a[2 * i..2 * (k + 1)]
  {
    BytesOfWord(a, k);
    assert a[2 * i..2 * k] + a[2 * k..2 * k + 2] == a[2 * i..2 * (k + 1)];
    Joined(out, a[2 * i..2 * k], a[2 * k..2 * k + 2]);
  }

  lemma Joined(x: seq<byte>, y: seq<byte>, z: seq<byte>)
    ensures x + y + z == x + (y + z)
  {
  }

  /** The reader after the words from `i` to `j`, the last of them not stored yet. */
  function After(a: seq<byte>, i: nat, j: nat, out: seq<byte>, colon: Option<nat>, digits: nat, tok: string): Reader
    requires |a| == IN6ADDRSZ && i < j <= WORDS
  {
    Reader(out + a[2 * i..2 * (j - 1)], colon, true, Word(a, j - 1), digits, tok)
  }

  /** Words with colons between them: all but the last are stored. */
  lemma {:induction false} WordsRead(a: seq<byte>, i: nat, j: nat, rest: string, out: seq<byte>, colon: Option<nat>,
                                     tok: string)
    returns (digits: nat, tok': string)
    requires |a| == IN6ADDRSZ && i < j <= WORDS && ReaderOK(Fresh(out, colon, tok)) && |out| + 2 * (j - i) <= IN6ADDRSZ
    ensures Leads(HexWords(a, i, j) + rest, Fresh(out, colon, tok), rest, After(a, i, j, out, colon, digits, tok'))
    decreases j
  {
    HexFits(Word(a, j - 1), 4);
    if j == i + 1 {
      digits, tok' := |Hex(Word(a, i))|, tok;
      FirstWord(a, i, rest, out, colon, tok);
    } else {
      var x := Hex(Word(a, j - 1));
      digits, tok' := WordsRead(a, i, j - 1, ":" + (x + rest), out, colon, tok);
      NextWord(a, i, j, rest, out, colon, digits, tok', Fresh(out, colon, tok));
      digits, tok' := |x|, x + rest;
    }
  }

  lemma FirstWord(a: seq<byte>, i: nat, rest: string, out: seq<byte>, colon: Option<nat>, tok: string)
    requires |a| == IN6ADDRSZ && i < WORDS && ReaderOK(Fresh(out, colon, tok)) && |Hex(Word(a, i))| <= 4
    ensures Leads(HexWords(a, i, i + 1) + rest, Fresh(out, colon, tok), rest,
                  After(a, i, i + 1, out, colon, |Hex(Word(a, i))|, tok))
  {
    HexRead(Word(a, i), rest, Fresh(out, colon, tok));
    assert out + a[2 * i..2 * i] == out;
  }

  /** One more word. */
  lemma NextWord(a: seq<byte>, i: nat, j: nat, rest: string, out: seq<byte>, colon: Option<nat>, digits: nat,
                 tok: string, r: Reader)
    requires |a| == IN6ADDRSZ && i + 1 < j <= WORDS && |out| + 2 * (j - i) <= IN6ADDRSZ && |Hex(Word(a, j - 1))| <= 4
    requires var y := ":" + (Hex(Word(a, j - 1)) + rest);
      Leads(HexWords(a, i, j - 1) + y, r, y, After(a, i, j - 1, out, colon, digits, tok))
    ensures var x := Hex(Word(a, j - 1));
      Leads(HexWords(a, i, j) + rest, r, rest, After(a, i, j, out, colon, |x|, x + rest))
  {
    var t, w := HexWords(a, i, j - 1), Word(a, j - 1);
    var x := Hex(w);
    var r1 := After(a, i, j - 1, out, colon, digits, tok);
    Regroup(t, x, rest);
    NextBytes(a, out, i, j - 2);
    WordStep(w, rest, r1.out, colon, r1.val, digits, tok, out + a[2 * i..2 * (j - 1)]);
    Then(t + (":" + (x + rest)), r, ":" + (x + rest), r1, rest, After(a, i, j, out, colon, |x|, x + rest));
  }

  /** The first digits of the IPv4 address look like hexadecimal ones; the reader starts
      over at the dot. */
  lemma {:induction false} DigitsRead(b: nat, rest: string, r: Reader) returns (val: nat)
    requires b < 256 && ReaderOK(r) && r.digits == 0
    ensures Leads(Dec(b) + rest, r, rest, r.(val := val, digits := |Dec(b)|, saw := true))
    decreases b
  {
    DecFits(b);
    HexDigitValue(b % 10);
    if b < 10 {
      val := r.val * 16 + b;
      ReadChar(HexDigit(b), rest, r, r.(val := val, digits := 1, saw := true));
    } else {
      var t, d := Dec(b / 10), [HexDigit(b % 10)];
      Assoc(t, d, rest);
      var m := DigitsRead(b / 10, d + rest, r);
      val := m * 16 + b % 10;
      var r1, r2 := r.(val := m, digits := |t|, saw := true), r.(val := val, digits := |t| + 1, saw := true);
      ReadChar(HexDigit(b % 10), rest, r1, r2);
      Then(t + (d + rest), r, d + rest, r1, rest, r2);
    }
  }

  lemma QuadAt(a: seq<byte>, out: seq<byte>, colon: Option<nat>, all: seq<byte>)
    requires |a| == 4 && ReaderOK(Fresh(out, colon, "")) && |out| + 4 <= IN6ADDRSZ && all == out + a
    ensures ReadFrom(DottedQuad(a), Fresh(out, colon, DottedQuad(a))) == Spread(all, colon)
  {
    var rest := Dec(a[1]) + ("." + (Dec(a[2]) + ("." + Dec(a[3]))));
    var r := Fresh(out, colon, DottedQuad(a));
    QuadText4(Dec(a[0]), Dec(a[1]), Dec(a[2]), Dec(a[3]));
    var v := DigitsRead(a[0], "." + rest, r);
    var r' := r.(val := v, digits := |Dec(a[0])|, saw := true);
    QuadRead(a);
    assert Padded(a) == a;
    DotEnds(rest, r', Spread(all, colon));
    Gives(DottedQuad(a), r, "." + rest, r', Spread(all, colon));
  }

  lemma DotEnds(rest: string, r: Reader, x: Result)
    requires ReaderOK(r) && ReadStep('.', rest, r) == Stop(x)
    ensures ReadFrom("." + rest, r) == x
  {
    assert ("." + rest)[1..] == rest;
  }

  /* ---- Whole addresses ---- */

  /** The last words of a text. */
  lemma EndWords(a: seq<byte>, i: nat, out: seq<byte>, colon: Option<nat>, tok: string)
    requires |a| == IN6ADDRSZ && i < WORDS && ReaderOK(Fresh(out, colon, tok)) && |out| + 2 * (WORDS - i) <= IN6ADDRSZ
    ensures ReadFrom(HexWords(a, i, WORDS), Fresh(out, colon, tok)) == Spread(out + a[2 * i..], colon)
  {
    var s := HexWords(a, i, WORDS);
    assert s + "" == s;
    var digits, tok' := WordsRead(a, i, WORDS, "", out, colon, tok);
    var r := After(a, i, WORDS, out, colon, digits, tok');
    NextBytes(a, out, i, WORDS - 1);
    assert a[2 * i..] == a[2 * i..2 * WORDS];
    assert ReadFrom("", r) == ReadEnd(r);
    Gives(s, Fresh(out, colon, tok), "", r, Spread(out + a[2 * i..], colon));
  }

  /** The word before an embedded IPv4 address, and the address. */
  lemma WordAndQuad(a: seq<byte>, colon: Option<nat>)
    requires |a| == IN6ADDRSZ && colon == Some(0)
    ensures var t := Hex(Word(a, 5)) + ":" + DottedQuad(a[12..]);
      ReadFrom(t, Fresh([], colon, t)) == Spread(a[10..], colon)
  {
    var x, q := Hex(Word(a, 5)), DottedQuad(a[12..]);
    var b := a[10..12];
    BytesOfWord(a, 5);
    QuadNotEmpty(a[12..]);
    WordThen(Word(a, 5), q, b, colon);
    assert a[10..] == b + a[12..];
    QuadAt(a[12..], b, colon, a[10..]);
    Gives(x + ":" + q, Fresh([], colon, x + ":" + q), q, Fresh(b, colon, q), Spread(a[10..], colon));
  }

  lemma WordThen(w: nat, q: string, b: seq<byte>, colon: Option<nat>)
    requires w < 0x1_0000 && q != "" && b == BytesOf(w) && colon == Some(0)
    ensures var t := Hex(w) + ":" + q; Leads(t, Fresh([], colon, t), q, Fresh(b, colon, q))
  {
    var t := Hex(w) + ":" + q;
    var r := Fresh([], colon, t);
    Assoc(Hex(w), ":", q);
    HexFits(w, 4);
    HexRead(w, ":" + q, r);
    var r1 := r.(val := w, digits := |Hex(w)|, saw := true);
    assert [] + b == b;
    ReadChar(':', q, r1, Fresh(b, colon, q));
    Then(t, r, ":" + q, r1, q, Fresh(b, colon, q));
  }

  lemma QuadNotEmpty(a: seq<byte>)
    requires |a| == 4
    ensures DottedQuad(a) != ""
  {
    assert |DottedQuad(a)| >= |Dec(a[0])|;
  }

  /** What follows the double colon. */
  lemma TailRead(a: seq<byte>, base: nat, len: nat)
    requires |a| == IN6ADDRSZ && len >= 2 && base + len <= WORDS
    ensures var t := TailText(a, base, len); var out, colon := a[..2 * base], Some(2 * base);
      ReadFrom(t, Fresh(out, colon, t)) == Spread(out + a[2 * (base + len)..], colon)
  {
    var t := TailText(a, base, len);
    var out, colon := a[..2 * base], Some(2 * base);
    if Embedded(a, base, len) && len == 6 {
      assert "" + DottedQuad(a[12..]) == DottedQuad(a[12..]);
      QuadAt(a[12..], out, colon, out + a[12..]);
    } else if Embedded(a, base, len) {
      WordAndQuad(a, colon);
      assert out + a[10..] == a[10..];
    } else if base + len == WORDS {
      assert a[2 * (base + len)..] == [];
      assert out + [] == out;
    } else {
      EndWords(a, base + len, out, colon, t);
    }
  }

  /** The zeros the double colon stands for are those that were left out. */
  lemma SpreadIs(a: seq<byte>, base: nat, len: nat)
    requires |a| == IN6ADDRSZ && len >= 1 && ZeroRun(a, base, len)
    ensures Spread(a[..2 * base] + a[2 * (base + len)..], Some(2 * base)) == Some(a)
  {
    var out := a[..2 * base] + a[2 * (base + len)..];
    forall k | 2 * base <= k < 2 * (base + len) ensures a[k] == 0 {
      assert Word(a, k / 2) == 0;
      assert k == 2 * (k / 2) || k == 2 * (k / 2) + 1;
    }
    assert a == out[..2 * base] + seq(IN6ADDRSZ - |out|, _ => 0) + out[2 * base..];
  }

  lemma HexFirst(w: nat)
    ensures IsHexDigit(Hex(w)[0])
  {
    HexDigitValue(w % 16);
    if w >= 16 {
      HexFirst(w / 16);
    }
  }

  lemma HexWordsFirst(a: seq<byte>, i: nat, j: nat)
    requires |a| == IN6ADDRSZ && i < j <= WORDS
    ensures HexWords(a, i, j) != "" && HexWords(a, i, j)[0] != ':'
    decreases j
  {
    if j == i + 1 {
      HexFirst(Word(a, i));
    } else {
      HexWordsFirst(a, i, j - 1);
    }
  }

  /** The words before the double colon, and the double colon. */
  lemma HeadRead(a: seq<byte>, base: nat, tail: string)
    requires |a| == IN6ADDRSZ && base < WORDS
    ensures var s := HexWords(a, 0, base) + "::" + tail;
      Read6(s) == ReadFrom(tail, Fresh(a[..2 * base], Some(2 * base), tail))
  {
    var h := HexWords(a, 0, base);
    var s := h + "::" + tail;
    var r := Fresh(a[..2 * base], Some(2 * base), tail);
    if base == 0 {
      assert s == "::" + tail && s[1..] == ":" + tail;
      ReadChar(':', tail, Fresh([], None, ":" + tail), r);
      Gives(":" + tail, Fresh([], None, ":" + tail), tail, r, ReadFrom(tail, r));
    } else {
      HexWordsFirst(a, 0, base);
      assert s == h + (":" + (":" + tail));
      var digits, tok := WordsRead(a, 0, base, ":" + (":" + tail), [], None, s);
      var r1 := After(a, 0, base, [], None, digits, tok);
      NextBytes(a, [], 0, base - 1);
      assert [] + a[0..2 * base] == a[..2 * base];
      var r2 := Fresh(a[..2 * base], None, ":" + tail);
      ReadChar(':', ":" + tail, r1, r2);
      ReadChar(':', tail, r2, r);
      Then(s, Fresh([], None, s), ":" + (":" + tail), r1, ":" + tail, r2);
      Then(s, Fresh([], None, s), ":" + tail, r2, tail, r);
      Gives(s, Fresh([], None, s), tail, r, ReadFrom(tail, r));
    }
  }

  /** Reading the text of an address gives the address, whichever run of zero words was
      left out. */
  lemma RoundTrip(a: seq<byte>, base: nat, len: nat)
    requires |a| == IN6ADDRSZ && ZeroRun(a, base, len) && (len == 0 || len >= 2)
    ensures Read6(TextOf(a, base, len)) == Some(a)
  {
    if len == 0 {
      var s := HexWords(a, 0, WORDS);
      HexWordsFirst(a, 0, WORDS);
      EndWords(a, 0, [], None, s);
      assert [] + a[0..] == a;
    } else {
      HeadRead(a, base, TailText(a, base, len));
      TailRead(a, base, len);
      SpreadIs(a, base, len);
    }
  }

  /* ---- Other spellings ---- */

  /** The same character, or the same letter of a hexadecimal digit in the other case. */
  ghost predicate SameLetter(c: char, d: char) {
    || c == d
    || (97 <= c as int <= 102 && d as int == c as int - 32)
    || (97 <= d as int <= 102 && c as int == d as int - 32)
  }

  ghost predicate SameButCase(s: string, t: string) {
    |s| == |t| && forall i :: 0 <= i < |s| ==> SameLetter(s[i], t[i])
  }

  lemma CaseOfDigit(c: char, d: char)
    requires SameLetter(c, d)
    ensures IsHexDigit(c) == IsHexDigit(d) && (IsHexDigit(c) ==> HexValue(c) == HexValue(d))
    ensures (IsDigit(c) || c == '.' || c == ':') ==> c == d
  {
  }

  lemma {:induction false} QuadCase(s: string, t: string, q: Quad)
    requires SameButCase(s, t)
    ensures ReadQuad(s, q) == ReadQuad(t, q)
    decreases |s|
  {
    if s != "" {
      assert SameLetter(s[0], t[0]);
      CaseOfDigit(s[0], t[0]);
      CaseOfDigit(t[0], s[0]);
      assert SameButCase(s[1..], t[1..]);
      if QuadStep(s[0], q).Some? {
        QuadCase(s[1..], t[1..], QuadStep(s[0], q).value);
      }
    }
  }

  lemma {:induction false} FromCase(s: string, t: string, r: Reader, tok: string)
    requires SameButCase(s, t) && ReaderOK(r) && SameButCase(r.tok, tok)
    ensures ReadFrom(s, r) == ReadFrom(t, r.(tok := tok))
    decreases |s|
  {
    if s != "" {
      assert SameLetter(s[0], t[0]) && SameButCase(s[1..], t[1..]);
      StepCase(s[0], t[0], s[1..], t[1..], r, tok);
      hide ReadStep, SameButCase;
      match ReadStep(s[0], s[1..], r) {
        case Stop(_) =>
        case Go(r') => FromCase(s[1..], t[1..], r', if s[0] == ':' then t[1..] else tok);
      }
    }
  }

  lemma StepCase(c: char, d: char, s: string, t: string, r: Reader, tok: string)
    requires SameLetter(c, d) && SameButCase(s, t) && ReaderOK(r) && SameButCase(r.tok, tok)
    ensures var o, o' := ReadStep(c, s, r), ReadStep(d, t, r.(tok := tok));
      match o
      case Stop(_) => o' == o
      case Go(r') =>
        var tok' := if c == ':' then t else tok;
        o' == Go(r'.(tok := tok')) && SameButCase(r'.tok, tok')
  {
    CaseOfDigit(c, d);
    CaseOfDigit(d, c);
    QuadCase(r.tok, tok, Quad([], 0, 0));
    hide ReadQuad, HexValue, SameLetter;
  }

  /** The case of letters does not matter. */
  lemma CaseBlind(s: string, t: string)
    requires SameButCase(s, t)
    ensures Read6(s) == Read6(t)
  {
    if s != "" {
      assert SameLetter(s[0], t[0]);
      assert |s| >= 2 ==> SameLetter(s[1], t[1]);
      assert SameButCase(s[1..], t[1..]);
      FromCase(s[1..], t[1..], Fresh([], None, s[1..]), t[1..]);
    }
    FromCase(s, t, Fresh([], None, s), t);
  }

  /** `y` begins with `m` hexadecimal digits, and then the word is over. */
  ghost predicate WordOf(y: string, m: nat) {
    && m <= |y| && (forall i :: 0 <= i < m ==> IsHexDigit(y[i]))
    && (m < |y| ==> y[m] == ':')
  }

  /** A leading zero leaves one more digit counted and nothing else. */
  lemma {:induction false} SameWord(y: string, m: nat, r: Reader, digits: nat, tok: string)
    requires WordOf(y, m) && ReaderOK(r) && r.saw && digits + m <= 4 && r.digits + m <= 4
    ensures ReadFrom(y, r) == ReadFrom(y, r.(digits := digits, tok := tok))
    decreases m
  {
    if m > 0 {
      assert WordOf(y[1..], m - 1);
      SameWord(y[1..], m - 1, r.(val := r.val * 16 + HexValue(y[0]), digits := r.digits + 1), digits + 1, tok);
    }
  }

  lemma ZeroFirst(y: string, m: nat, r: Reader, tok: string)
    requires WordOf(y, m) && 1 <= m <= 3 && ReaderOK(r) && !r.saw && r.val == 0 && r.digits == 0
    ensures ReadFrom("0" + y, r.(tok := tok)) == ReadFrom(y, r)
  {
    var v := HexValue(y[0]);
    assert ("0" + y)[1..] == y && IsHexDigit('0') && HexValue('0') == 0;
    assert WordOf(y[1..], m - 1);
    SameWord(y[1..], m - 1, r.(val := v, digits := 1, saw := true), 2, tok);
  }

  lemma {:induction false} QuadColon(s: string, q: Quad)
    requires ':' in s
    ensures ReadQuad(s, q) == None
    decreases |s|
  {
    if s[0] != ':' && QuadStep(s[0], q).Some? {
      assert s == [s[0]] + s[1..];
      QuadColon(s[1..], QuadStep(s[0], q).value);
    }
  }

  lemma StepAlike(ch: char, s: string, t: string, r: Reader, tok: string)
    requires s != "" && t != "" && ReaderOK(r) && ':' in r.tok && ':' in tok && (!r.saw ==> r.val == 0 && r.digits == 0)
    ensures var o, o' := ReadStep(ch, t, r), ReadStep(ch, s, r.(tok := tok));
      match o
      case Stop(x) => o' == o && x == None
      case Go(r') =>
        && o' == Go(r'.(tok := if ch == ':' then s else tok)) && (!r'.saw ==> r'.val == 0 && r'.digits == 0)
        && r'.tok == (if ch == ':' then t else r.tok) && (ch == ':' ==> !r'.saw)
  {
    QuadColon(r.tok, Quad([], 0, 0));
    QuadColon(tok, Quad([], 0, 0));
  }

  /** Up to the word the readers of the two texts do the same. */
  lemma {:induction false} ZeroLater(x: string, y: string, m: nat, r: Reader, tok: string)
    requires WordOf(y, m) && 1 <= m <= 3 && ReaderOK(r) && (!r.saw ==> r.val == 0 && r.digits == 0)
    requires if x == "" then !r.saw else x[|x|-1] == ':' && ':' in r.tok && ':' in tok
    ensures ReadFrom(x + ("0" + y), r.(tok := tok)) == ReadFrom(x + y, r)
    decreases |x|
  {
    if x == "" {
      assert x + ("0" + y) == "0" + y && x + y == y;
      ZeroFirst(y, m, r, tok);
    } else {
      var x' := x[1..];
      var s, t := x' + ("0" + y), x' + y;
      assert (x + ("0" + y))[1..] == s && (x + y)[1..] == t && (x + ("0" + y))[0] == (x + y)[0] == x[0];
      StepAlike(x[0], s, t, r, tok);
      if x' != "" {
        assert x'[|x'|-1] == ':' && s[|x'|-1] == ':' && t[|x'|-1] == ':';
      }
      hide ReadStep;
      match ReadStep(x[0], t, r) {
        case Stop(_) =>
        case Go(r') => ZeroLater(x', y, m, r', if x[0] == ':' then s else tok);
      }
    }
  }

  /** Leading zeros of a word do not matter, up to four digits. */
  lemma LeadingZero(x: string, y: string, m: nat)
    requires x == "" || x[|x|-1] == ':'
    requires 1 <= m <= 3 && WordOf(y, m)
    ensures Read6(x + "0" + y) == Read6(x + y)
  {
    var s, t := x + ("0" + y), x + y;
    assert x + "0" + y == s;
    if x == "" || x[0] != ':' {
      assert x == "" ==> s == "0" + y && t == y && y[0] != ':';
      assert x != "" ==> s[|x|-1] == ':' && t[|x|-1] == ':';
      ZeroLater(x, y, m, Fresh([], None, t), s);
    } else if |x| >= 2 {
      assert s[1..] == x[1..] + ("0" + y) && t[1..] == x[1..] + y;
      assert s[1..][|x|-2] == ':' && t[1..][|x|-2] == ':';
      ZeroLater(x[1..], y, m, Fresh([], None, t[1..]), s[1..]);
    } else {
      assert s[1] == '0' && t[1] == y[0];
    }
  }

  /** A word of more than four digits makes the text wrong, wherever it is. */
  lemma LongWord(x: string, y: string)
    requires x == "" || x[|x|-1] == ':'
    requires |y| >= 5 && forall i :: 0 <= i < 5 ==> IsHexDigit(y[i])
    ensures Read6(x + y) == None
  {
    var t := x + y;
    if x == "" || x[0] != ':' {
      assert x == "" ==> t == y && y[0] != ':';
      assert x != "" ==> t[|x|-1] == ':';
      LongLater(x, y, Fresh([], None, t));
    } else if |x| >= 2 {
      assert t[1..] == x[1..] + y && t[1..][|x|-2] == ':';
      LongLater(x[1..], y, Fresh([], None, t[1..]));
    } else {
      assert t[1] == y[0];
    }
  }

  lemma {:induction false} LongLater(x: string, y: string, r: Reader)
    requires |y| >= 5 && (forall i :: 0 <= i < 5 ==> IsHexDigit(y[i]))
    requires ReaderOK(r) && (!r.saw ==> r.val == 0 && r.digits == 0)
    requires if x == "" then !r.saw else x[|x|-1] == ':' && ':' in r.tok
    ensures ReadFrom(x + y, r) == None
    decreases |x|
  {
    if x == "" {
      assert x + y == y;
      TooManyDigits(y, 5, r);
    } else {
      var x' := x[1..];
      var t := x' + y;
      assert (x + y)[1..] == t && (x + y)[0] == x[0];
      StepAlike(x[0], t, t, r, r.tok);
      if x' != "" {
        assert x'[|x'|-1] == ':' && t[|x'|-1] == ':';
      }
      hide ReadStep;
      match ReadStep(x[0], t, r) {
        case Stop(_) =>
        case Go(r') => LongLater(x', y, r');
      }
    }
  }

  lemma {:induction false} TooManyDigits(y: string, m: nat, r: Reader)
    requires m <= |y| && (forall i :: 0 <= i < m ==> IsHexDigit(y[i]))
    requires ReaderOK(r) && r.digits + m > 4 && r.digits <= 4
    ensures ReadFrom(y, r) == None
    decreases m
  {
    if r.digits < 4 {
      TooManyDigits(y[1..], m - 1, r.(val := r.val * 16 + HexValue(y[0]), digits := r.digits + 1, saw := true));
    }
  }
}
