/** The text of an IPv6 address: how it is written and how it is read back. */
module Ipv6Text {
  import opened Wrappers

  type byte = x: int | 0 <= x < 256

  const IN6ADDRSZ: nat := 16
  const WORDS: nat := 8

  /** The size of the buffer a text is written to. */
  const TEXT_ROOM: nat := 46

  /* ---- Digits ---- */

  function HexDigit(n: nat): char
    requires n < 16
  {
    "0123456789abcdef"[n]
  }

  predicate IsDigit(ch: char) {
    '0' <= ch <= '9'
  }

  predicate IsHexDigit(ch: char) {
    IsDigit(ch) || 'a' <= ch <= 'f' || 'A' <= ch <= 'F'
  }

  function HexValue(ch: char): (v: nat)
    requires IsHexDigit(ch)
    ensures v < 16
  {
    if IsDigit(ch) then ch as int - '0' as int
    else if 'a' <= ch <= 'f' then ch as int - 'a' as int + 10
    else ch as int - 'A' as int + 10
  }

  /** Digits are written in lower case and read in either. */
  lemma HexDigitValue(n: nat)
    requires n < 16
    ensures IsHexDigit(HexDigit(n)) && HexValue(HexDigit(n)) == n && (n < 10 ==> IsDigit(HexDigit(n)))
    ensures HexDigit(n) as int == (if n < 10 then 48 + n else 97 + (n - 10))
    ensures n >= 10 ==> IsHexDigit((65 + (n - 10)) as char) && HexValue((65 + (n - 10)) as char) == n
  {
    assert "0123456789abcdef"[n] == if n < 10 then '0' + n as char else 'a' + (n - 10) as char;
  }

  /** A number in hexadecimal, without leading zeros. */
  function Hex(n: nat): (s: string)
    ensures |s| >= 1
  {
    if n < 16 then [HexDigit(n)] else Hex(n / 16) + [HexDigit(n % 16)]
  }

  /** A number in decimal, without leading zeros. */
  function Dec(n: nat): (s: string)
    ensures |s| >= 1
  {
    if n < 10 then [HexDigit(n)] else Dec(n / 10) + [HexDigit(n % 10)]
  }

  /* ---- Words ---- */

  type Address = a: seq<byte> | |a| == IN6ADDRSZ witness seq(IN6ADDRSZ, _ => 0)

  function Word(a: seq<byte>, i: nat): (w: nat)
    requires |a| == IN6ADDRSZ && i < WORDS
    ensures w < 0x1_0000
  {
    (a[2 * i] as int) * 256 + a[2 * i + 1]
  }

  function BytesOf(w: nat): seq<byte> {
    [(w / 256) % 256, w % 256]
  }

  /** The words from `i` to `j` in hexadecimal, with colons between them. */
  function HexWords(a: seq<byte>, i: nat, j: nat): string
    requires |a| == IN6ADDRSZ && i <= j <= WORDS
  {
    if i == j then [] else if j == i + 1 then Hex(Word(a, i)) else HexWords(a, i, j - 1) + ":" + Hex(Word(a, j - 1))
  }

  function DottedQuad(a: seq<byte>): string
    requires |a| == 4
  {
    Dec(a[0]) + "." + Dec(a[1]) + "." + Dec(a[2]) + "." + Dec(a[3])
  }

  /** Does a run of zero words at the start leave an embedded IPv4 address? */
  predicate Embedded(a: seq<byte>, base: nat, len: nat)
    requires |a| == IN6ADDRSZ
  {
    base == 0 && (len == 6 || (len == 5 && Word(a, 5) == 0xffff))
  }

  /** What follows the zero run. */
  function TailText(a: seq<byte>, base: nat, len: nat): string
    requires |a| == IN6ADDRSZ && base + len <= WORDS
  {
    if Embedded(a, base, len) then (if len == 6 then "" else Hex(Word(a, 5)) + ":") + DottedQuad(a[12..])
    else HexWords(a, base + len, WORDS)
  }

  /** The text of an address with the `len` words from `base` left out. */
  function TextOf(a: seq<byte>, base: nat, len: nat): string
    requires |a| == IN6ADDRSZ && base + len <= WORDS
  {
    if len == 0 then HexWords(a, 0, WORDS) else HexWords(a, 0, base) + "::" + TailText(a, base, len)
  }

  /* ---- The longest run of zero words ---- */

  ghost predicate ZeroRun(a: seq<byte>, base: nat, len: nat)
    requires |a| == IN6ADDRSZ
  {
    base + len <= WORDS && forall k :: base <= k < base + len ==> Word(a, k) == 0
  }

  /** Is the run from `base` at least as good as every other that has at least `least` words:
      longer, or as long and not later? */
  ghost predicate BestRun(a: seq<byte>, base: nat, len: nat, least: nat)
    requires |a| == IN6ADDRSZ
  {
    forall b: nat, l: nat :: ZeroRun(a, b, l) && l >= least ==> l < len || (l == len && b >= base)
  }

  /** The run being followed up to word `i`, if any: all of it and nothing before it. */
  ghost predicate Following(a: seq<byte>, i: nat, cur: Option<nat>)
    requires |a| == IN6ADDRSZ && i <= WORDS
  {
    match cur
    case None => i > 0 ==> Word(a, i - 1) != 0
    case Some(c) => c < i && ZeroRun(a, c, i - c) && (c > 0 ==> Word(a, c - 1) != 0)
  }

  /** The best of the runs that were followed to their end before word `i`; a length of
      zero stands for none. */
  ghost predicate BestSoFar(a: seq<byte>, i: nat, cur: Option<nat>, base: nat, len: nat)
    requires |a| == IN6ADDRSZ && i <= WORDS
  {
    && ZeroRun(a, base, len) && base + len <= i && (cur.Some? && len > 0 ==> base < cur.value)
    && forall b: nat, l: nat :: ZeroRun(a, b, l) && l >= 1 && b + l <= i ==>
      (cur.Some? && b >= cur.value) || l < len || (l == len && b >= base)
  }

  lemma NotAcross(a: seq<byte>, b: nat, l: nat, k: nat)
    requires |a| == IN6ADDRSZ && ZeroRun(a, b, l) && k < WORDS && Word(a, k) != 0
    ensures k < b || b + l <= k
  {
  }

  lemma FollowOn(a: seq<byte>, i: nat, cur: Option<nat>, base: nat, len: nat)
    requires |a| == IN6ADDRSZ && i < WORDS && Following(a, i, cur) && BestSoFar(a, i, cur, base, len) && Word(a, i) == 0
    ensures var cur' := if cur.Some? then cur else Some(i);
      Following(a, i + 1, cur') && BestSoFar(a, i + 1, cur', base, len)
  {
    var cur' := if cur.Some? then cur else Some(i);
    forall b: nat, l: nat | ZeroRun(a, b, l) && l >= 1 && b + l <= i + 1
      ensures b >= cur'.value || l < len || (l == len && b >= base)
    {
      if cur'.value > 0 {
        NotAcross(a, b, l, cur'.value - 1);
      }
    }
  }

  lemma FollowEnds(a: seq<byte>, i: nat, cur: Option<nat>, base: nat, len: nat)
    requires |a| == IN6ADDRSZ && i <= WORDS && Following(a, i, cur) && BestSoFar(a, i, cur, base, len)
    ensures var (base', len') := if cur.Some? && i - cur.value > len then (cur.value, i - cur.value) else (base, len);
      BestSoFar(a, i, None, base', len')
  {
  }

  lemma NonZeroPassed(a: seq<byte>, i: nat, base: nat, len: nat)
    requires |a| == IN6ADDRSZ && i < WORDS && BestSoFar(a, i, None, base, len) && Word(a, i) != 0
    ensures Following(a, i + 1, None) && BestSoFar(a, i + 1, None, base, len)
  {
    forall b: nat, l: nat | ZeroRun(a, b, l) && l >= 1 && b + l <= i + 1 ensures l < len || (l == len && b >= base) {
      NotAcross(a, b, l, i);
    }
  }

  /** Finds the run of zero words to leave out: the first of the longest, of two words at
      least; a length of zero stands for none. */
  method LongestRun(a: seq<byte>) returns (base: nat, len: nat)
    requires |a| == IN6ADDRSZ
    ensures ZeroRun(a, base, len) && (len == 0 || len >= 2) && BestRun(a, base, len, 2)
  {
    base, len := 0, 0;
    var cur: Option<nat> := None;
    var i := 0;
    while i < WORDS
      invariant 0 <= i <= WORDS && Following(a, i, cur) && BestSoFar(a, i, cur, base, len)
    {
      if Word(a, i) == 0 {
        FollowOn(a, i, cur, base, len);
        if cur.None? {
          cur := Some(i);
        }
      } else {
        FollowEnds(a, i, cur, base, len);
        if cur.Some? {
          if i - cur.value > len {
            base, len := cur.value, i - cur.value;
          }
          cur := None;
        }
        NonZeroPassed(a, i, base, len);
      }
      i := i + 1;
    }
    FollowEnds(a, WORDS, cur, base, len);
    if cur.Some? && WORDS - cur.value > len {
      base, len := cur.value, WORDS - cur.value;
    }
    if len < 2 {
      base, len := 0, 0;
    }
  }

  /* ---- Writing ---- */

  /** What has been written before word `i`. */
  function Partial(a: seq<byte>, base: nat, len: nat, i: nat): string
    requires |a| == IN6ADDRSZ && base + len <= WORDS && i <= WORDS
  {
    if len == 0 || i <= base then HexWords(a, 0, i)
    else if i <= base + len then HexWords(a, 0, base) + ":"
    else HexWords(a, 0, base) + "::" + HexWords(a, base + len, i)
  }

  lemma PartialStarts(a: seq<byte>, base: nat, len: nat)
    requires |a| == IN6ADDRSZ && base + len <= WORDS
    ensures Partial(a, base, len, 0) == ""
  {
  }

  lemma PartialEnds(a: seq<byte>, base: nat, len: nat)
    requires |a| == IN6ADDRSZ && base + len <= WORDS && !Embedded(a, base, len)
    ensures TextOf(a, base, len) == Partial(a, base, len, WORDS) + if len > 0 && base + len == WORDS then ":" else ""
  {
  }

  lemma PartialNext(a: seq<byte>, base: nat, len: nat, i: nat)
    requires |a| == IN6ADDRSZ && base + len <= WORDS && i < WORDS && (len == 0 || len >= 2)
    ensures var p, p' := Partial(a, base, len, i), Partial(a, base, len, i + 1);
      p' == if len > 0 && base <= i < base + len then p + (if i == base then ":" else "")
            else p + (if i != 0 then ":" else "") + Hex(Word(a, i))
  {
    var h, x := HexWords(a, 0, base), Hex(Word(a, i));
    if len > 0 && i == base + len {
      Colons(h, "", x);
      assert HexWords(a, base + len, i + 1) == x;
    } else if len > 0 && i > base + len {
      Colons(h, HexWords(a, base + len, i), x);
    } else if i == 0 && len == 0 {
      assert [] + x == x;
    } else if i == 0 && base > 0 {
      assert [] + x == x;
    }
  }

  lemma Colons(h: string, t: string, x: string)
    ensures h + "::" + (t + ":" + x) == h + "::" + t + ":" + x
    ensures h + "::" + x == h + ":" + ":" + x
  {
  }

  /** Writes the words of an address one after the other, but for those left out, up to an
      embedded IPv4 address. */
  method WriteWords(a: Address, b: nat, l: nat) returns (text: string, quad: bool)
    requires b + l <= WORDS && (l == 0 || l >= 2)
    ensures if quad then text == TextOf(a, b, l) && b + l < WORDS
      else text == Partial(a, b, l, WORDS) && !Embedded(a, b, l)
  {
    hide Partial, TextOf, Word, Hex, DottedQuad;
    PartialStarts(a, b, l);
    text := "";
    var i := 0;
    var last := Word(a, 7);
    quad := false;
    while i < WORDS && !quad
      invariant 0 <= i <= WORDS
      invariant if quad then text == TextOf(a, b, l) && b + l < WORDS
                else text == Partial(a, b, l, i) && !(Embedded(a, b, l) && i > 6)
      decreases WORDS - i, !quad
    {
      PartialNext(a, b, l, i);
      if l > 0 && b <= i < b + l {
        if i == b {
          text := text + ":";
        }
        i := i + 1;
        continue;
      }
      if i != 0 {
        text := text + ":";
      }
      if i == 6 && l > 0 && b == 0 && (l == 6 || (l == 7 && last != 1) || (l == 5 && Word(a, 5) == 0xffff)) {
        text := text + DottedQuad(a[12..]);
        QuadText(a, l);
        quad := true;
      } else {
        text := text + Hex(Word(a, i));
        i := i + 1;
      }
    }
  }

  /** Writes an IPv6 address. */
  method Ntop6(a: Address) returns (text: string, ghost base: nat, ghost len: nat)
    ensures ZeroRun(a, base, len) && (len == 0 || len >= 2) && BestRun(a, base, len, 2)
    ensures text == TextOf(a, base, len) && |text| < TEXT_ROOM
    ensures base + len <= 8 && forall k :: 2 * base <= k < 2 * (base + len) ==> a[k] == 0
    ensures len == 0 ==> text == HexWords(a, 0, 8)
    ensures len > 0 ==>
      text == HexWords(a, 0, base) + "::" + if base == 0 && len == 6 then DottedQuad(a[12..])
        else if base == 0 && len == 5 && a[10] == 255 && a[11] == 255 then "ffff:" + DottedQuad(a[12..])
        else HexWords(a, base + len, 8)
  {
    hide Partial, TextOf;
    var b, l := LongestRun(a);
    base, len := b, l;
    var quad;
    text, quad := WriteWords(a, b, l);
    if !quad {
      PartialEnds(a, b, l);
    }
    if l > 0 && b + l == WORDS {
      text := text + ":";
    }
    TextFits(a, b, l);
    TextIs(a, b, l);
  }

  /** The text of an address: words of two bytes, the high one first, and the last four bytes
      as an IPv4 address if nothing but zeros, or zeros and 0xffff, precede them. */
  lemma TextIs(a: seq<byte>, base: nat, len: nat)
    requires |a| == IN6ADDRSZ && ZeroRun(a, base, len)
    ensures len == 0 ==> TextOf(a, base, len) == HexWords(a, 0, 8)
    ensures len > 0 ==>
      TextOf(a, base, len) == HexWords(a, 0, base) + "::" + if base == 0 && len == 6 then DottedQuad(a[12..])
        else if base == 0 && len == 5 && a[10] == 255 && a[11] == 255 then "ffff:" + DottedQuad(a[12..])
        else HexWords(a, base + len, 8)
    ensures forall k :: 2 * base <= k < 2 * (base + len) ==> a[k] == 0
  {
    hide Hex, Dec;
    forall k | 2 * base <= k < 2 * (base + len) ensures a[k] == 0 {
      assert Word(a, k / 2) == 0;
      assert k == 2 * (k / 2) || k == 2 * (k / 2) + 1;
    }
    AllOnes();
    assert Word(a, 5) == 0xffff <==> a[10] == 255 && a[11] == 255;
    assert "" + DottedQuad(a[12..]) == DottedQuad(a[12..]);
    assert "ffff" + ":" == "ffff:";
  }

  lemma AllOnes()
    ensures Hex(0xffff) == "ffff"
  {
    assert Hex(0xf) == "f" && Hex(0xff) == Hex(0xf) + "f" && Hex(0xfff) == Hex(0xff) + "f";
    assert Hex(0xffff) == Hex(0xfff) + "f";
  }

  /** A word is its high byte and its low byte; words are separated by colons. */
  lemma {:induction false} HexWordsAre(a: seq<byte>, i: nat, j: nat)
    requires |a| == IN6ADDRSZ && i < j <= WORDS
    ensures HexWords(a, i, j) ==
      Hex(256 * (a[2 * i] as int) + a[2 * i + 1]) + (if j == i + 1 then "" else ":" + HexWords(a, i + 1, j))
    decreases j
  {
    hide Hex, HexWords, Word;
    HexWordsOne(a, i);
    if i + 1 < j {
      var x, y := HexWords(a, i, i + 1), Hex(Word(a, j - 1));
      HexWordsNext(a, i, j);
      HexWordsAre(a, i, j - 1);
      if i + 2 < j {
        HexWordsNext(a, i + 1, j);
        FrontColon(x, HexWords(a, i + 1, j - 1), y);
      } else {
        HexWordsLast(a, i + 1);
        FrontColon(x, "", y);
      }
    } else {
      NothingBehind(HexWords(a, i, i + 1));
    }
  }

  lemma HexWordsOne(a: seq<byte>, i: nat)
    requires |a| == IN6ADDRSZ && i < WORDS
    ensures HexWords(a, i, i + 1) == Hex(256 * (a[2 * i] as int) + a[2 * i + 1])
  {
  }

  lemma HexWordsLast(a: seq<byte>, i: nat)
    requires |a| == IN6ADDRSZ && i < WORDS
    ensures HexWords(a, i, i + 1) == Hex(Word(a, i))
  {
  }

  lemma HexWordsNext(a: seq<byte>, i: nat, j: nat)
    requires |a| == IN6ADDRSZ && i + 1 < j <= WORDS
    ensures HexWords(a, i, j) == HexWords(a, i, j - 1) + ":" + Hex(Word(a, j - 1))
  {
  }

  lemma NothingBehind(x: string)
    ensures x + "" == x
  {
  }

  lemma FrontColon(x: string, m: string, y: string)
    ensures x + (":" + m) + ":" + y == x + (":" + (m + ":" + y))
    ensures x + "" + ":" + y == x + (":" + y)
  {
  }

  /** Hexadecimal and decimal: without leading zeros, the last digit last. */
  lemma NumeralsAre(n: nat, d: nat)
    ensures d < 16 && 16 * n + d > 0 ==>
      Hex(16 * n + d) == (if n == 0 then "" else Hex(n)) + [HexDigit(d)]
    ensures d < 10 && 10 * n + d > 0 ==>
      Dec(10 * n + d) == (if n == 0 then "" else Dec(n)) + [HexDigit(d)]
    ensures Hex(0) == "0" && Dec(0) == "0"
  {
    if d < 16 {
      assert (16 * n + d) / 16 == n && (16 * n + d) % 16 == d;
    }
    if d < 10 {
      assert (10 * n + d) / 10 == n && (10 * n + d) % 10 == d;
    }
  }

  lemma HexFits(w: nat, k: nat)
    requires k >= 1 && w < (if k == 1 then 0x10 else if k == 2 then 0x100 else if k == 3 then 0x1000 else 0x1_0000)
    requires k <= 4
    ensures |Hex(w)| <= k
  {
    if w >= 16 {
      HexFits(w / 16, k - 1);
    }
  }

  lemma DecFits(b: nat)
    requires b < 256
    ensures |Dec(b)| <= 3
  {
    if b >= 10 {
      var c := b / 10;
      if c >= 10 {
        assert c / 10 < 10 && |Dec(c / 10)| == 1;
      }
    }
  }

  lemma WordsFit(a: seq<byte>, i: nat, j: nat)
    requires |a| == IN6ADDRSZ && i <= j <= WORDS
    ensures |HexWords(a, i, j)| <= 5 * (j - i) && (i < j ==> |HexWords(a, i, j)| < 5 * (j - i))
    decreases j
  {
    if i < j {
      HexFits(Word(a, j - 1), 4);
      WordsFit(a, i, j - 1);
    }
  }

  /** The buffer for the text always has room for it and a terminating zero. */
  lemma TextFits(a: seq<byte>, base: nat, len: nat)
    requires |a| == IN6ADDRSZ && base + len <= WORDS && (len == 0 || len >= 2)
    ensures |TextOf(a, base, len)| < TEXT_ROOM
  {
    WordsFit(a, 0, WORDS);
    WordsFit(a, 0, base);
    WordsFit(a, base + len, WORDS);
    HexFits(Word(a, 5), 4);
    DecFits(a[12]);
    DecFits(a[13]);
    DecFits(a[14]);
    DecFits(a[15]);
  }

  lemma QuadText(a: seq<byte>, len: nat)
    requires |a| == IN6ADDRSZ && (len == 6 || (len == 5 && Word(a, 5) == 0xffff))
    ensures Partial(a, 0, len, 6) + ":" + DottedQuad(a[12..]) == TextOf(a, 0, len)
  {
  }

  /* ---- Reading ---- */

  /** The state of the IPv4 reader: the octets it has and `n` digits of the next one. */
  datatype Quad = Quad(octets: seq<byte>, val: nat, n: nat)

  /** One character of an IPv4 address, unless it is wrong. */
  function QuadStep(ch: char, q: Quad): Option<Quad> {
    if IsDigit(ch) then
      if (q.n != 0 && q.val == 0) || q.val * 10 + HexValue(ch) > 255 then None
      else Some(q.(val := q.val * 10 + HexValue(ch), n := q.n + 1))
    else if ch == '.' && |q.octets| <= 3 then Some(Quad(q.octets + [q.val % 256], 0, 0))
    else None
  }

  /** Reads the rest of an IPv4 address. */
  function ReadQuad(src: string, q: Quad): (r: Option<seq<byte>>)
    ensures r.Some? ==> |r.value| <= 4
    decreases |src|
  {
    if src == "" then (if q.n == 0 || |q.octets| > 3 then None else Some(q.octets + [q.val % 256]))
    else
      match QuadStep(src[0], q)
      case None => None
      case Some(q') => ReadQuad(src[1..], q')
  }

  /** Fills an IPv4 address that was cut short with zeros. */
  function Padded(octets: seq<byte>): (r: seq<byte>)
    requires |octets| <= 4
    ensures |r| == 4
  {
    octets + seq(4 - |octets|, _ => 0)
  }

  /** The bytes of an address, the double colon standing for as many zeros as it takes. */
  function Spread(out: seq<byte>, colon: Option<nat>): (r: Option<seq<byte>>)
    requires |out| <= IN6ADDRSZ && (colon.Some? ==> colon.value <= |out|)
    ensures r.Some? ==> |r.value| == IN6ADDRSZ
  {
    match colon
    case None => if |out| == IN6ADDRSZ then Some(out) else None
    case Some(c) =>
      if |out| == IN6ADDRSZ then None
      else Some(out[..c] + seq(IN6ADDRSZ - |out|, _ => 0) + out[c..])
  }

  /** The state of the reader: the bytes it has, where the double colon was, the digits of
      the word under way, and the text from the start of that word. */
  datatype Reader = Reader(out: seq<byte>, colon: Option<nat>, saw: bool, val: nat, digits: nat, tok: string)

  ghost predicate ReaderOK(r: Reader) {
    |r.out| <= IN6ADDRSZ && (r.colon.Some? ==> r.colon.value <= |r.out|)
  }

  /** What one character does to the reader, or the address if it ends there. */
  datatype Outcome = Go(reader: Reader) | Stop(address: Option<seq<byte>>)

  function ReadStep(ch: char, rest: string, r: Reader): (o: Outcome)
    requires ReaderOK(r)
    ensures o.Go? ==> ReaderOK(o.reader)
  {
    if IsHexDigit(ch) then
      if r.digits + 1 > 4 then Stop(None)
      else Go(r.(val := r.val * 16 + HexValue(ch), digits := r.digits + 1, saw := true))
    else if ch == ':' then
      if !r.saw then
        if r.colon.Some? then Stop(None) else Go(r.(colon := Some(|r.out|), tok := rest))
      else if rest == "" || |r.out| + 2 > IN6ADDRSZ then Stop(None)
      else Go(Reader(r.out + BytesOf(r.val), r.colon, false, 0, 0, rest))
    else if ch == '.' && |r.out| + 4 <= IN6ADDRSZ then
      match ReadQuad(r.tok, Quad([], 0, 0))
      case None => Stop(None)
      case Some(q) => Stop(Spread(r.out + Padded(q), r.colon))
    else Stop(None)
  }

  /** The end of the text. */
  function ReadEnd(r: Reader): Option<seq<byte>>
    requires ReaderOK(r)
  {
    if !r.saw then Spread(r.out, r.colon)
    else if |r.out| + 2 > IN6ADDRSZ then None
    else Spread(r.out + BytesOf(r.val), r.colon)
  }

  /** Reads the rest of an address. */
  function ReadFrom(src: string, r: Reader): Option<seq<byte>>
    requires ReaderOK(r)
    decreases |src|
  {
    if src == "" then ReadEnd(r)
    else
      match ReadStep(src[0], src[1..], r)
      case Stop(x) => x
      case Go(r') => ReadFrom(src[1..], r')
  }

  function Fresh(out: seq<byte>, colon: Option<nat>, tok: string): Reader {
    Reader(out, colon, false, 0, 0, tok)
  }

  /** What a text is read as. */
  function Read6(src: string): Option<seq<byte>> {
    if src == "" || src[0] != ':' then ReadFrom(src, Fresh([], None, src))
    else if |src| < 2 || src[1] != ':' then None
    else ReadFrom(src[1..], Fresh([], None, src[1..]))
  }
}
