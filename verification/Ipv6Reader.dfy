/** The reader of IPv6 addresses, working in place on a buffer of sixteen bytes. */
module Ipv6Reader {
  import opened Wrappers
  import opened Ipv6Text
  import opened Ipv6RoundTrip

  lemma Cut(src: string, i: nat)
    requires i < |src|
    ensures src[i..] == [src[i]] + src[i+1..]
  {
  }

  /** A character of the text goes into the IPv4 reader, or stops it. */
  lemma QuadOn(src: string, i: nat, s0: string, q0: Quad, q: Quad)
    requires i < |src| && QuadLeads(s0, q0, src[i..], q)
    ensures QuadStep(src[i], q).Some? ==> QuadLeads(s0, q0, src[i+1..], QuadStep(src[i], q).value)
    ensures QuadStep(src[i], q).None? ==> ReadQuad(s0, q0) == None
  {
    var rest := src[i+1..];
    Cut(src, i);
    match QuadStep(src[i], q) {
      case Some(q') =>
        QuadChar(src[i], rest, q, q');
        QuadThen(s0, q0, src[i..], q, rest, q');
      case None =>
        QuadFails(src[i], rest, q);
        QuadResult(s0, q0, src[i..], q, None);
    }
  }

  lemma QuadFails(ch: char, rest: string, q: Quad)
    requires QuadStep(ch, q).None?
    ensures ReadQuad([ch] + rest, q) == None
  {
  }

  /** The end of the text for the IPv4 reader. */
  lemma QuadOver(s0: string, q0: Quad, q: Quad)
    requires QuadLeads(s0, q0, "", q)
    ensures ReadQuad(s0, q0) == if q.n == 0 || |q.octets| > 3 then None else Some(q.octets + [q.val % 256])
  {
    QuadResult(s0, q0, "", q, if q.n == 0 || |q.octets| > 3 then None else Some(q.octets + [q.val % 256]));
  }

  ghost predicate ZeroFrom(s: seq<byte>, at: nat) {
    forall k :: at <= k < |s| ==> s[k] == 0
  }

  /** Reads an IPv4 address from `src`, from character `from` on, into `dst` at `at`. */
  method GetV4(src: string, from: nat, dst: array<byte>, at: nat) returns (ok: bool)
    requires from <= |src| && at + 4 <= dst.Length && ZeroFrom(dst[..], at)
    modifies dst
    ensures ok <==> ReadQuad(src[from..], Quad([], 0, 0)).Some?
    ensures ok ==> dst[..at+4] == old(dst[..at]) + Padded(ReadQuad(src[from..], Quad([], 0, 0)).value)
    ensures ok ==> ZeroFrom(dst[..], at + 4)
  {
    var val: nat, n: nat, octets: nat, i: nat := 0, 0, 0, from;
    ghost var q := Quad([], 0, 0);
    while i < |src|
      invariant from <= i <= |src| && octets <= 4 && val < 256 && q == Quad(q.octets, val, n) && |q.octets| == octets
      invariant dst[..at+octets] == old(dst[..at]) + q.octets && ZeroFrom(dst[..], at + octets)
      invariant QuadLeads(src[from..], Quad([], 0, 0), src[i..], q)
    {
      QuadOn(src, i, src[from..], Quad([], 0, 0), q);
      var ch := src[i];
      if IsDigit(ch) {
        if n != 0 && val == 0 {
          return false;
        }
        n := n + 1;
        val := val * 10 + HexValue(ch);
        if val > 255 {
          return false;
        }
        q := Quad(q.octets, val, n);
      } else if ch == '.' {
        if octets > 3 {
          return false;
        }
        PutOctet(dst, at + octets, val, dst[..at+octets]);
        octets := octets + 1;
        q := Quad(q.octets + [val % 256], 0, 0);
        val, n := 0, 0;
      } else {
        return false;
      }
      i := i + 1;
    }
    QuadOver(src[from..], Quad([], 0, 0), q);
    if n == 0 || octets > 3 {
      return false;
    }
    PutOctet(dst, at + octets, val, dst[..at+octets]);
    QuadWhole(dst[..], old(dst[..at]), at, q.octets + [val % 256]);
    ok := true;
  }

  method PutOctet(dst: array<byte>, p: nat, val: nat, ghost before: seq<byte>)
    requires p < dst.Length && val < 256 && dst[..p] == before && ZeroFrom(dst[..], p)
    modifies dst
    ensures dst[..p+1] == before + [val % 256] && ZeroFrom(dst[..], p + 1)
  {
    dst[p] := val;
  }

  /** The octets that were not given are zero. */
  lemma QuadWhole(dst: seq<byte>, before: seq<byte>, at: nat, octets: seq<byte>)
    requires |octets| <= 4 && at + 4 <= |dst| && |before| == at && dst[..at+|octets|] == before + octets
    requires ZeroFrom(dst, at + |octets|)
    ensures dst[..at+4] == before + Padded(octets) && ZeroFrom(dst, at + 4)
  {
    assert dst[..at+4] == dst[..at+|octets|] + dst[at+|octets|..at+4];
    var z := seq(4 - |octets|, _ => 0);
    assert forall k :: 0 <= k < |z| ==> dst[at+|octets|..at+4][k] == dst[at + |octets| + k] == z[k];
    assert dst[at+|octets|..at+4] == z;
  }

  /* ---- The address ---- */

  /** A character of the text goes into the reader, or stops it. */
  lemma ReadOn(src: string, i: nat, s0: string, r0: Reader, r: Reader)
    requires i < |src| && Leads(s0, r0, src[i..], r)
    ensures var o := ReadStep(src[i], src[i+1..], r);
      (o.Go? ==> Leads(s0, r0, src[i+1..], o.reader)) && (o.Stop? ==> ReadFrom(s0, r0) == o.address)
  {
    var rest := src[i+1..];
    Cut(src, i);
    match ReadStep(src[i], rest, r) {
      case Go(r') =>
        ReadChar(src[i], rest, r, r');
        Then(s0, r0, src[i..], r, rest, r');
      case Stop(x) =>
        ReadStops(src[i], rest, r, x);
        Gives(s0, r0, src[i..], r, x);
    }
  }

  lemma ReadStops(ch: char, rest: string, r: Reader, x: Result)
    requires ReaderOK(r) && ReadStep(ch, rest, r) == Stop(x)
    ensures ReadFrom([ch] + rest, r) == x
  {
    assert ([ch] + rest)[1..] == rest;
  }

  lemma ReadOver(s0: string, r0: Reader, r: Reader)
    requires Leads(s0, r0, "", r)
    ensures ReadFrom(s0, r0) == ReadEnd(r)
  {
    Gives(s0, r0, "", r, ReadEnd(r));
  }

  lemma LeadsSelf(s: string, r: Reader)
    requires ReaderOK(r)
    ensures Leads(s, r, s, r)
  {
  }

  method PutWord(tmp: array<byte>, tp: nat, val: nat, ghost out: seq<byte>)
    requires tp + 2 <= tmp.Length && tmp[..tp] == out && ZeroFrom(tmp[..], tp)
    modifies tmp
    ensures tmp[..tp+2] == out + BytesOf(val) && ZeroFrom(tmp[..], tp + 2)
  {
    tmp[tp], tmp[tp+1] := (val / 256) % 256, val % 256;
  }

  /** Walks over the text and fills the buffer, without the zeros of a double colon. */
  method Scan(src: string, start: nat, tmp: array<byte>) returns (ok: bool, tp: nat, colonp: Option<nat>)
    requires start <= |src| && tmp.Length == IN6ADDRSZ && ZeroFrom(tmp[..], 0)
    modifies tmp
    ensures !ok ==> ReadFrom(src[start..], Fresh([], None, src[start..])) == None
    ensures ok ==> tp <= IN6ADDRSZ && (colonp.Some? ==> colonp.value <= tp) && ZeroFrom(tmp[..], tp)
    ensures ok ==> ReadFrom(src[start..], Fresh([], None, src[start..])) == Spread(tmp[..tp], colonp)
  {
    ghost var s0, r0 := src[start..], Fresh([], None, src[start..]);
    ok, tp, colonp := false, 0, None;
    var i: nat, curtok: nat, saw, val: nat, digits: nat := start, start, false, 0, 0;
    ghost var r := r0;
    LeadsSelf(s0, r0);
    while i < |src|
      invariant start <= i <= |src| && curtok <= i && tp <= IN6ADDRSZ && ReaderOK(r)
      invariant r == Reader(r.out, colonp, saw, val, digits, src[curtok..]) && |r.out| == tp
      invariant tmp[..tp] == r.out && ZeroFrom(tmp[..], tp) && Leads(s0, r0, src[i..], r)
    {
      ReadOn(src, i, s0, r0, r);
      var ch := src[i];
      i := i + 1;
      if IsHexDigit(ch) {
        val := val * 16 + HexValue(ch);
        digits := digits + 1;
        if digits > 4 {
          return;
        }
        saw := true;
        r := r.(val := val, digits := digits, saw := true);
      } else if ch == ':' {
        curtok := i;
        if !saw {
          if colonp.Some? {
            return;
          }
          colonp := Some(tp);
          r := r.(colon := colonp, tok := src[i..]);
        } else {
          if i == |src| || tp + 2 > IN6ADDRSZ {
            return;
          }
          PutWord(tmp, tp, val, r.out);
          r := Reader(r.out + BytesOf(val), colonp, false, 0, 0, src[i..]);
          tp := tp + 2;
          saw, digits, val := false, 0, 0;
        }
      } else if ch == '.' && tp + 4 <= IN6ADDRSZ {
        ok := GetV4(src, curtok, tmp, tp);
        tp := tp + 4;
        return;
      } else {
        return;
      }
    }
    ReadOver(s0, r0, r);
    if saw {
      if tp + 2 > IN6ADDRSZ {
        return;
      }
      PutWord(tmp, tp, val, r.out);
      tp := tp + 2;
    }
    ok := true;
  }

  /** Moves what follows the double colon to the end of the buffer. */
  method ShiftUp(tmp: array<byte>, c: nat, tp: nat)
    requires tmp.Length == IN6ADDRSZ && c <= tp < IN6ADDRSZ && ZeroFrom(tmp[..], tp)
    modifies tmp
    ensures tmp[..] == old(tmp[..c]) + seq(IN6ADDRSZ - tp, _ => 0) + old(tmp[c..tp])
  {
    var n, i := tp - c, 1;
    ghost var before := tmp[..];
    while i <= n
      invariant 1 <= i <= n + 1
      invariant Shifted(before, tmp[..], c, tp, i - 1)
    {
      ghost var s := tmp[..];
      tmp[IN6ADDRSZ - i] := tmp[c + n - i];
      tmp[c + n - i] := 0;
      assert tmp[..] == s[IN6ADDRSZ - i := s[tp - i]][tp - i := 0];
      ShiftStep(before, s, tmp[..], c, tp, i - 1);
      i := i + 1;
    }
    ShiftDone(before, tmp[..], c, tp);
  }

  /** The last `m` bytes have been moved to the end, and zeros left in their place. */
  ghost predicate Shifted(before: seq<byte>, after: seq<byte>, c: nat, tp: nat, m: nat) {
    && |before| == |after| == IN6ADDRSZ && c + m <= tp < IN6ADDRSZ
    && (forall k :: 0 <= k < tp - m ==> after[k] == before[k])
    && (forall k :: tp - m <= k < IN6ADDRSZ - m ==> after[k] == 0)
    && (forall k :: IN6ADDRSZ - m <= k < IN6ADDRSZ ==> after[k] == before[k - (IN6ADDRSZ - tp)])
  }

  lemma ShiftStep(before: seq<byte>, s: seq<byte>, s': seq<byte>, c: nat, tp: nat, m: nat)
    requires Shifted(before, s, c, tp, m) && c + m < tp && s' == s[IN6ADDRSZ - 1 - m := s[tp - 1 - m]][tp - 1 - m := 0]
    ensures Shifted(before, s', c, tp, m + 1)
  {
  }

  lemma ShiftDone(before: seq<byte>, after: seq<byte>, c: nat, tp: nat)
    requires c <= tp && Shifted(before, after, c, tp, tp - c)
    ensures after == before[..c] + seq(IN6ADDRSZ - tp, _ => 0) + before[c..tp]
  {
    var m, z := tp - c, seq(IN6ADDRSZ - tp, _ => 0);
    var all := before[..c] + z + before[c..tp];
    forall k | 0 <= k < IN6ADDRSZ ensures after[k] == all[k] {
    }
    assert after == all;
  }

  /** Reads an IPv6 address without a prefix length. */
  method Pton6(src: string) returns (ok: bool, dst: array<byte>)
    requires '/' !in src
    ensures fresh(dst) && (ok <==> Read6(src).Some?)
    ensures ok ==> dst[..] == Read6(src).value
  {
    dst := new byte[IN6ADDRSZ](_ => 0);
    var start := 0;
    if src != "" && src[0] == ':' {
      start := 1;
      if |src| < 2 || src[1] != ':' {
        return false, dst;
      }
    }
    assert src[0..] == src;
    var tp, colonp;
    ok, tp, colonp := Scan(src, start, dst);
    if !ok {
      return;
    }
    ghost var out := dst[..tp];
    if colonp.Some? {
      if tp == IN6ADDRSZ {
        return false, dst;
      }
      ShiftUp(dst, colonp.value, tp);
      tp := IN6ADDRSZ;
    }
    ok := tp == IN6ADDRSZ;
  }

  lemma PlainHex(n: nat)
    ensures '/' !in Hex(n)
  {
    HexDigitValue(n % 16);
    if n >= 16 {
      PlainHex(n / 16);
    }
  }

  lemma PlainDec(n: nat)
    ensures '/' !in Dec(n)
  {
    HexDigitValue(n % 10);
    if n >= 10 {
      PlainDec(n / 10);
    }
  }

  lemma PlainWords(a: seq<byte>, i: nat, j: nat)
    requires |a| == IN6ADDRSZ && i <= j <= WORDS
    ensures '/' !in HexWords(a, i, j)
    decreases j
  {
    if i < j {
      PlainHex(Word(a, j - 1));
      if i + 1 < j {
        PlainWords(a, i, j - 1);
      }
    }
  }

  /** No slash is ever written. */
  lemma PlainText(a: seq<byte>, base: nat, len: nat)
    requires |a| == IN6ADDRSZ && base + len <= WORDS
    ensures '/' !in TextOf(a, base, len)
  {
    PlainWords(a, 0, WORDS);
    PlainWords(a, 0, base);
    PlainWords(a, base + len, WORDS);
    PlainHex(Word(a, 5));
    PlainDec(a[12]);
    PlainDec(a[13]);
    PlainDec(a[14]);
    PlainDec(a[15]);
  }

  /** The round trip: an address that is written and read is the address. */
  method WriteAndRead(a: Address) returns (text: string, ok: bool, dst: array<byte>)
    ensures ok && dst[..] == a
  {
    ghost var base, len;
    text, base, len := Ntop6(a);
    RoundTrip(a, base, len);
    PlainText(a, base, len);
    ok, dst := Pton6(text);
  }
}
