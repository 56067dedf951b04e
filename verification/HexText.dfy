/** Hexadecimal text of the DES entry points (sec.c:255-285): every pair of characters is
    one byte, most significant bit first. Characters are signed 8-bit codes. */
module HexText {
  import opened Common
  import opened DesSpec

  type CChar = c: int | -128 <= c < 128

  predicate IsHexDigit(c: CChar) {
    48 <= c <= 57 || 65 <= c <= 70
  }

  predicate IsHexText(t: seq<CChar>) {
    forall i :: 0 <= i < |t| ==> IsHexDigit(t[i])
  }

  /** What one character contributes: the digit for 0-9 and A-F, and a value outside 0 to 15
      for anything else. */
  function DigitValue(c: CChar): int {
    if c > 57 then c - 55 else c - 48
  }

  function HexDigit(v: int): CChar
    requires 0 <= v < 16
  {
    if v > 9 then v + 55 else v + 48
  }

  /** Bit `p` of an integer in two's complement. */
  function BitAt(j: int, p: nat): Bit
    decreases p
  {
    if p == 0 then j % 2 else BitAt(j / 2, p - 1)
  }

  /** The low `n` bits of an integer, most significant first. */
  function LowBits(j: int, n: nat): (r: seq<Bit>)
    ensures |r| == n
  {
    seq(n, i requires 0 <= i < n => BitAt(j, n - 1 - i))
  }

  function Pow2(n: nat): (p: nat)
    ensures p > 0
  {
    if n == 0 then 1 else 2 * Pow2(n - 1)
  }

  function BitsValue(b: seq<Bit>): (v: nat)
    ensures v < Pow2(|b|)
  {
    if b == [] then 0 else
      var last: int := b[|b| - 1];
      2 * BitsValue(b[..|b| - 1]) + last
  }

  function PairBits(c0: CChar, c1: CChar): (r: seq<Bit>)
    ensures |r| == 8
  {
    LowBits(16 * DigitValue(c0) + DigitValue(c1), 8)
  }

  function ByteDigit(v: nat, i: nat): (c: CChar)
    requires v < 256 && i < 2
    ensures IsHexDigit(c)
  {
    HexDigit(if i == 0 then v / 16 else v % 16)
  }

  function BytePair(b: seq<Bit>): (r: seq<CChar>)
    requires |b| == 8
    ensures |r| == 2 && IsHexText(r)
  {
    assert Pow2(|b|) == 256;
    seq(2, i requires 0 <= i < 2 => ByteDigit(BitsValue(b), i))
  }

  /** The bits of `n` pairs of characters. */
  function TextBits(t: seq<CChar>, n: nat): (r: seq<Bit>)
    requires |t| == 2 * n
    ensures |r| == 8 * n
    decreases |t|
  {
    if n == 0 then [] else PairBits(t[0], t[1]) + TextBits(t[2..], n - 1)
  }

  function BitsText(b: seq<Bit>, n: nat): (r: seq<CChar>)
    requires |b| == 8 * n
    ensures |r| == 2 * n
    decreases |b|
  {
    if n == 0 then [] else BytePair(b[..8]) + BitsText(b[8..], n - 1)
  }

  // ----- The codec is a bijection between blocks and upper-case hexadecimal text -----

  lemma LowBitsStep(j: int, n: nat)
    requires n > 0
    ensures LowBits(j, n) == LowBits(j / 2, n - 1) + [j % 2]
  {
    forall i | 0 <= i < n ensures LowBits(j, n)[i] == (LowBits(j / 2, n - 1) + [j % 2])[i] {
      assert LowBits(j, n)[i] == BitAt(j, n - 1 - i);
      if i < n - 1 {
        assert LowBits(j / 2, n - 1)[i] == BitAt(j / 2, n - 2 - i);
      }
    }
  }

  lemma {:induction false} LowBitsOfValue(b: seq<Bit>)
    ensures LowBits(BitsValue(b), |b|) == b
  {
    if b == [] {
    } else {
      var half := BitsValue(b[..|b| - 1]);
      var last: int := b[|b| - 1];
      LowBitsOfValue(b[..|b| - 1]);
      assert (2 * half + last) / 2 == half && (2 * half + last) % 2 == last;
      LowBitsStep(2 * half + last, |b|);
    }
  }

  lemma {:induction false} ValueOfLowBits(j: nat, n: nat)
    requires j < Pow2(n)
    ensures BitsValue(LowBits(j, n)) == j
    decreases n
  {
    if n == 0 {
    } else {
      ValueOfLowBits(j / 2, n - 1);
      LowBitsStep(j, n);
      assert LowBits(j, n)[..n - 1] == LowBits(j / 2, n - 1);
    }
  }

  lemma PairOfByte(b: seq<Bit>)
    requires |b| == 8
    ensures PairBits(BytePair(b)[0], BytePair(b)[1]) == b
  {
    var v := BitsValue(b);
    assert Pow2(|b|) == 256;
    assert DigitValue(HexDigit(v / 16)) == v / 16 && DigitValue(HexDigit(v % 16)) == v % 16;
    LowBitsOfValue(b);
  }

  lemma DigitRoundTrip(c: CChar)
    requires IsHexDigit(c)
    ensures 0 <= DigitValue(c) < 16 && HexDigit(DigitValue(c)) == c
  {}

  lemma PairValue(c0: CChar, c1: CChar)
    requires IsHexDigit(c0) && IsHexDigit(c1)
    ensures BitsValue(PairBits(c0, c1)) == 16 * DigitValue(c0) + DigitValue(c1)
  {
    assert Pow2(8) == 256;
    ValueOfLowBits(16 * DigitValue(c0) + DigitValue(c1), 8);
  }

  /** The digits are 0 to 9 and A to F. */
  lemma DigitsInOrder(v: nat)
    requires v < 16
    ensures HexDigit(v) == "0123456789ABCDEF"[v] as int && DigitValue(HexDigit(v)) == v
  {}

  /** Two characters stand for the eight bits of sixteen times the first plus the second, most significant first. */
  lemma {:induction false} PairIsTwoNibbles(c0: CChar, c1: CChar, i: nat)
    requires i < 4
    ensures var j := 16 * DigitValue(c0) + DigitValue(c1);
            PairBits(c0, c1)[i] == NibbleBit(j / 16 % 16, i) && PairBits(c0, c1)[4 + i] == NibbleBit(j % 16, i)
  {
    var j := 16 * DigitValue(c0) + DigitValue(c1);
    UpperHalf(j, 3 - i);
    LowNibble(j / 16, 3 - i);
    LowNibble(j, 3 - i);
  }

  lemma {:induction false} SamePair(c0: CChar, c1: CChar, d0: CChar, d1: CChar)
    requires var j, k := 16 * DigitValue(c0) + DigitValue(c1), 16 * DigitValue(d0) + DigitValue(d1);
             j / 16 % 16 == k / 16 % 16 && j % 16 == k % 16
    ensures PairBits(c0, c1) == PairBits(d0, d1)
  {
    forall k | 0 <= k < 8 ensures PairBits(c0, c1)[k] == PairBits(d0, d1)[k] {
      PairIsTwoNibbles(c0, c1, if k < 4 then k else k - 4);
      PairIsTwoNibbles(d0, d1, if k < 4 then k else k - 4);
    }
  }

  /** Lower-case letters are not read as digits: "aa" is read as "CA" is. */
  lemma {:induction false} LowerCaseMisread()
    ensures PairBits('a' as int, 'a' as int) == PairBits('C' as int, 'A' as int)
  {
    SamePair('a' as int, 'a' as int, 'C' as int, 'A' as int);
  }

  lemma {:induction false} UpperHalf(j: int, p: nat)
    ensures BitAt(j, p + 4) == BitAt(j / 16, p)
    decreases p
  {
    if p == 0 {
      assert BitAt(j, 4) == BitAt(j / 2 / 2 / 2 / 2, 0) && j / 2 / 2 / 2 / 2 == j / 16;
    } else {
      UpperHalf(j / 2, p - 1);
      assert j / 2 / 16 == j / 16 / 2;
    }
  }

  lemma {:induction false} LowNibble(j: int, p: nat)
    requires p < 4
    ensures BitAt(j, p) == NibbleBit(j % 16, 3 - p)
  {
    BitIsQuotient(j, p);
    LastFour(j / 16, j % 16);
  }

  lemma {:induction false} BitIsQuotient(j: int, p: nat)
    requires p < 4
    ensures BitAt(j, p) == (if p == 0 then j else if p == 1 then j / 2 else if p == 2 then j / 2 / 2 else j / 2 / 2 / 2) % 2
  {
    if p == 1 {
      assert BitAt(j, 1) == BitAt(j / 2, 0);
    } else if p == 2 {
      assert BitAt(j, 2) == BitAt(j / 2, 1) && BitAt(j / 2, 1) == BitAt(j / 2 / 2, 0);
    } else if p == 3 {
      assert BitAt(j, 3) == BitAt(j / 2, 2) && BitAt(j / 2, 2) == BitAt(j / 2 / 2, 1) && BitAt(j / 2 / 2, 1) == BitAt(j / 2 / 2 / 2, 0);
    }
  }

  /** Sixteen times something does not touch the last four bits. */
  lemma LastFour(q: int, m: nat)
    requires m < 16
    ensures (16 * q + m) % 2 == m % 2
    ensures (16 * q + m) / 2 % 2 == m / 2 % 2
    ensures (16 * q + m) / 2 / 2 % 2 == m / 4 % 2
    ensures (16 * q + m) / 2 / 2 / 2 % 2 == m / 8 % 2
  {
    HalfOf(8 * q, m);
    HalfOf(4 * q, m / 2);
    HalfOf(2 * q, m / 4);
    assert m / 2 / 2 == m / 4 && m / 4 / 2 == m / 8;
    assert (16 * q + m) / 2 == 8 * q + m / 2;
    assert (8 * q + m / 2) / 2 == 4 * q + m / 4;
    assert (4 * q + m / 4) / 2 == 2 * q + m / 8;
  }

  lemma HalfOf(h: int, m: nat)
    ensures (2 * h + m) / 2 == h + m / 2 && (2 * h + m) % 2 == m % 2
  {}

  lemma {:induction false} ByteDigits(b: seq<Bit>, d0: int, d1: int)
    requires |b| == 8 && 0 <= d0 < 16 && 0 <= d1 < 16
    requires BitsValue(b) == 16 * d0 + d1
    ensures BytePair(b) == [HexDigit(d0), HexDigit(d1)]
  {
    assert BytePair(b)[0] == HexDigit(d0) && BytePair(b)[1] == HexDigit(d1);
  }

  lemma ByteOfPair(c0: CChar, c1: CChar)
    requires IsHexDigit(c0) && IsHexDigit(c1)
    ensures BytePair(PairBits(c0, c1)) == [c0, c1]
  {
    DigitRoundTrip(c0);
    DigitRoundTrip(c1);
    PairValue(c0, c1);
    ByteDigits(PairBits(c0, c1), DigitValue(c0), DigitValue(c1));
  }

  lemma TextBitsCons(pair: seq<CChar>, t: seq<CChar>, n: nat)
    requires |pair| == 2 && |t| == 2 * n
    ensures TextBits(pair + t, n + 1) == PairBits(pair[0], pair[1]) + TextBits(t, n)
  {
    assert (pair + t)[2..] == t;
  }

  lemma BitsTextCons(byte: seq<Bit>, b: seq<Bit>, n: nat)
    requires |byte| == 8 && |b| == 8 * n
    ensures BitsText(byte + b, n + 1) == BytePair(byte) + BitsText(b, n)
  {
    assert (byte + b)[..8] == byte && (byte + b)[8..] == b;
  }

  lemma ByteThenText(b: seq<Bit>, t: seq<CChar>, n: nat)
    requires |b| == 8 && |t| == 2 * n
    ensures TextBits(BytePair(b) + t, n + 1) == b + TextBits(t, n)
  {
    TextBitsCons(BytePair(b), t, n);
    PairOfByte(b);
  }

  lemma {:induction false} BitsTextIsHex(b: seq<Bit>, n: nat)
    requires |b| == 8 * n
    ensures IsHexText(BitsText(b, n))
    decreases n
  {
    if n == 0 {
    } else {
      BitsTextIsHex(b[8..], n - 1);
    }
  }

  /** Any bits can be written as text and read back. */
  lemma {:induction false} BitsRoundTrip(b: seq<Bit>, n: nat)
    requires |b| == 8 * n
    ensures TextBits(BitsText(b, n), n) == b
    decreases n
  {
    if n == 0 {
    } else {
      var byte, rest := b[..8], b[8..];
      assert b == byte + rest;
      BitsRoundTrip(rest, n - 1);
      BitsTextCons(byte, rest, n - 1);
      ByteThenText(byte, BitsText(rest, n - 1), n - 1);
    }
  }

  /** Exactly the upper-case hexadecimal texts survive being read as bits. */
  lemma {:induction false} TextRoundTrip(t: seq<CChar>, n: nat)
    requires |t| == 2 * n
    ensures BitsText(TextBits(t, n), n) == t <==> IsHexText(t)
  {
    BitsTextIsHex(TextBits(t, n), n);
    if IsHexText(t) {
      HexTextRoundTrip(t, n);
    }
  }

  lemma OnePairMore(c0: CChar, c1: CChar, rest: seq<CChar>, n: nat)
    requires IsHexDigit(c0) && IsHexDigit(c1) && |rest| == 2 * n && BitsText(TextBits(rest, n), n) == rest
    ensures BitsText(TextBits([c0, c1] + rest, n + 1), n + 1) == [c0, c1] + rest
  {
    ByteOfPair(c0, c1);
    TextBitsCons([c0, c1], rest, n);
    BitsTextCons(PairBits(c0, c1), TextBits(rest, n), n);
  }

  lemma {:induction false} HexTextRoundTrip(t: seq<CChar>, n: nat)
    requires |t| == 2 * n && IsHexText(t)
    ensures BitsText(TextBits(t, n), n) == t
    decreases n
  {
    if n > 0 {
      HexTextRoundTrip(t[2..], n - 1);
      OnePairMore(t[0], t[1], t[2..], n - 1);
    }
  }

  // ----- Both directions work pair by pair -----

  lemma {:induction false} TextBitsAppend(t: seq<CChar>, n: nat, u: seq<CChar>, m: nat)
    requires |t| == 2 * n && |u| == 2 * m
    ensures TextBits(t + u, n + m) == TextBits(t, n) + TextBits(u, m)
    decreases n
  {
    if n == 0 {
      assert t + u == u;
    } else {
      assert t == t[..2] + t[2..];
      TextBitsAppend(t[2..], n - 1, u, m);
      OnePairInFront(t[..2], t[2..], n - 1, u, m);
    }
  }

  lemma {:induction false} OnePairInFront(pair: seq<CChar>, t: seq<CChar>, n: nat, u: seq<CChar>, m: nat)
    requires |pair| == 2 && |t| == 2 * n && |u| == 2 * m && TextBits(t + u, n + m) == TextBits(t, n) + TextBits(u, m)
    ensures TextBits((pair + t) + u, n + 1 + m) == TextBits(pair + t, n + 1) + TextBits(u, m)
  {
    Associate(pair, t, u);
    TextBitsCons(pair, t, n);
    TextBitsCons(pair, t + u, n + m);
    Associate(PairBits(pair[0], pair[1]), TextBits(t, n), TextBits(u, m));
  }

  lemma {:induction false} BitsTextAppend(b: seq<Bit>, n: nat, c: seq<Bit>, m: nat)
    requires |b| == 8 * n && |c| == 8 * m
    ensures BitsText(b + c, n + m) == BitsText(b, n) + BitsText(c, m)
    decreases n
  {
    if n == 0 {
      assert b + c == c;
    } else {
      assert b == b[..8] + b[8..];
      BitsTextAppend(b[8..], n - 1, c, m);
      OneByteInFront(b[..8], b[8..], n - 1, c, m);
    }
  }

  lemma {:induction false} OneByteInFront(byte: seq<Bit>, b: seq<Bit>, n: nat, c: seq<Bit>, m: nat)
    requires |byte| == 8 && |b| == 8 * n && |c| == 8 * m && BitsText(b + c, n + m) == BitsText(b, n) + BitsText(c, m)
    ensures BitsText((byte + b) + c, n + 1 + m) == BitsText(byte + b, n + 1) + BitsText(c, m)
  {
    Associate(byte, b, c);
    BitsTextCons(byte, b, n);
    BitsTextCons(byte, b + c, n + m);
    Associate(BytePair(byte), BitsText(b, n), BitsText(c, m));
  }
}
