/** Text helpers (gmstring.cc): splitting at a separator, and the decimal numbers that `printf`
    writes and `atoi` reads back. Strings are C strings without their final NUL. */
module Strings {
  import opened Common

  /** What a field of `n` characters keeps of a string. */
  function Cut(s: string, n: nat): string {
    if |s| > n then s[..n] else s
  }

  /** The first `n` characters, or all of them if there are fewer. */
  lemma CutIsPrefix(s: string, n: nat)
    ensures Cut(s, n) <= s && |Cut(s, n)| == if |s| < n then |s| else n
  {}

  // ----- Splitting -----

  /** The pieces of `s` between separators; there is always at least one. */
  function Fields(s: string, sep: char): (r: seq<string>)
    ensures r != []
  {
    if s == [] then [""]
    else
      var rest := Fields(s[1..], sep);
      if s[0] == sep then [""] + rest else [[s[0]] + rest[0]] + rest[1..]
  }

  function Join(fields: seq<string>, sep: char): string
    requires fields != []
  {
    if |fields| == 1 then fields[0] else fields[0] + [sep] + Join(fields[1..], sep)
  }

  lemma {:induction false} FirstField(a: string, rest: string, sep: char)
    requires sep !in a
    ensures Fields(a, sep) == [a]
    ensures Fields(a + [sep] + rest, sep) == [a] + Fields(rest, sep)
  {
    var s := a + [sep] + rest;
    if a == [] {
      assert s[1..] == rest;
    } else {
      FirstField(a[1..], rest, sep);
      assert s[1..] == a[1..] + [sep] + rest;
      assert [a[0]] + a[1..] == a;
    }
  }

  /** Splitting undoes joining. */
  lemma {:induction false} SplitJoin(fields: seq<string>, sep: char)
    requires fields != [] && forall i :: 0 <= i < |fields| ==> sep !in fields[i]
    ensures Fields(Join(fields, sep), sep) == fields
  {
    if |fields| == 1 {
      FirstField(fields[0], "", sep);
    } else {
      SplitJoin(fields[1..], sep);
      FirstField(fields[0], Join(fields[1..], sep), sep);
    }
  }

  /** Joining undoes splitting, and no piece holds a separator. */
  lemma {:induction false} JoinSplit(s: string, sep: char)
    ensures Join(Fields(s, sep), sep) == s
    ensures forall f :: f in Fields(s, sep) ==> sep !in f && forall c :: c in f ==> c in s
  {
    JoinOfFields(s, sep);
    forall f | f in Fields(s, sep) ensures sep !in f && forall c :: c in f ==> c in s {
      FieldIsPlain(s, sep, f);
    }
  }

  lemma {:induction false} JoinOfFields(s: string, sep: char)
    ensures Join(Fields(s, sep), sep) == s
  {
    if s != [] {
      JoinOfFields(s[1..], sep);
      var rest := Fields(s[1..], sep);
      if s[0] == sep {
        assert ([""] + rest)[1..] == rest;
      } else {
        var all := [[s[0]] + rest[0]] + rest[1..];
        assert all[1..] == rest[1..];
        assert s == [s[0]] + s[1..];
      }
    }
  }

  lemma {:induction false} FieldIsPlain(s: string, sep: char, f: string)
    requires f in Fields(s, sep)
    ensures sep !in f && forall c :: c in f ==> c in s
  {
    if s != [] && f != "" {
      var rest := Fields(s[1..], sep);
      var piece := if s[0] != sep && f !in rest[1..] then rest[0] else f;
      assert piece in rest;
      FieldIsPlain(s[1..], sep, piece);
    }
  }

  /** The pieces cut off so far, and the text from `start` on, in which the first separator is not
      before `i`, make up the whole. */
  ghost predicate Splitting(s: string, sep: char, fields: seq<string>, start: nat, i: nat) {
    && start <= i <= |s| && sep !in s[start..i]
    && Fields(s, sep) == fields + Fields(s[start..], sep)
  }

  lemma SplitStarts(s: string, sep: char)
    ensures Splitting(s, sep, [], 0, 0)
  {
    assert s[0..] == s && s[0..0] == "";
    assert [] + Fields(s, sep) == Fields(s, sep);
  }

  lemma GoOn(s: string, sep: char, fields: seq<string>, start: nat, i: nat)
    requires Splitting(s, sep, fields, start, i) && i < |s| && s[i] != sep
    ensures Splitting(s, sep, fields, start, i + 1)
  {
    assert s[start..i + 1] == s[start..i] + [s[i]];
  }

  lemma CutOff(s: string, sep: char, fields: seq<string>, start: nat, i: nat)
    requires Splitting(s, sep, fields, start, i) && i < |s| && s[i] == sep
    ensures Splitting(s, sep, fields + [s[start..i]], i + 1, i + 1)
  {
    var piece, rest := s[start..i], s[i + 1..];
    FirstField(piece, rest, sep);
    assert s[start..] == piece + [sep] + rest;
    Associate(fields, [piece], Fields(rest, sep));
  }

  lemma {:induction false} SplitEnds(s: string, sep: char, fields: seq<string>, start: nat)
    requires Splitting(s, sep, fields, start, |s|)
    ensures Fields(s, sep) == fields + [s[start..]]
  {
    assert s[start..|s|] == s[start..];
    FirstField(s[start..], "", sep);
  }

  /** The loop of `split`: pieces are cut off as separators are met. */
  method Split(s: string, sep: char) returns (fields: seq<string>)
    ensures fields == Fields(s, sep)
  {
    fields := [];
    var start := 0;
    var i := 0;
    SplitStarts(s, sep);
    while i < |s|
      invariant Splitting(s, sep, fields, start, i)
    {
      if s[i] == sep {
        CutOff(s, sep, fields, start, i);
        fields := fields + [s[start..i]];
        start := i + 1;
      } else {
        GoOn(s, sep, fields, start, i);
      }
      i := i + 1;
    }
    SplitEnds(s, sep, fields, start);
    fields := fields + [s[start..]];
  }

  // ----- Numbers -----

  predicate IsDigit(c: char) {
    '0' <= c <= '9'
  }

  function DigitOf(n: nat): (c: char)
    requires n < 10
    ensures IsDigit(c)
  {
    '0' + n as char
  }

  function ValueOf(c: char): nat
    requires IsDigit(c)
  {
    c as int - '0' as int
  }

  /** `%u`: the digits without leading zeros. */
  function Digits(n: nat): string {
    if n < 10 then [DigitOf(n)] else Digits(n / 10) + [DigitOf(n % 10)]
  }

  /** `%d`. */
  function Show(n: int): string {
    if n < 0 then "-" + Digits(-n) else Digits(n)
  }

  /** The number that the digits at the start of `s` make, when `acc` has been read before them. */
  function ReadDigits(s: string, acc: nat): nat {
    if s == [] || !IsDigit(s[0]) then acc else ReadDigits(s[1..], 10 * acc + ValueOf(s[0]))
  }

  predicate IsSpace(c: char) {
    c == ' ' || '\t' <= c <= '\r'
  }

  /** `atoi` and `atol`. */
  function Atoi(s: string): int {
    if s == [] then 0
    else if IsSpace(s[0]) then Atoi(s[1..])
    else if s[0] == '-' then 0 - ReadDigits(s[1..], 0)
    else if s[0] == '+' then ReadDigits(s[1..], 0)
    else ReadDigits(s, 0)
  }

  predicate EndsNumber(s: string) {
    s == [] || !IsDigit(s[0])
  }

  lemma {:induction false} ReadAppended(a: string, b: string, acc: nat)
    requires forall i :: 0 <= i < |a| ==> IsDigit(a[i])
    ensures ReadDigits(a + b, acc) == ReadDigits(b, ReadDigits(a, acc))
  {
    if a == [] {
      assert a + b == b;
    } else {
      assert (a + b)[0] == a[0] && (a + b)[1..] == a[1..] + b;
      ReadAppended(a[1..], b, 10 * acc + ValueOf(a[0]));
    }
  }

  lemma {:induction false} DigitsReadBack(n: nat)
    ensures forall i :: 0 <= i < |Digits(n)| ==> IsDigit(Digits(n)[i])
    ensures ReadDigits(Digits(n), 0) == n && Digits(n) != []
  {
    if n >= 10 {
      DigitsReadBack(n / 10);
      ReadAppended(Digits(n / 10), [DigitOf(n % 10)], 0);
      assert ReadDigits([DigitOf(n % 10)][1..], n) == n;
    }
  }

  /** `atoi` reads back what `%d` printed, whatever follows that is not a digit. */
  lemma {:induction false} AtoiOfShow(n: int, rest: string)
    requires EndsNumber(rest)
    ensures Atoi(Show(n) + rest) == n
  {
    var m := if n < 0 then -n else n;
    var d := Digits(m);
    DigitsReadBack(m);
    ReadAppended(d, rest, 0);
    if n < 0 {
      assert (("-" + d) + rest)[1..] == d + rest;
    }
  }

  // ----- Numbers of a fixed width -----

  function Pow10(w: nat): (p: nat)
    ensures p >= 1
  {
    if w == 0 then 1 else 10 * Pow10(w - 1)
  }

  /** `%0wu`: at least `w` digits, more if the number does not fit. */
  function Padded(n: nat, w: nat): string {
    if w <= 1 then Digits(n) else Padded(n / 10, w - 1) + [DigitOf(n % 10)]
  }

  predicate AllDigits(s: string) {
    forall i :: 0 <= i < |s| ==> IsDigit(s[i])
  }

  lemma {:induction false} DigitsLength(n: nat, w: nat)
    requires w > 0
    ensures |Digits(n)| <= w <==> n < Pow10(w)
  {
    DigitsReadBack(n);
    assert Pow10(w) == 10 * Pow10(w - 1);
    if n >= 10 && w > 1 {
      DigitsLength(n / 10, w - 1);
    } else if n >= 10 {
      assert Pow10(0) == 1;
      DigitsReadBack(n / 10);
    }
  }

  /** A number is printed in exactly `w` digits when it is less than ten to the `w`, in more
      otherwise. */
  lemma {:induction false} PaddedLength(n: nat, w: nat)
    requires w > 0
    ensures |Padded(n, w)| >= w
    ensures |Padded(n, w)| == w <==> n < Pow10(w)
  {
    assert Pow10(w) == 10 * Pow10(w - 1);
    if w == 1 {
      DigitsLength(n, 1);
      DigitsReadBack(n);
    } else {
      PaddedLength(n / 10, w - 1);
    }
  }

  lemma {:induction false} PaddedAtMost(n: nat, w: nat, m: nat)
    requires 0 < w <= m && n < Pow10(m)
    ensures |Padded(n, w)| <= m
  {
    assert Pow10(m) == 10 * Pow10(m - 1);
    if w == 1 {
      DigitsLength(n, m);
    } else {
      PaddedAtMost(n / 10, w - 1, m - 1);
    }
  }

  lemma {:induction false} PaddedReadBack(n: nat, w: nat)
    ensures AllDigits(Padded(n, w)) && Padded(n, w) != [] && ReadDigits(Padded(n, w), 0) == n
  {
    if w <= 1 {
      DigitsReadBack(n);
    } else {
      PaddedReadBack(n / 10, w - 1);
      ReadAppended(Padded(n / 10, w - 1), [DigitOf(n % 10)], 0);
      assert ReadDigits([DigitOf(n % 10)][1..], n) == n;
    }
  }

  /** `w` digits stand for a number less than ten to the `w`. */
  lemma {:induction false} ReadBound(s: string)
    requires AllDigits(s)
    ensures ReadDigits(s, 0) < Pow10(|s|)
  {
    if s != [] {
      var init, last := s[..|s| - 1], s[|s| - 1];
      ReadBound(init);
      ReadAppended(init, [last], 0);
      assert init + [last] == s;
      assert ReadDigits([last][1..], 10 * ReadDigits(init, 0) + ValueOf(last)) == 10 * ReadDigits(init, 0) + ValueOf(last);
    }
  }

  lemma {:induction false} AtoiOfDigits(s: string)
    requires s != [] && AllDigits(s)
    ensures Atoi(s) == ReadDigits(s, 0)
  {}

  /** A number that fits is printed in `w` digits and read back. */
  lemma {:induction false} PaddedAtoi(n: nat, w: nat)
    requires w > 0 && n < Pow10(w)
    ensures |Padded(n, w)| == w && AllDigits(Padded(n, w)) && Atoi(Padded(n, w)) == n
  {
    PaddedLength(n, w);
    PaddedReadBack(n, w);
    AtoiOfDigits(Padded(n, w));
  }
}
