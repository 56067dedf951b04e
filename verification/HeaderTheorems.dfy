/** When the getters of a header return what was set, over whole runs of setters, and when `SetHeader`
    accepts the record. */
module HeaderTheorems {
  import opened Common
  import opened Strings
  import opened Header

  /** What the getter makes of a number that fills its field. */
  lemma NumberIsRead(r: Record, f: Field, v: int)
    requires Exists(SetNumber(f, v)) && |Padded(Unsigned(v), Width(f))| >= Width(f)
    ensures var s := Padded(Unsigned(v), Width(f));
            Read(Written(r, SetNumber(f, v)), f) == Number(Wrapped(f, Atoi(s[..Width(f)])))
  {
    PutHere(r, Offset(f), Padded(Unsigned(v), Width(f)), Width(f));
  }

  /** What it makes of a text. */
  lemma TextIsRead(r: Record, f: Field, s: string)
    requires IsText(f) && |s| <= Width(f)
    ensures Read(Written(r, SetText(f, s)), f) == Text(Prefix(Filled(s, Width(f)), IsTrimmed(f)))
  {
    PutInto(r, f, Filled(s, Width(f)), f);
  }

  /** A number wider than its field is cut to the first digits, so it is not read back. */
  lemma WideIsNotRead(r: Record, f: Field, v: int)
    requires Exists(SetNumber(f, v)) && Unsigned(v) >= Pow10(Width(f))
    ensures Read(Written(r, SetNumber(f, v)), f).Number? && 0 <= Read(Written(r, SetNumber(f, v)), f).v < Pow10(Width(f))
  {
    var w := Width(f);
    var s := Padded(Unsigned(v), w);
    PaddedLength(Unsigned(v), w);
    PaddedReadBack(Unsigned(v), w);
    NumberIsRead(r, f, v);
    DigitsBelow(f, s[..w]);
  }

  /** A number is read back exactly when it is not negative and fits its field and the type that the
      getter converts to; one too wide for its field also overwrites what follows. */
  lemma NumberFits(r: Record, f: Field, v: int)
    requires Exists(SetNumber(f, v)) && v < TWO64
    ensures Read(Written(r, SetNumber(f, v)), f) == Number(v)
            <==> 0 <= v < Pow10(Width(f))
                 && (f.IdOrigen? || f.IdRouter? || f.IdDestino? || f.TimeStamp? ==> v < 0x1_0000_0000)
  {
    Powers();
    if Unsigned(v) >= Pow10(Width(f)) {
      WideIsNotRead(r, f, v);
    } else if v < Limit(f) {
      SetterSetsOneField(r, SetNumber(f, v), f);
    } else {
      LongRead(r, f, v);
    }
  }

  /** What becomes of a number that fits ten digits, in the fields whose getter has 32 bits. */
  lemma LongRead(r: Record, f: Field, v: nat)
    requires IsNumber(f) && Limit(f) == TWO32 && v < Pow10(Width(f))
    ensures Exists(SetNumber(f, v)) && Read(Written(r, SetNumber(f, v)), f) == Number(v % TWO32)
  {
    var s := Padded(v, Width(f));
    PaddedAtoi(v, Width(f));
    PutInto(r, f, s, f);
    WrapLong(f, v);
  }

  /** A time stamp of 2 to the 32 fits its ten digits and is read back as 0. */
  lemma TimeStampWraps(r: Record)
    ensures TWO32 < Pow10(Width(TimeStamp)) && Exists(SetNumber(TimeStamp, TWO32))
    ensures Read(Written(r, SetNumber(TimeStamp, TWO32)), TimeStamp) == Number(0)
  {
    Powers();
    LongRead(r, TimeStamp, TWO32);
  }

  /** A transaction number of 100000 is read back as 10000, and its last digit is in the next field. */
  lemma WideNumber(r: Record)
    ensures Exists(SetNumber(IdTrans, 100000))
    ensures var next := Written(r, SetNumber(IdTrans, 100000));
            Read(next, IdTrans) == Number(10000) && Slice(next, IdCola)[0] == '0'
  {
    PrintedSpill();
    FiveDigitsRead();
    SpillInto(r, IdTrans, 100000, "10000", '0');
  }

  lemma FiveDigitsRead()
    ensures Wrapped(IdTrans, Atoi("10000")) == 10000
  {
    PrintedSpill();
    Powers();
    PaddedAtoi(10000, 5);
    WrapSame(IdTrans, 10000);
  }

  lemma ShortHasRoom(f: Field)
    requires IsShort(f)
    ensures Offset(f) + Width(f) + 1 <= RECORD && IsNumber(f) && f != VersionHeader
  {}

  /** One digit too many goes into the next field. */
  lemma {:induction false} SpillInto(r: Record, f: Field, v: nat, s: string, extra: char)
    requires IsShort(f) && Padded(v, Width(f)) == s + [extra] && |s| == Width(f)
    ensures Exists(SetNumber(f, v))
    ensures var next := Written(r, SetNumber(f, v));
            Read(next, f) == Number(Wrapped(f, Atoi(s))) && next[Offset(f) + |s|] == extra
  {
    ShortHasRoom(f);
    NumberIsRead(r, f, v);
    assert (s + [extra])[..|s|] == s;
    PutLast(r, Offset(f), s, extra);
  }

  lemma PutLast(r: Record, at: nat, s: string, extra: char)
    requires at + |s| + 1 <= RECORD
    ensures Put(r, at, s + [extra])[at + |s|] == extra
  {}

  /** A negative queue number is printed in ten digits and not read back. */
  lemma NegativeQueue(r: Record)
    ensures Exists(SetNumber(IdCola, -1)) && Read(Written(r, SetNumber(IdCola, -1)), IdCola) != Number(-1)
  {
    Powers();
    PaddedAtMost(Unsigned(-1), 5, 10);
    WideIsNotRead(r, IdCola, -1);
  }

  lemma PrintedSpill()
    ensures Padded(10000, 5) == "10000" && Padded(100000, 5) == "100000"
  {
    assert Digits(1) == "1" && Digits(10) == "10";
    assert Padded(10, 2) == "10" && Padded(100, 3) == "100" && Padded(1000, 4) == "1000";
    assert Padded(10, 1) == "10" && Padded(100, 2) == "100" && Padded(1000, 3) == "1000" && Padded(10000, 4) == "10000";
  }

  lemma {:induction false} PrefixOfFilled(s: string, n: nat)
    requires '\0' !in s
    ensures ' ' !in s ==> Prefix(s + Repeated(' ', n), true) == s
    ensures ' ' in s ==> ' ' !in Prefix(s + Repeated(' ', n), true)
    ensures Prefix(s + Repeated(' ', n), false) == s + Repeated(' ', n)
  {
    if s == [] {
      assert s + Repeated(' ', n) == Repeated(' ', n);
      NoNul(Repeated(' ', n));
    } else {
      PrefixOfFilled(s[1..], n);
      assert (s + Repeated(' ', n))[1..] == s[1..] + Repeated(' ', n);
    }
  }

  lemma {:induction false} NoNul(s: string)
    requires '\0' !in s
    ensures Prefix(s, false) == s
  {
    if s != [] {
      NoNul(s[1..]);
    }
  }

  lemma {:induction false} FilledFits(s: string, n: nat, spaces: bool)
    requires '\0' !in s
    ensures Prefix(s + Repeated(' ', n), spaces) == s <==> if spaces then ' ' !in s else n == 0
  {
    PrefixOfFilled(s, n);
    assert n == 0 ==> s + Repeated(' ', 0) == s;
    assert n > 0 ==> |s + Repeated(' ', n)| > |s|;
  }

  lemma {:induction false} FillingFits(f: Field, s: string)
    requires IsText(f) && |s| <= Width(f) && '\0' !in s
    ensures Prefix(Filled(s, Width(f)), IsTrimmed(f)) == s <==> (if IsTrimmed(f) then ' ' !in s else |s| == Width(f))
  {
    FilledFits(s, Width(f) - |s|, IsTrimmed(f));
  }

  /** A text is read back as it was given exactly when it has no space, or, in the two fields that are
      not trimmed, when it fills the field. */
  lemma TextFits(r: Record, f: Field, s: string)
    requires IsText(f) && |s| <= Width(f) && '\0' !in s
    ensures Read(Written(r, SetText(f, s)), f) == Text(s) <==> (if IsTrimmed(f) then ' ' !in s else |s| == Width(f))
  {
    TextIsRead(r, f, s);
    FillingFits(f, s);
  }

  /** The user "a b" is read back as "a". */
  lemma TextWithSpace(r: Record)
    ensures Read(Written(r, SetText(IdUsuario, "a b")), IdUsuario) == Text("a")
  {
    SetterSetsOneField(r, SetText(IdUsuario, "a b"), IdUsuario);
    CutAtSpace("a b" + Repeated(' ', 13));
  }

  lemma {:induction false} CutAtSpace(s: string)
    requires |s| > 1 && s[0] == 'a' && s[1] == ' '
    ensures Prefix(s, true) == "a"
  {
    assert s[1..][0] == ' ' && Prefix(s[1..], true) == "";
  }

  // ----- Runs of setters -----

  ghost predicate AllExist(ops: seq<Op>) {
    forall i :: 0 <= i < |ops| ==> Exists(ops[i])
  }

  ghost predicate AllInRange(ops: seq<Op>): (all: bool)
    ensures all ==> AllExist(ops)
  {
    forall i :: 0 <= i < |ops| ==> InRange(ops[i])
  }

  ghost function Run(r: Record, ops: seq<Op>): Record
    requires AllExist(ops)
  {
    if ops == [] then r else Written(Run(r, ops[..|ops| - 1]), ops[|ops| - 1])
  }

  /** The value of the last setter of a field that was not refused. */
  function LastSet(ops: seq<Op>, f: Field, before: Value): Value {
    if ops == [] then before
    else if ops[|ops| - 1].f == f && !Refused(ops[|ops| - 1]) then Meant(ops[|ops| - 1])
    else LastSet(ops[..|ops| - 1], f, before)
  }

  /** After any run of setters in range every getter returns the last value set. */
  lemma {:induction false} GettersReturnLastSet(r: Record, ops: seq<Op>, f: Field)
    requires AllInRange(ops)
    ensures Read(Run(r, ops), f) == LastSet(ops, f, Read(r, f))
  {
    if ops != [] {
      GettersReturnLastSet(r, ops[..|ops| - 1], f);
      SetterSetsOneField(Run(r, ops[..|ops| - 1]), ops[|ops| - 1], f);
    }
  }

  // ----- Acceptance -----

  const VERSION_HEADER: string := "000"

  predicate IsKnownType(c: char) {
    c == 'C' || c == 'M' || c == 'G' || c == 'N' || c == 'R' || c == 'O' || c == 'L' || c == 'P'
  }

  /** The numbers that `SetHeader` looks at; the time stamp is not among them. */
  predicate IsChecked(f: Field) {
    IsNumber(f) && f != VersionHeader && f != TimeStamp
  }

  predicate Accepts(r: Record) {
    && Slice(r, VersionHeader) == VERSION_HEADER
    && IsKnownType(r[0])
    && forall f :: IsChecked(f) ==> AllDigits(Slice(r, f))
  }

  function Default(f: Field): (s: string)
    ensures |s| == Width(f)
  {
    if f.TipoMensaje? then "?"
    else if f.VersionHeader? then VERSION_HEADER
    else if IsText(f) then Repeated(' ', Width(f))
    else Repeated('0', Width(f))
  }

  ghost predicate IsInitial(r: Record) {
    forall f :: Slice(r, f) == Default(f)
  }

  /** What the getters of a new header return. */
  function NewValue(f: Field): Value {
    match f
    case TipoMensaje => Letter('?')
    case OrigenConsulta => Letter('0')
    case OrigenRespuesta => Letter('0')
    case IdUsuario => Text("")
    case IdCliente => Text("")
    case IdGrupo => Text("")
    case Funcion => Text("")
    case Key => Text(Repeated(' ', 16))
    case Crc => Text(Repeated(' ', 16))
    case _ => Number(0)
  }

  lemma {:induction false} NewHeaderReads(r: Record, f: Field)
    requires IsInitial(r)
    ensures Read(r, f) == NewValue(f)
  {
    assert Slice(r, f) == Default(f);
    if IsText(f) {
      NewText(f);
    } else if IsNumber(f) {
      NewNumber(f);
    }
  }

  lemma {:induction false} NewText(f: Field)
    requires IsText(f)
    ensures Parse(f, Default(f)) == NewValue(f)
  {
    PrefixOfFilled("", Width(f));
    assert "" + Repeated(' ', Width(f)) == Repeated(' ', Width(f));
  }

  lemma {:induction false} NewNumber(f: Field)
    requires IsNumber(f)
    ensures Parse(f, Default(f)) == NewValue(f)
  {
    ZerosAreZero(Width(f));
  }

  lemma {:induction false} ZerosAreZero(n: nat)
    requires n > 0
    ensures Atoi(Repeated('0', n)) == 0 && Repeated('0', 3) == "000"
  {
    AtoiOfDigits(Repeated('0', n));
    ZeroDigits(n);
  }

  lemma {:induction false} ZeroDigits(n: nat)
    ensures ReadDigits(Repeated('0', n), 0) == 0
  {
    if n > 0 {
      ZeroDigits(n - 1);
      assert Repeated('0', n)[1..] == Repeated('0', n - 1);
    }
  }

  ghost predicate Regular(r: Record) {
    Slice(r, VersionHeader) == VERSION_HEADER && forall f :: IsChecked(f) ==> AllDigits(Slice(r, f))
  }

  lemma WrittenRegular(r: Record, op: Op)
    requires Regular(r) && InRange(op)
    ensures Regular(Written(r, op))
  {
    SetterSetsOneField(r, op, VersionHeader);
    forall f | IsChecked(f) ensures AllDigits(Slice(Written(r, op), f)) {
      SetterSetsOneField(r, op, f);
      if op.f == f {
        NumberReadsBack(f, op.v);
        PutInto(r, f, Padded(op.v, Width(f)), f);
      }
    }
  }

  lemma {:induction false} RunRegular(r: Record, ops: seq<Op>)
    requires Regular(r) && AllInRange(ops)
    ensures Regular(Run(r, ops))
  {
    if ops != [] {
      RunRegular(r, ops[..|ops| - 1]);
      WrittenRegular(Run(r, ops[..|ops| - 1]), ops[|ops| - 1]);
    }
  }

  /** After any run of setters in range on a new header, `SetHeader` accepts the record exactly when
      the message type set last is a known one. */
  lemma {:induction false} AcceptedAfterSetters(r: Record, ops: seq<Op>)
    requires IsInitial(r) && AllInRange(ops)
    ensures Accepts(Run(r, ops)) <==>
            exists c :: LastSet(ops, TipoMensaje, Letter('?')) == Letter(c) && c in "CMGNROLP"
  {
    assert Slice(r, TipoMensaje) == "?";
    GettersReturnLastSet(r, ops, TipoMensaje);
    RunRegular(r, ops);
    assert Read(Run(r, ops), TipoMensaje) == Letter(Run(r, ops)[0]);
  }
}
