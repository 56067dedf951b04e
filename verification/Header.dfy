/** The fixed-width header of 228 characters (gmheader.cc, gmheader.h:102-128): numbers and texts are
    printed into one record and parsed out of it. The setters and getters differ only in the field
    that they work on, which is a parameter here. */
module Header {
  import opened Common
  import opened Strings

  const RECORD: nat := 228

  datatype Field =
    | TipoMensaje | VersionHeader | IdUsuario | IdCliente | Key | IdGrupo | Funcion
    | IdTrans | IdCola | IdMoreData | SecuenciaConsulta | SecuenciaRespuesta
    | OrigenConsulta | OrigenRespuesta | IdOrigen | IdRouter | IdDestino | TimeStamp
    | CodigoRetorno | Crc | TamMensaje | IndiceMensaje | TamMaxMensaje | TamTotMensaje

  function Offset(f: Field): nat {
    match f
    case TipoMensaje => 0
    case VersionHeader => 1
    case IdUsuario => 4
    case IdCliente => 20
    case Key => 36
    case IdGrupo => 52
    case Funcion => 68
    case IdTrans => 100
    case IdCola => 105
    case IdMoreData => 110
    case SecuenciaConsulta => 115
    case SecuenciaRespuesta => 120
    case OrigenConsulta => 125
    case OrigenRespuesta => 126
    case IdOrigen => 127
    case IdRouter => 137
    case IdDestino => 147
    case TimeStamp => 157
    case CodigoRetorno => 167
    case Crc => 172
    case TamMensaje => 188
    case IndiceMensaje => 198
    case TamMaxMensaje => 208
    case TamTotMensaje => 218
  }

  predicate IsLetter(f: Field) {
    f.TipoMensaje? || f.OrigenConsulta? || f.OrigenRespuesta?
  }

  /** Texts that end at their first space. */
  predicate IsTrimmed(f: Field) {
    f.IdUsuario? || f.IdCliente? || f.IdGrupo? || f.Funcion?
  }

  predicate IsText(f: Field) {
    IsTrimmed(f) || f.Key? || f.Crc?
  }

  predicate IsNumber(f: Field) {
    !IsLetter(f) && !IsText(f)
  }

  predicate IsShort(f: Field) {
    f.IdTrans? || f.IdCola? || f.IdMoreData? || f.SecuenciaConsulta? || f.SecuenciaRespuesta? || f.CodigoRetorno?
  }

  function Width(f: Field): (w: nat)
    ensures w > 0 && Offset(f) + w <= RECORD
  {
    if IsLetter(f) then 1
    else if f.VersionHeader? then 3
    else if f.Funcion? then 32
    else if IsText(f) then 16
    else if IsShort(f) then 5
    else 10
  }

  /** Different fields do not overlap. */
  lemma Disjoint(f: Field, g: Field)
    ensures f == g || Offset(f) + Width(f) <= Offset(g) || Offset(g) + Width(g) <= Offset(f)
  {}

  type Record = r: string | |r| == RECORD witness seq(RECORD, _ => ' ')

  function Slice(r: Record, f: Field): (s: string)
    ensures |s| == Width(f)
  {
    r[Offset(f)..Offset(f) + Width(f)]
  }

  /** `memprint`: characters are written over the record from `at` on. */
  function Put(r: Record, at: nat, s: string): Record
    requires at + |s| <= RECORD
  {
    r[..at] + s + r[at + |s|..]
  }

  lemma PutElsewhere(r: Record, at: nat, s: string, b: nat, w: nat)
    requires at + |s| <= RECORD && b + w <= RECORD && (b + w <= at || at + |s| <= b)
    ensures Put(r, at, s)[b..b + w] == r[b..b + w]
  {
    var p := Put(r, at, s);
    assert forall i :: 0 <= i < at ==> p[i] == r[i];
    assert forall i :: at + |s| <= i < RECORD ==> p[i] == r[i];
  }

  lemma PutHere(r: Record, at: nat, s: string, w: nat)
    requires at + |s| <= RECORD && w <= |s|
    ensures Put(r, at, s)[at..at + w] == s[..w]
  {
    var p := Put(r, at, s);
    assert forall i :: 0 <= i < |s| ==> p[at + i] == s[i];
  }

  lemma PutInto(r: Record, f: Field, s: string, g: Field)
    requires |s| == Width(f)
    ensures Slice(Put(r, Offset(f), s), g) == if g == f then s else Slice(r, g)
  {
    if f == g {
      PutHere(r, Offset(f), s, Width(f));
      assert s[..Width(f)] == s;
    } else {
      Disjoint(f, g);
      PutElsewhere(r, Offset(f), s, Offset(g), Width(g));
    }
  }

  // ----- Reading -----

  /** A text ends at a NUL, and at a space too if `spaces`. */
  function Prefix(s: string, spaces: bool): string {
    if s == [] || s[0] == '\0' || (spaces && s[0] == ' ') then "" else [s[0]] + Prefix(s[1..], spaces)
  }

  const TWO32: int := 0x1_0000_0000
  const TWO64: int := 0x1_0000_0000_0000_0000

  /** The conversion to the getter's type. */
  function Wrapped(f: Field, v: int): int {
    if f.IdCola? then v
    else if f.TamMensaje? || f.IndiceMensaje? || f.TamMaxMensaje? || f.TamTotMensaje? then v % TWO64
    else v % TWO32
  }

  datatype Value = Letter(c: char) | Text(s: string) | Number(v: int)

  function Parse(f: Field, s: string): Value
    requires s != []
  {
    if IsLetter(f) then Letter(s[0])
    else if IsText(f) then Text(Prefix(s, IsTrimmed(f)))
    else Number(Wrapped(f, Atoi(s)))
  }

  /** The getters. */
  function Read(r: Record, f: Field): Value {
    Parse(f, Slice(r, f))
  }

  // ----- Writing -----

  datatype Op = SetLetter(f: Field, c: char) | SetText(f: Field, s: string) | SetNumber(f: Field, v: int)

  /** `%u` of an `int` takes a negative number for one of 32 bits. */
  function Unsigned(v: int): (u: nat)
    ensures v >= 0 ==> u == v
    ensures -TWO32 / 2 <= v < 0 ==> u >= TWO32 / 2
  {
    if v < 0 then v % TWO32 else v
  }

  /** The setters that exist; the one for the version is private and never called, and only the one for
      the queue takes a signed number. A number must not be so wide that it reaches beyond the record. */
  predicate Exists(op: Op) {
    match op
    case SetLetter(f, _) => IsLetter(f)
    case SetText(f, _) => IsText(f)
    case SetNumber(f, v) =>
      && IsNumber(f) && f != VersionHeader && (v >= 0 || (f.IdCola? && v >= -TWO32 / 2))
      && Offset(f) + |Padded(Unsigned(v), Width(f))| <= RECORD
  }

  /** `%-w.ws`, for a text that is not too long. */
  function Filled(s: string, w: nat): (r: string)
    requires |s| <= w
    ensures |r| == w
  {
    s + Repeated(' ', w - |s|)
  }

  function Encoded(op: Op): string {
    match op
    case SetLetter(_, c) => [c]
    case SetText(f, s) => if |s| > Width(f) then "" else Filled(s, Width(f))
    case SetNumber(f, v) => Padded(Unsigned(v), Width(f))
  }

  /** The setters; a text that is too long is refused. */
  function Written(r: Record, op: Op): Record
    requires Exists(op)
  {
    if Refused(op) then r else Put(r, Offset(op.f), Encoded(op))
  }

  /** What the getter should return after the setter. */
  function Meant(op: Op): Value {
    match op
    case SetLetter(_, c) => Letter(c)
    case SetText(f, s) => if |s| > Width(f) then Text("") else Text(Prefix(Filled(s, Width(f)), IsTrimmed(f)))
    case SetNumber(_, v) => Number(v)
  }

  /** The setter takes effect on its own field only. */
  ghost predicate InRange(op: Op) {
    Exists(op) && (op.SetNumber? ==> 0 <= op.v < Pow10(Width(op.f)) && op.v < Limit(op.f))
  }

  /** Numbers that the field's parser can return. */
  function Limit(f: Field): int {
    if f.IdOrigen? || f.IdRouter? || f.IdDestino? || f.TimeStamp? then TWO32 else TWO64
  }

  /** The setter refuses a text that is too long. */
  predicate Refused(op: Op) {
    op.SetText? && |op.s| > Width(op.f)
  }

  lemma Powers()
    ensures Pow10(3) == 1000 && Pow10(5) == 100000 && Pow10(10) == 10000000000
  {
    assert Pow10(1) == 10 && Pow10(2) == 100 && Pow10(4) == 10000;
    assert Pow10(6) == 1000000 && Pow10(7) == 10000000 && Pow10(8) == 100000000 && Pow10(9) == 1000000000;
  }

  lemma WrapSame(f: Field, v: nat)
    requires IsNumber(f) && v < Pow10(Width(f)) && v < Limit(f)
    ensures Wrapped(f, v) == v
  {
    Powers();
  }

  lemma {:induction false} NumberReadsBack(f: Field, v: nat)
    requires IsNumber(f) && v < Pow10(Width(f)) && v < Limit(f)
    ensures |Padded(v, Width(f))| == Width(f) && AllDigits(Padded(v, Width(f)))
    ensures Wrapped(f, Atoi(Padded(v, Width(f)))) == v
  {
    PaddedAtoi(v, Width(f));
    WrapSame(f, v);
  }

  lemma EncodedIsMeant(op: Op)
    requires InRange(op) && !Refused(op)
    ensures |Encoded(op)| == Width(op.f) && Parse(op.f, Encoded(op)) == Meant(op)
  {
    if op.SetNumber? {
      NumberReadsBack(op.f, op.v);
    }
  }

  /** After a setter its field has the new value and every other field the value it had. */
  lemma SetterSetsOneField(r: Record, op: Op, g: Field)
    requires InRange(op)
    ensures Read(Written(r, op), g) == if g == op.f && !Refused(op) then Meant(op) else Read(r, g)
    ensures g != op.f ==> Slice(Written(r, op), g) == Slice(r, g)
  {
    if !Refused(op) {
      EncodedIsMeant(op);
      PutInto(r, op.f, Encoded(op), g);
    }
  }

  lemma WrapBelow(f: Field, n: nat)
    ensures 0 <= Wrapped(f, n) <= n
  {}

  lemma WrapLong(f: Field, n: nat)
    requires IsNumber(f) && Limit(f) == TWO32
    ensures Wrapped(f, n) == n % TWO32
  {}

  lemma {:induction false} DigitsBelow(f: Field, s: string)
    requires IsNumber(f) && |s| == Width(f) && AllDigits(s)
    ensures 0 <= Wrapped(f, Atoi(s)) < Pow10(Width(f))
  {
    AtoiOfDigits(s);
    ReadBound(s);
    WrapBelow(f, ReadDigits(s, 0));
  }
}
