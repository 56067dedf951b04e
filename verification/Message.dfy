/** Messages (gmessage.cc): a header followed by data, sent as one string of characters; and the
    answer that is prepared from a request. */
module Message {
  import opened Common
  import opened Strings
  import opened Header
  import opened HeaderTheorems

  // ----- The answer to a request -----

  /** `TipoRespuesta`. */
  function AnswerType(c: char): char {
    if c == 'C' then 'R'
    else if c == 'M' then 'O'
    else if c == 'G' then 'L'
    else if c == 'N' then 'P'
    else '!'
  }

  const COPIED: nat := 19

  /** The fields that `SetResponse` sets, in order. */
  function FieldAt(k: nat): Field
    requires k < COPIED
  {
    match k
    case 0 => TipoMensaje
    case 1 => IdUsuario
    case 2 => IdCliente
    case 3 => IdGrupo
    case 4 => Funcion
    case 5 => IdTrans
    case 6 => IdCola
    case 7 => IdMoreData
    case 8 => SecuenciaConsulta
    case 9 => SecuenciaRespuesta
    case 10 => OrigenConsulta
    case 11 => OrigenRespuesta
    case 12 => IdOrigen
    case 13 => IdRouter
    case 14 => IdDestino
    case 15 => TimeStamp
    case 16 => IndiceMensaje
    case 17 => TamMaxMensaje
    case _ => CodigoRetorno
  }

  predicate IsKept(f: Field) {
    f.VersionHeader? || f.Key? || f.Crc? || f.TamMensaje? || f.TamTotMensaje?
  }

  function PlaceOf(f: Field): (k: nat)
    requires !IsKept(f)
    ensures k < COPIED && FieldAt(k) == f
  {
    match f
    case TipoMensaje => 0
    case IdUsuario => 1
    case IdCliente => 2
    case IdGrupo => 3
    case Funcion => 4
    case IdTrans => 5
    case IdCola => 6
    case IdMoreData => 7
    case SecuenciaConsulta => 8
    case SecuenciaRespuesta => 9
    case OrigenConsulta => 10
    case OrigenRespuesta => 11
    case IdOrigen => 12
    case IdRouter => 13
    case IdDestino => 14
    case TimeStamp => 15
    case IndiceMensaje => 16
    case TamMaxMensaje => 17
    case CodigoRetorno => 18
  }

  lemma FieldsDiffer(i: nat, j: nat)
    requires i < j < COPIED
    ensures FieldAt(i) != FieldAt(j) && !IsKept(FieldAt(i))
  {}

  /** The setter for field `f`, when the getter of the request returned `v`. */
  function AnswerOp(f: Field, v: Value): Op {
    match v
    case Letter(c) => SetLetter(f, if f.TipoMensaje? then AnswerType(c) else c)
    case Text(s) => SetText(f, s)
    case Number(n) =>
      SetNumber(f, if f.CodigoRetorno? then 0
                   else if f.SecuenciaRespuesta? then (n + 1) % TWO32
                   else if f.IdCola? then n % TWO32
                   else n % TWO64)
  }

  function AnswerOps(q: Record): (ops: seq<Op>)
    ensures |ops| == COPIED
  {
    seq(COPIED, k requires 0 <= k < COPIED => AnswerOp(FieldAt(k), Read(q, FieldAt(k))))
  }

  lemma MorePowers()
    ensures Pow10(20) > TWO64 && Pow10(10) > TWO32
  {
    Powers();
    assert Pow10(11) == 100000000000 && Pow10(12) == 1000000000000 && Pow10(13) == 10000000000000;
    assert Pow10(14) == 100000000000000 && Pow10(15) == 1000000000000000 && Pow10(16) == 10000000000000000;
    assert Pow10(17) == 100000000000000000 && Pow10(18) == 1000000000000000000 && Pow10(19) == 10000000000000000000;
  }

  lemma NumberHasRoom(f: Field)
    requires IsNumber(f) && f != VersionHeader
    ensures Width(f) <= 10 && Offset(f) + 10 <= RECORD
    ensures f.IndiceMensaje? || f.TamMaxMensaje? ==> Offset(f) + 20 <= RECORD
  {}

  lemma PrintedInside(f: Field, v: nat)
    requires IsNumber(f) && f != VersionHeader
    requires v < TWO32 || ((f.IndiceMensaje? || f.TamMaxMensaje?) && v < TWO64)
    ensures Exists(SetNumber(f, v))
  {
    MorePowers();
    NumberHasRoom(f);
    var m := if v < TWO32 then 10 else 20;
    PaddedAtMost(v, Width(f), m);
  }

  /** Whatever the request holds, no setter writes beyond the record. */
  lemma AnswerOpExists(q: Record, f: Field)
    requires !IsKept(f)
    ensures Exists(AnswerOp(f, Read(q, f))) && AnswerOp(f, Read(q, f)).f == f
  {
    if IsNumber(f) {
      var op := AnswerOp(f, Read(q, f));
      assert op.SetNumber?;
      PrintedInside(f, op.v);
    }
  }

  lemma AnswerOpsExist(q: Record)
    ensures AllExist(AnswerOps(q))
    ensures forall k :: 0 <= k < COPIED ==> AnswerOps(q)[k].f == FieldAt(k)
  {
    forall k | 0 <= k < COPIED ensures Exists(AnswerOps(q)[k]) && AnswerOps(q)[k].f == FieldAt(k) {
      if k < COPIED - 1 {
        FieldsDiffer(k, COPIED - 1);
      }
      AnswerOpExists(q, FieldAt(k));
    }
  }

  /** The header `r` after `SetResponse` to a request with the header `q`. */
  ghost function Answer(r: Record, q: Record): Record {
    AnswerOpsExist(q);
    Run(r, AnswerOps(q))
  }

  // ----- What the answer holds -----

  lemma {:induction false} LastSetAt(ops: seq<Op>, k: nat, before: Value)
    requires k < |ops| && !Refused(ops[k]) && forall j :: k < j < |ops| ==> ops[j].f != ops[k].f
    ensures LastSet(ops, ops[k].f, before) == Meant(ops[k])
    decreases |ops|
  {
    if k < |ops| - 1 {
      LastSetAt(ops[..|ops| - 1], k, before);
    }
  }

  lemma {:induction false} NeverSet(ops: seq<Op>, f: Field, before: Value)
    requires forall j :: 0 <= j < |ops| ==> ops[j].f != f
    ensures LastSet(ops, f, before) == before
  {
    if ops != [] {
      NeverSet(ops[..|ops| - 1], f, before);
    }
  }

  /** What the answer has in each field. The types of request C, M, G and N are answered by R, O, L and P. The count
      of answers is one more, except that the largest, 99999, spills its last digit into the next field and is
      read back as 10000. */
  function Intended(r: Record, q: Record, f: Field): Value {
    var v := Read(q, f);
    match f
    case VersionHeader => Read(r, f)
    case Key => Read(r, f)
    case Crc => Read(r, f)
    case TamMensaje => Read(r, f)
    case TamTotMensaje => Read(r, f)
    case TipoMensaje =>
      Letter(if q[0] == 'C' then 'R' else if q[0] == 'M' then 'O' else if q[0] == 'G' then 'L' else if q[0] == 'N' then 'P' else '!')
    case CodigoRetorno => Number(0)
    case SecuenciaRespuesta => if v.Number? then (if v.v < 99999 then Number(v.v + 1) else Number(10000)) else v
    case _ => v
  }

  function Expected(r: Record, q: Record, f: Field): Value {
    var v := Read(q, f);
    if IsKept(f) then Read(r, f)
    else if f.TipoMensaje? then Letter(AnswerType(q[0]))
    else if f.CodigoRetorno? then Number(0)
    else if f.SecuenciaRespuesta? && v.Number? then (if v.v < 99999 then Number(v.v + 1) else Number(10000))
    else v
  }

  lemma {:induction false} PrefixIsClean(s: string)
    ensures |Prefix(s, true)| <= |s| && ' ' !in Prefix(s, true) && '\0' !in Prefix(s, true)
  {
    if s != [] {
      PrefixIsClean(s[1..]);
    }
  }

  lemma NumberOfAccepted(q: Record, f: Field)
    requires Accepts(q) && IsChecked(f)
    ensures Read(q, f).Number? && 0 <= Read(q, f).v < Pow10(Width(f))
  {
    DigitsBelow(f, Slice(q, f));
  }

  lemma TextAnswer(q: Record, f: Field)
    requires IsTrimmed(f)
    ensures var op := SetText(f, Prefix(Slice(q, f), true));
            !Refused(op) && Meant(op) == Text(op.s)
  {
    var p := Prefix(Slice(q, f), true);
    PrefixIsClean(Slice(q, f));
    PrefixOfFilled(p, Width(f) - |p|);
  }

  lemma NumberInRange(q: Record, f: Field)
    requires Accepts(q) && !IsKept(f) && IsNumber(f)
    ensures Read(q, f).Number? && 0 <= Read(q, f).v < Pow10(Width(f)) && Read(q, f).v < Limit(f)
  {
    Powers();
    if f != TimeStamp {
      NumberOfAccepted(q, f);
    }
  }

  lemma NumberAnswer(q: Record, f: Field)
    requires Accepts(q) && !IsKept(f) && IsNumber(f)
    requires f.SecuenciaRespuesta? ==> Read(q, f).Number? && Read(q, f).v < 99999
    ensures var v := Read(q, f).v;
            AnswerOp(f, Read(q, f)) == SetNumber(f, if f.CodigoRetorno? then 0 else if f.SecuenciaRespuesta? then v + 1 else v)
    ensures var op := AnswerOp(f, Read(q, f)); op.v < Pow10(Width(f)) && op.v < Limit(f)
  {
    NumberInRange(q, f);
    Powers();
    var v := Read(q, f).v;
    assert v % TWO64 == v;
    assert f.IdCola? ==> v % TWO32 == v;
    assert f.SecuenciaRespuesta? ==> (v + 1) % TWO32 == v + 1;
  }

  lemma NumberOpInRange(r: Record, q: Record, f: Field)
    requires Accepts(q) && !IsKept(f) && IsNumber(f) && Exists(AnswerOp(f, Read(q, f)))
    requires f.SecuenciaRespuesta? ==> Read(q, f).Number? && Read(q, f).v < 99999
    ensures var op := AnswerOp(f, Read(q, f));
            InRange(op) && op.f == f && !Refused(op) && Meant(op) == Expected(r, q, f)
  {
    NumberAnswer(q, f);
  }

  /** A setter of the answer is in range and sets what is expected, but for the largest count. */
  lemma AnswerOpInRange(r: Record, q: Record, f: Field)
    requires Accepts(q) && !IsKept(f)
    requires f.SecuenciaRespuesta? ==> Read(q, f).Number? && Read(q, f).v < 99999
    ensures var op := AnswerOp(f, Read(q, f));
            InRange(op) && op.f == f && !Refused(op) && Meant(op) == Expected(r, q, f)
  {
    AnswerOpExists(q, f);
    if IsTrimmed(f) {
      TextAnswer(q, f);
    } else if IsNumber(f) {
      NumberOpInRange(r, q, f);
    }
  }

  /** The setters of the answer, with the count that is read back. */
  ghost function FittingOps(q: Record): (ops: seq<Op>)
    ensures |ops| == COPIED
  {
    var sec := Read(q, SecuenciaRespuesta);
    if sec.Number? && sec.v == 99999 then AnswerOps(q)[9 := SetNumber(SecuenciaRespuesta, 10000)] else AnswerOps(q)
  }

  lemma LargestCount(r: Record, q: Record)
    requires Accepts(q)
    ensures Read(q, SecuenciaRespuesta).Number? && 0 <= Read(q, SecuenciaRespuesta).v <= 99999
    ensures var op := SetNumber(SecuenciaRespuesta, 10000);
            InRange(op) && !Refused(op) && Meant(op) == Number(10000)
    ensures Read(q, SecuenciaRespuesta).v == 99999 ==> Expected(r, q, SecuenciaRespuesta) == Number(10000)
  {
    NumberOfAccepted(q, SecuenciaRespuesta);
    Powers();
    PrintedInside(SecuenciaRespuesta, 10000);
  }

  lemma CountIsNinth(k: nat)
    requires k < COPIED
    ensures FieldAt(k) == SecuenciaRespuesta <==> k == 9
    ensures !IsKept(FieldAt(k))
  {
    if k < 9 {
      FieldsDiffer(k, 9);
    } else if k > 9 {
      FieldsDiffer(9, k);
    }
  }

  lemma FittingOp(r: Record, q: Record, k: nat)
    requires Accepts(q) && k < COPIED
    ensures var op := FittingOps(q)[k];
            InRange(op) && op.f == FieldAt(k) && !Refused(op) && Meant(op) == Expected(r, q, FieldAt(k))
  {
    CountIsNinth(k);
    LargestCount(r, q);
    if k == 9 && Read(q, SecuenciaRespuesta).v == 99999 {
      assert FittingOps(q)[k] == SetNumber(SecuenciaRespuesta, 10000);
    } else {
      assert FittingOps(q)[k] == AnswerOp(FieldAt(k), Read(q, FieldAt(k)));
      AnswerOpInRange(r, q, FieldAt(k));
    }
  }

  lemma FittingInRange(q: Record)
    requires Accepts(q)
    ensures AllInRange(FittingOps(q))
    ensures forall k :: 0 <= k < COPIED ==> FittingOps(q)[k].f == FieldAt(k)
  {
    forall k | 0 <= k < COPIED ensures InRange(FittingOps(q)[k]) && FittingOps(q)[k].f == FieldAt(k) {
      FittingOp(q, q, k);
    }
  }

  lemma {:induction false} FittingRun(r: Record, q: Record, f: Field)
    requires Accepts(q)
    ensures AllInRange(FittingOps(q))
    ensures Read(Run(r, FittingOps(q)), f) == Expected(r, q, f)
  {
    var ops := FittingOps(q);
    FittingInRange(q);
    GettersReturnLastSet(r, ops, f);
    if IsKept(f) {
      forall j | 0 <= j < COPIED ensures ops[j].f != f {
        if j < COPIED - 1 {
          FieldsDiffer(j, COPIED - 1);
        }
      }
      NeverSet(ops, f, Read(r, f));
    } else {
      var k := PlaceOf(f);
      FittingOp(r, q, k);
      forall j | k < j < COPIED ensures ops[j].f != ops[k].f {
        FieldsDiffer(k, j);
      }
      LastSetAt(ops, k, Read(r, f));
    }
  }

  lemma AllExistInTwo(a: seq<Op>, b: seq<Op>)
    ensures AllExist(a + b) <==> AllExist(a) && AllExist(b)
  {
    assert forall i :: 0 <= i < |a| ==> (a + b)[i] == a[i];
    assert forall i :: 0 <= i < |b| ==> (a + b)[|a| + i] == b[i];
  }

  lemma {:induction false} RunOneMore(r: Record, ops: seq<Op>, op: Op)
    requires AllExist(ops) && Exists(op) && AllExist(ops + [op])
    ensures Run(r, ops + [op]) == Written(Run(r, ops), op)
  {
    assert (ops + [op])[..|ops|] == ops;
  }

  lemma {:induction false} RunInTwo(r: Record, a: seq<Op>, b: seq<Op>)
    requires AllExist(a) && AllExist(b)
    ensures AllExist(a + b) && Run(r, a + b) == Run(Run(r, a), b)
    decreases |b|
  {
    AllExistInTwo(a, b);
    if b == [] {
      assert a + b == a;
    } else {
      var init, last := b[..|b| - 1], b[|b| - 1];
      assert b == init + [last] && a + b == (a + init) + [last];
      AllExistInTwo(init, [last]);
      AllExistInTwo(a, init);
      assert Exists([last][0]);
      RunInTwo(r, a, init);
      RunOneMore(r, a + init, last);
      RunOneMore(Run(r, a), init, last);
    }
  }

  lemma PutOver(r: Record, at: nat, s: string, extra: char, c: char)
    requires at + |s| + 1 <= RECORD
    ensures Put(Put(r, at, s + [extra]), at + |s|, [c]) == Put(Put(r, at, s), at + |s|, [c])
  {
    var all := r[..at] + s + [c] + r[at + |s| + 1..];
    assert Put(Put(r, at, s + [extra]), at + |s|, [c]) == all;
    assert Put(Put(r, at, s), at + |s|, [c]) == all;
  }

  /** The digit that spills is overwritten by the setter that follows. */
  lemma SpilledDigit(r: Record, c: char)
    requires Exists(SetNumber(SecuenciaRespuesta, 100000)) && Exists(SetNumber(SecuenciaRespuesta, 10000))
    ensures Written(Written(r, SetNumber(SecuenciaRespuesta, 100000)), SetLetter(OrigenConsulta, c)) ==
            Written(Written(r, SetNumber(SecuenciaRespuesta, 10000)), SetLetter(OrigenConsulta, c))
  {
    PrintedSpill();
    SpillOverwritten(r, 100000, 10000, "10000", '0', c);
  }

  lemma {:induction false} SpillOverwritten(r: Record, wide: nat, narrow: nat, s: string, extra: char, c: char)
    requires Exists(SetNumber(SecuenciaRespuesta, wide)) && Exists(SetNumber(SecuenciaRespuesta, narrow))
    requires Padded(narrow, 5) == s && Padded(wide, 5) == s + [extra] && |s| == 5
    ensures Written(Written(r, SetNumber(SecuenciaRespuesta, wide)), SetLetter(OrigenConsulta, c)) ==
            Written(Written(r, SetNumber(SecuenciaRespuesta, narrow)), SetLetter(OrigenConsulta, c))
  {
    var at := Offset(SecuenciaRespuesta);
    PutOver(r, at, s, extra, c);
    assert Written(r, SetNumber(SecuenciaRespuesta, wide)) == Put(r, at, s + [extra]);
    assert Written(r, SetNumber(SecuenciaRespuesta, narrow)) == Put(r, at, s);
    assert Offset(OrigenConsulta) == at + |s|;
  }

  /** Two runs that differ in one setter, made good by the next one. */
  lemma {:induction false} SameAfterNext(r: Record, before: seq<Op>, a: Op, b: Op, next: Op, rest: seq<Op>)
    requires AllExist(before) && AllExist(rest) && Exists(a) && Exists(b) && Exists(next)
    requires forall x: Record :: Written(Written(x, a), next) == Written(Written(x, b), next)
    ensures AllExist(before + ([a, next] + rest)) && AllExist(before + ([b, next] + rest))
    ensures Run(r, before + ([a, next] + rest)) == Run(r, before + ([b, next] + rest))
  {
    TwoInside(r, before, a, next, rest);
    TwoInside(r, before, b, next, rest);
  }

  lemma {:induction false} TwoInside(r: Record, before: seq<Op>, a: Op, b: Op, rest: seq<Op>)
    requires AllExist(before) && AllExist(rest) && Exists(a) && Exists(b)
    ensures AllExist(before + ([a, b] + rest))
    ensures Run(r, before + ([a, b] + rest)) == Run(Written(Written(Run(r, before), a), b), rest)
  {
    var x := Run(r, before);
    RunInTwo(r, before, [a, b] + rest);
    RunInTwo(x, [a, b], rest);
    RunOfTwo(x, a, b);
  }

  lemma CutAtNine(ops: seq<Op>)
    requires |ops| == COPIED
    ensures ops == ops[..9] + ([ops[9], ops[10]] + ops[11..])
  {}

  lemma SpillMadeGood(r: Record, ops: seq<Op>)
    requires |ops| == COPIED && AllExist(ops) && Exists(SetNumber(SecuenciaRespuesta, 10000))
    requires ops[9] == SetNumber(SecuenciaRespuesta, 100000) && ops[10].SetLetter? && ops[10].f == OrigenConsulta
    ensures var fit := ops[9 := SetNumber(SecuenciaRespuesta, 10000)];
            AllExist(fit) && Run(r, ops) == Run(r, fit)
  {
    var fit := ops[9 := SetNumber(SecuenciaRespuesta, 10000)];
    forall x: Record ensures Written(Written(x, ops[9]), ops[10]) == Written(Written(x, fit[9]), ops[10]) {
      SpilledDigit(x, ops[10].c);
    }
    CutAtNine(ops);
    CutAtNine(fit);
    assert fit[..9] == ops[..9] && fit[11..] == ops[11..];
    SameAfterNext(r, ops[..9], ops[9], fit[9], ops[10], ops[11..]);
  }

  lemma {:induction false} AnswerIsFitting(r: Record, q: Record)
    requires Accepts(q)
    ensures AllExist(FittingOps(q)) && Answer(r, q) == Run(r, FittingOps(q))
  {
    AnswerOpsExist(q);
    LargestCount(r, q);
    if Read(q, SecuenciaRespuesta).v == 99999 {
      NextToCount(q);
      assert FittingOps(q) == AnswerOps(q)[9 := SetNumber(SecuenciaRespuesta, 10000)];
      SpillMadeGood(r, AnswerOps(q));
    } else {
      assert FittingOps(q) == AnswerOps(q);
    }
  }

  lemma NextToCount(q: Record)
    requires Accepts(q)
    ensures AnswerOps(q)[9].SetNumber? && AnswerOps(q)[10].SetLetter?
    ensures Read(q, SecuenciaRespuesta).v == 99999 ==> AnswerOps(q)[9] == SetNumber(SecuenciaRespuesta, 100000)
    ensures AnswerOps(q)[10].f == OrigenConsulta
  {}

  lemma {:induction false} RunOfTwo(r: Record, a: Op, b: Op)
    requires Exists(a) && Exists(b)
    ensures Run(r, [a, b]) == Written(Written(r, a), b)
  {
    assert [a, b][..1] == [a] && [a][..0] == [];
    assert Run(r, [a]) == Written(r, a);
  }

  lemma ExpectedIsIntended(r: Record, q: Record, f: Field)
    ensures Expected(r, q, f) == Intended(r, q, f)
  {}

  /** An answer to an accepted request holds, in every field, what is intended. */
  lemma AnswerHolds(r: Record, q: Record, f: Field)
    requires Accepts(q)
    ensures Read(Answer(r, q), f) == Intended(r, q, f)
  {
    ExpectedIsIntended(r, q, f);
    AnswerIsFitting(r, q);
    FittingRun(r, q, f);
  }

  /** An answer prepared in a header of the right form is accepted exactly when it answers a request,
      not another answer. */
  lemma AnswerAccepted(r: Record, q: Record)
    requires Accepts(q) && Regular(r)
    ensures Accepts(Answer(r, q)) <==> q[0] == 'C' || q[0] == 'M' || q[0] == 'G' || q[0] == 'N'
  {
    AnswerIsFitting(r, q);
    FittingRun(r, q, TipoMensaje);
    RunRegular(r, FittingOps(q));
    assert Read(Answer(r, q), TipoMensaje) == Letter(Answer(r, q)[0]);
  }

  /** The count of answers grows by one exactly when it is less than 99999. */
  lemma AnswerCounts(r: Record, q: Record)
    requires Accepts(q)
    ensures Read(q, SecuenciaRespuesta).Number? && 0 <= Read(q, SecuenciaRespuesta).v <= 99999
    ensures Read(Answer(r, q), SecuenciaRespuesta) == Number(Read(q, SecuenciaRespuesta).v + 1) <==>
            Read(q, SecuenciaRespuesta).v < 99999
  {
    NumberOfAccepted(q, SecuenciaRespuesta);
    Powers();
    AnswerHolds(r, q, SecuenciaRespuesta);
  }

  /** A new header, made a request with the largest count. */
  lemma LargestRequest(r: Record) returns (q: Record)
    requires IsInitial(r)
    ensures Accepts(q) && Read(q, SecuenciaRespuesta) == Number(99999)
  {
    var a, b := SetLetter(TipoMensaje, 'C'), SetNumber(SecuenciaRespuesta, 99999);
    q := Written(Written(r, a), b);
    LargestRequestFields(r, a, b);
    assert Regular(r);
    WrittenRegular(r, a);
    WrittenRegular(Written(r, a), b);
  }

  lemma LargestRequestFields(r: Record, a: Op, b: Op)
    requires InRange(a) && InRange(b) && a == SetLetter(TipoMensaje, 'C') && b == SetNumber(SecuenciaRespuesta, 99999)
    ensures var q := Written(Written(r, a), b);
            q[0] == 'C' && Read(q, SecuenciaRespuesta) == Number(99999)
  {
    var mid := Written(r, a);
    var q := Written(mid, b);
    SetterSetsOneField(r, a, TipoMensaje);
    SetterSetsOneField(mid, b, TipoMensaje);
    SetterSetsOneField(mid, b, SecuenciaRespuesta);
    assert Read(q, TipoMensaje) == Letter(q[0]);
  }

  /** The count of the answer to a request that carries 99999 is read back as 10000. */
  lemma LargestCountWraps(r: Record)
    requires IsInitial(r)
    ensures exists q :: Accepts(q) && Read(q, SecuenciaRespuesta) == Number(99999) &&
                        Read(Answer(r, q), SecuenciaRespuesta) == Number(10000)
  {
    var q := LargestRequest(r);
    AnswerHolds(r, q, SecuenciaRespuesta);
  }

  // ----- Messages on the wire -----

  function HeaderOf(wire: string): Record
    requires |wire| >= RECORD
  {
    wire[..RECORD]
  }

  function DataOf(wire: string): string
    requires |wire| >= RECORD
  {
    wire[RECORD..]
  }

  // ----- The header object -----

  const FIELDS: nat := 24

  /** The fields in the order of the record. */
  function FieldInOrder(k: nat): Field
    requires k < FIELDS
  {
    match k
    case 0 => TipoMensaje
    case 1 => VersionHeader
    case 2 => IdUsuario
    case 3 => IdCliente
    case 4 => Key
    case 5 => IdGrupo
    case 6 => Funcion
    case 7 => IdTrans
    case 8 => IdCola
    case 9 => IdMoreData
    case 10 => SecuenciaConsulta
    case 11 => SecuenciaRespuesta
    case 12 => OrigenConsulta
    case 13 => OrigenRespuesta
    case 14 => IdOrigen
    case 15 => IdRouter
    case 16 => IdDestino
    case 17 => TimeStamp
    case 18 => CodigoRetorno
    case 19 => Crc
    case 20 => TamMensaje
    case 21 => IndiceMensaje
    case 22 => TamMaxMensaje
    case _ => TamTotMensaje
  }

  /** The fields lie side by side in this order and fill the record. */
  lemma FieldsFillRecord(k: nat)
    requires k < FIELDS
    ensures Offset(FieldInOrder(0)) == 0
    ensures Offset(FieldInOrder(k)) + Width(FieldInOrder(k)) ==
            if k == FIELDS - 1 then RECORD else Offset(FieldInOrder(k + 1))
  {}

  /** How wide the parts of a record are, one after the other. */
  const WIDTHS: seq<nat> := [1, 3, 16, 16, 16, 16, 32] + [5, 5, 5, 5, 5, 1, 1] + [10, 10, 10, 10, 5, 16] + [10, 10, 10, 10]

  function Joined(parts: seq<string>): string {
    if parts == [] then "" else parts[0] + Joined(parts[1..])
  }

  lemma {:induction false} JoinedInTwo(a: seq<string>, b: seq<string>)
    ensures Joined(a + b) == Joined(a) + Joined(b)
  {
    if a == [] {
      assert a + b == b;
    } else {
      assert (a + b)[0] == a[0] && (a + b)[1..] == a[1..] + b;
      JoinedInTwo(a[1..], b);
    }
  }

  ghost predicate HaveWidths(parts: seq<string>) {
    |parts| == 24 == |WIDTHS| && forall k :: 0 <= k < 24 ==> |parts[k]| == WIDTHS[k]
  }

  lemma WidthsOfFields(k: nat)
    requires k < FIELDS
    ensures |WIDTHS| == FIELDS && WIDTHS[k] == Width(FieldInOrder(k))
  {
    if k < 7 {} else if k < 14 {} else if k < 20 {} else {}
  }

  lemma {:induction false} StartOfPart(parts: seq<string>, k: nat)
    requires HaveWidths(parts) && k <= 24
    ensures |Joined(parts[..k])| == if k < 24 then Offset(FieldInOrder(k)) else RECORD
  {
    if k == 0 {
      FieldsFillRecord(0);
    } else {
      StartOfPart(parts, k - 1);
      FieldsFillRecord(k - 1);
      WidthsOfFields(k - 1);
      assert parts[..k] == parts[..k - 1] + [parts[k - 1]];
      JoinedInTwo(parts[..k - 1], [parts[k - 1]]);
      assert [parts[k - 1]][1..] == [];
    }
  }

  lemma {:induction false} PartIsField(parts: seq<string>, k: nat)
    requires HaveWidths(parts) && k < 24
    ensures |Joined(parts)| == RECORD && Slice(Joined(parts), FieldInOrder(k)) == parts[k]
  {
    StartOfPart(parts, k);
    StartOfPart(parts, 24);
    WidthsOfFields(k);
    assert parts[..24] == parts;
    JoinedAround(parts, k);
    Middle(Joined(parts[..k]), parts[k], Joined(parts[k + 1..]));
  }

  lemma {:induction false} JoinedAround(parts: seq<string>, k: nat)
    requires k < |parts|
    ensures Joined(parts) == Joined(parts[..k]) + (parts[k] + Joined(parts[k + 1..]))
  {
    assert parts == parts[..k] + ([parts[k]] + parts[k + 1..]);
    JoinedInTwo(parts[..k], [parts[k]] + parts[k + 1..]);
    assert ([parts[k]] + parts[k + 1..])[1..] == parts[k + 1..];
  }

  lemma Middle(a: string, b: string, c: string)
    ensures (a + (b + c))[|a|..|a| + |b|] == b
  {}

  /** A record is read part by part: texts and numbers one after the other, in this order and with these widths. */
  lemma {:induction false} RecordInParts(p: seq<string>)
    requires HaveWidths(p)
    ensures |Joined(p)| == 228
    ensures var r := Joined(p);
            && Slice(r, TipoMensaje) == p[0] && Slice(r, VersionHeader) == p[1] && Slice(r, IdUsuario) == p[2]
            && Slice(r, IdCliente) == p[3] && Slice(r, Key) == p[4] && Slice(r, IdGrupo) == p[5] && Slice(r, Funcion) == p[6]
            && Slice(r, IdTrans) == p[7] && Slice(r, IdCola) == p[8] && Slice(r, IdMoreData) == p[9]
            && Slice(r, SecuenciaConsulta) == p[10] && Slice(r, SecuenciaRespuesta) == p[11]
            && Slice(r, OrigenConsulta) == p[12] && Slice(r, OrigenRespuesta) == p[13]
            && Slice(r, IdOrigen) == p[14] && Slice(r, IdRouter) == p[15] && Slice(r, IdDestino) == p[16]
            && Slice(r, TimeStamp) == p[17] && Slice(r, CodigoRetorno) == p[18] && Slice(r, Crc) == p[19]
            && Slice(r, TamMensaje) == p[20] && Slice(r, IndiceMensaje) == p[21]
            && Slice(r, TamMaxMensaje) == p[22] && Slice(r, TamTotMensaje) == p[23]
  {
    forall k | 0 <= k < 24 ensures |Joined(p)| == RECORD && Slice(Joined(p), FieldInOrder(k)) == p[k] {
      PartIsField(p, k);
    }
    FieldPlaces();
    MoreFieldPlaces();
  }

  /** A record is accepted exactly with this version, one of these types, and digits in all the numbers but the time
      stamp. */
  lemma {:induction false} AcceptedInParts(p: seq<string>)
    requires HaveWidths(p)
    ensures |Joined(p)| == 228 && |p[0]| == 1
    ensures Accepts(Joined(p)) <==>
              && p[1] == "000" && p[0][0] in "CMGNROLP"
              && AllDigits(p[7]) && AllDigits(p[8]) && AllDigits(p[9]) && AllDigits(p[10]) && AllDigits(p[11])
              && AllDigits(p[14]) && AllDigits(p[15]) && AllDigits(p[16]) && AllDigits(p[18])
              && AllDigits(p[20]) && AllDigits(p[21]) && AllDigits(p[22]) && AllDigits(p[23])
  {
    RecordInParts(p);
    WidthsOfFields(0);
    CheckedFields(Joined(p));
    assert Joined(p)[0] == Slice(Joined(p), TipoMensaje)[0];
  }

  lemma CheckedFields(r: Record)
    ensures (forall f :: IsChecked(f) ==> AllDigits(Slice(r, f))) <==>
              && AllDigits(Slice(r, IdTrans)) && AllDigits(Slice(r, IdCola)) && AllDigits(Slice(r, IdMoreData))
              && AllDigits(Slice(r, SecuenciaConsulta)) && AllDigits(Slice(r, SecuenciaRespuesta))
              && AllDigits(Slice(r, IdOrigen)) && AllDigits(Slice(r, IdRouter)) && AllDigits(Slice(r, IdDestino))
              && AllDigits(Slice(r, CodigoRetorno)) && AllDigits(Slice(r, TamMensaje)) && AllDigits(Slice(r, IndiceMensaje))
              && AllDigits(Slice(r, TamMaxMensaje)) && AllDigits(Slice(r, TamTotMensaje))
  {}

  lemma FieldPlaces()
    ensures FieldInOrder(0) == TipoMensaje && FieldInOrder(1) == VersionHeader && FieldInOrder(2) == IdUsuario
    ensures FieldInOrder(3) == IdCliente && FieldInOrder(4) == Key && FieldInOrder(5) == IdGrupo && FieldInOrder(6) == Funcion
    ensures FieldInOrder(7) == IdTrans && FieldInOrder(8) == IdCola && FieldInOrder(9) == IdMoreData
    ensures FieldInOrder(10) == SecuenciaConsulta && FieldInOrder(11) == SecuenciaRespuesta
  {}

  lemma MoreFieldPlaces()
    ensures FieldInOrder(12) == OrigenConsulta && FieldInOrder(13) == OrigenRespuesta
    ensures FieldInOrder(14) == IdOrigen && FieldInOrder(15) == IdRouter && FieldInOrder(16) == IdDestino
    ensures FieldInOrder(17) == TimeStamp && FieldInOrder(18) == CodigoRetorno && FieldInOrder(19) == Crc
    ensures FieldInOrder(20) == TamMensaje && FieldInOrder(21) == IndiceMensaje
    ensures FieldInOrder(22) == TamMaxMensaje && FieldInOrder(23) == TamTotMensaje
  {}

  lemma EveryFieldInOrder(f: Field) returns (k: nat)
    ensures k < FIELDS && FieldInOrder(k) == f
  {
    match f
    case TipoMensaje => k := 0;
    case VersionHeader => k := 1;
    case IdUsuario => k := 2;
    case IdCliente => k := 3;
    case Key => k := 4;
    case IdGrupo => k := 5;
    case Funcion => k := 6;
    case IdTrans => k := 7;
    case IdCola => k := 8;
    case IdMoreData => k := 9;
    case SecuenciaConsulta => k := 10;
    case SecuenciaRespuesta => k := 11;
    case OrigenConsulta => k := 12;
    case OrigenRespuesta => k := 13;
    case IdOrigen => k := 14;
    case IdRouter => k := 15;
    case IdDestino => k := 16;
    case TimeStamp => k := 17;
    case CodigoRetorno => k := 18;
    case Crc => k := 19;
    case TamMensaje => k := 20;
    case IndiceMensaje => k := 21;
    case TamMaxMensaje => k := 22;
    case TamTotMensaje => k := 23;
  }

  /** The checked numbers among the first `k` fields have only digits. */
  ghost predicate CheckedUpTo(r: Record, k: nat)
    requires k <= FIELDS
  {
    forall j :: 7 <= j < k && IsChecked(FieldInOrder(j)) ==> AllDigits(Slice(r, FieldInOrder(j)))
  }

  lemma CheckedNext(r: Record, k: nat)
    requires 7 <= k < FIELDS
    ensures var fits := IsChecked(FieldInOrder(k)) ==> AllDigits(Slice(r, FieldInOrder(k)));
            && (CheckedUpTo(r, k + 1) <==> CheckedUpTo(r, k) && fits)
            && (CheckedUpTo(r, FIELDS) ==> fits)
  {}

  lemma AllChecked(r: Record)
    ensures CheckedUpTo(r, FIELDS) <==> forall f :: IsChecked(f) ==> AllDigits(Slice(r, f))
  {
    if CheckedUpTo(r, FIELDS) {
      forall f | IsChecked(f) ensures AllDigits(Slice(r, f)) {
        var k := EveryFieldInOrder(f);
      }
    }
  }

  lemma {:induction false} PrefixUpTo(s: string, spaces: bool, i: nat)
    requires i <= |s| && forall j :: 0 <= j < i ==> s[j] != '\0' && !(spaces && s[j] == ' ')
    requires i < |s| ==> s[i] == '\0' || (spaces && s[i] == ' ')
    ensures Prefix(s, spaces) == s[..i]
    decreases i
  {
    if i > 0 {
      PrefixUpTo(s[1..], spaces, i - 1);
      assert s[..i] == [s[0]] + s[1..][..i - 1];
    }
  }

  method CutText(s: string, spaces: bool) returns (text: string)
    ensures text == Prefix(s, spaces)
  {
    var i := 0;
    while i < |s| && s[i] != '\0' && !(spaces && s[i] == ' ')
      invariant i <= |s| && forall j :: 0 <= j < i ==> s[j] != '\0' && !(spaces && s[j] == ' ')
    {
      i := i + 1;
    }
    PrefixUpTo(s, spaces, i);
    return s[..i];
  }

  class CGMHeader {
    const bytes: array<char>

    ghost predicate Valid() {
      bytes.Length == RECORD
    }

    ghost function Rec(): Record
      requires Valid()
      reads bytes
    {
      bytes[..]
    }

    /** Every field gets its filling character, the version its digits. */
    constructor ()
      ensures Valid() && fresh(bytes) && IsInitial(Rec())
    {
      bytes := new char[RECORD];
      new;
      for k := 0 to FIELDS
        invariant forall j :: 0 <= j < k ==> Slice(Rec(), FieldInOrder(j)) == Default(FieldInOrder(j))
      {
        var f := FieldInOrder(k);
        ghost var before := Rec();
        Memprint(Offset(f), Default(f));
        forall j | 0 <= j <= k ensures Slice(Rec(), FieldInOrder(j)) == Default(FieldInOrder(j)) {
          PutInto(before, f, Default(f), FieldInOrder(j));
        }
      }
      forall f ensures Slice(Rec(), f) == Default(f) {
        var k := EveryFieldInOrder(f);
      }
    }

    method Memprint(at: nat, s: string)
      requires Valid() && at + |s| <= RECORD
      modifies bytes
      ensures Rec() == Put(old(Rec()), at, s)
    {
      for i := 0 to |s|
        invariant bytes[..] == old(bytes[..])[..at] + s[..i] + old(bytes[..])[at + i..]
      {
        bytes[at + i] := s[i];
      }
    }

    /** The setters. */
    method Set(op: Op) returns (rc: int)
      requires Valid() && Exists(op)
      modifies bytes
      ensures Rec() == Written(old(Rec()), op)
      ensures rc == if Refused(op) then -1 else 0
    {
      rc := 0;
      match op
      case SetLetter(f, c) => Memprint(Offset(f), [c]);
      case SetText(f, s) =>
        if |s| < Width(f) + 1 {
          Memprint(Offset(f), Filled(s, Width(f)));
        } else {
          rc := -1;
        }
      case SetNumber(f, v) => Memprint(Offset(f), Padded(Unsigned(v), Width(f)));
    }

    /** The getters; a text is cut at its first space, if it is a trimmed one, or NUL. */
    method Get(f: Field) returns (v: Value)
      requires Valid()
      ensures v == Read(Rec(), f)
    {
      var s := bytes[Offset(f)..Offset(f) + Width(f)];
      assert s == Slice(Rec(), f);
      if IsLetter(f) {
        return Letter(s[0]);
      } else if IsText(f) {
        var text := CutText(s, IsTrimmed(f));
        return Text(text);
      } else {
        return Number(Wrapped(f, Atoi(s)));
      }
    }

    method HasOnlyDigits(f: Field) returns (ok: bool)
      requires Valid()
      ensures ok <==> AllDigits(Slice(Rec(), f))
    {
      ghost var s := Slice(Rec(), f);
      for i := 0 to Width(f)
        invariant forall j :: 0 <= j < i ==> IsDigit(s[j])
      {
        assert bytes[Offset(f) + i] == s[i];
        if bytes[Offset(f) + i] < '0' || bytes[Offset(f) + i] > '9' {
          return false;
        }
      }
      return true;
    }

    /** The record is copied first and then checked; a wrong one stays in the object. */
    method SetHeader(msg: string) returns (rc: int)
      requires Valid()
      modifies bytes
      ensures |msg| < RECORD ==> rc == -1 && Rec() == old(Rec())
      ensures |msg| >= RECORD ==> Rec() == HeaderOf(msg) && rc == if Accepts(Rec()) then 0 else -1
    {
      if |msg| < RECORD {
        return -1;
      }
      Memprint(0, msg[..RECORD]);
      rc := Check();
    }

    method Check() returns (rc: int)
      requires Valid()
      ensures rc == if Accepts(Rec()) then 0 else -1
    {
      var version := bytes[1..4];
      assert version == Slice(Rec(), VersionHeader);
      if version != VERSION_HEADER {
        return -1;
      }
      if !IsKnownType(bytes[0]) {
        return -1;
      }
      var ok := CheckNumbers();
      AllChecked(Rec());
      return if ok then 0 else -1;
    }

    method CheckNumbers() returns (ok: bool)
      requires Valid()
      ensures ok <==> CheckedUpTo(Rec(), FIELDS)
    {
      for k := 7 to FIELDS
        invariant CheckedUpTo(Rec(), k)
      {
        CheckedNext(Rec(), k);
        if IsChecked(FieldInOrder(k)) {
          ok := HasOnlyDigits(FieldInOrder(k));
          if !ok {
            return;
          }
        }
      }
      return true;
    }
  }

  // ----- The message object -----

  class CGMessage {
    const header: CGMHeader
    var buffer: array<char>
    var len: nat

    ghost predicate Valid()
      reads this
    {
      header.Valid() && buffer != header.bytes && buffer.Length == len && len >= RECORD
    }

    ghost function Data(): string
      requires Valid()
      reads this, buffer
    {
      buffer[RECORD..]
    }

    constructor ()
      ensures Valid() && fresh(header) && fresh(header.bytes) && fresh(buffer)
      ensures IsInitial(header.Rec()) && Data() == ""
    {
      header := new CGMHeader();
      buffer := new char[RECORD];
      len := RECORD;
    }

    /** The whole message: the header is copied in front of the data. */
    method GetMsg() returns (msg: string)
      requires Valid()
      modifies buffer
      ensures Valid() && header.Rec() == old(header.Rec()) && Data() == old(Data())
      ensures |msg| == len && HeaderOf(msg) == header.Rec() && DataOf(msg) == Data()
    {
      for i := 0 to RECORD
        invariant header.Rec() == old(header.Rec())
        invariant buffer[..i] == header.Rec()[..i] && buffer[i..] == old(buffer[..])[i..]
      {
        buffer[i] := header.bytes[i];
      }
      msg := buffer[..];
    }

    /** Takes over a whole message. What `SetHeader` says about the header is not passed on. */
    method SetMsg(msg: Option<string>) returns (rc: int)
      requires Valid()
      modifies this, header.bytes
      ensures Valid() && rc == (if msg.Some? && |msg.value| >= RECORD then 0 else -1)
      ensures rc == 0 ==> fresh(buffer) && header.Rec() == HeaderOf(msg.value) && Data() == DataOf(msg.value)
      ensures rc != 0 ==> buffer == old(buffer) && header.Rec() == old(header.Rec()) && Data() == old(Data())
    {
      if msg.None? || |msg.value| == 0 {
        return -1;
      }
      if |msg.value| < RECORD {
        return -1;
      }
      var s := msg.value;
      buffer := new char[|s|](i requires 0 <= i < |s| => s[i]);
      len := |s|;
      assert buffer[..] == s;
      var _ := header.SetHeader(s);
      return 0;
    }

    /** Replaces the data and notes its length; empty data is refused. */
    method SetData(data: Option<string>) returns (rc: int)
      requires Valid() && (data.Some? ==> Exists(SetNumber(TamMensaje, |data.value|)))
      modifies this, header.bytes
      ensures Valid() && rc == (if data.Some? && data.value != "" then 0 else -1)
      ensures rc == 0 ==>
                && fresh(buffer) && Data() == data.value
                && header.Rec() == Written(Written(old(header.Rec()), SetText(Crc, NULL_CRC)), SetNumber(TamMensaje, |data.value|))
      ensures rc != 0 ==> buffer == old(buffer) && header.Rec() == old(header.Rec()) && Data() == old(Data())
    {
      if data.None? || |data.value| == 0 {
        return -1;
      }
      var s := data.value;
      buffer := new char[RECORD + |s|](i => if 0 <= i - RECORD < |s| then s[i - RECORD] else '\0');
      len := RECORD + |s|;
      assert buffer[RECORD..] == s;
      var _ := header.Set(SetText(Crc, NULL_CRC));
      var _ := header.Set(SetNumber(TamMensaje, |s|));
      assert buffer[RECORD..] == s;
      return 0;
    }

    /** Prepares the answer to the request `msg`. */
    method SetResponse(msg: CGMessage?) returns (rc: int)
      requires Valid() && (msg != null ==> msg.Valid() && msg.header.bytes != header.bytes)
      modifies header.bytes
      ensures Valid() && rc == if msg == null then -1 else 0
      ensures msg == null ==> header.Rec() == old(header.Rec())
      ensures msg != null ==> header.Rec() == Answer(old(header.Rec()), old(msg.header.Rec()))
    {
      if msg == null {
        return -1;
      }
      ghost var r, q := header.Rec(), msg.header.Rec();
      for k := 0 to COPIED
        invariant msg.header.Rec() == q && Answered(r, q, k, header.Rec())
      {
        AnswerNext(r, q, k, header.Rec());
        var v := msg.header.Get(FieldAt(k));
        var _ := header.Set(AnswerOp(FieldAt(k), v));
      }
      AnswerEnds(r, q, header.Rec());
      return 0;
    }
  }

  /** `now` is the header after the first `k` setters of the answer. */
  ghost predicate Answered(r: Record, q: Record, k: nat, now: Record)
    requires k <= COPIED
  {
    AllExist(AnswerOps(q)[..k]) && now == Run(r, AnswerOps(q)[..k])
  }

  lemma AnswerNext(r: Record, q: Record, k: nat, now: Record)
    requires k < COPIED && Answered(r, q, k, now)
    ensures var op := AnswerOp(FieldAt(k), Read(q, FieldAt(k)));
            Exists(op) && Answered(r, q, k + 1, Written(now, op))
  {
    AnswerOpsExist(q);
    RunNext(r, AnswerOps(q), k);
    assert AnswerOps(q)[k] == AnswerOp(FieldAt(k), Read(q, FieldAt(k)));
  }

  lemma {:induction false} RunNext(r: Record, ops: seq<Op>, k: nat)
    requires k < |ops| && AllExist(ops)
    ensures AllExist(ops[..k]) && AllExist(ops[..k + 1]) && Exists(ops[k])
    ensures Run(r, ops[..k + 1]) == Written(Run(r, ops[..k]), ops[k])
  {
    assert ops[..k + 1][..k] == ops[..k] && ops[..k + 1][k] == ops[k];
  }

  lemma AnswerEnds(r: Record, q: Record, now: Record)
    requires Answered(r, q, COPIED, now)
    ensures now == Answer(r, q)
  {
    assert AnswerOps(q)[..COPIED] == AnswerOps(q);
  }

  const NULL_CRC: string := "*** NULL CRC ***"

  /** The data of a message, and its length in the header, survive the wire; so does every field. */
  method Transfer(a: CGMessage, b: CGMessage) returns (rc: int)
    requires a.Valid() && b.Valid() && a.header.bytes != b.header.bytes && a.buffer != b.header.bytes && a != b
    modifies a.buffer, b, b.header.bytes
    ensures rc == 0 && b.Valid()
    ensures b.header.Rec() == old(a.header.Rec()) && b.Data() == old(a.Data())
    ensures forall f :: Read(b.header.Rec(), f) == Read(old(a.header.Rec()), f)
  {
    var wire := a.GetMsg();
    assert wire[..RECORD] == a.header.Rec();
    rc := b.SetMsg(Some(wire));
  }

  lemma NullCrcFits()
    ensures |NULL_CRC| == 16 && '\0' !in NULL_CRC
  {}

  lemma CrcIsSet(r: Record, f: Field)
    ensures Read(Written(r, SetText(Crc, NULL_CRC)), f) == if f.Crc? then Text(NULL_CRC) else Read(r, f)
  {
    NullCrcFits();
    SetterSetsOneField(r, SetText(Crc, NULL_CRC), f);
    TextFits(r, Crc, NULL_CRC);
  }

  /** Setting data changes the checksum and the length only, and the length is the real one exactly
      when it has at most ten digits. */
  lemma DataSetsLength(r: Record, n: nat, f: Field)
    requires Exists(SetNumber(TamMensaje, n)) && n < TWO64
    ensures var next := Written(Written(r, SetText(Crc, NULL_CRC)), SetNumber(TamMensaje, n));
            && (Read(next, TamMensaje) == Number(n) <==> n < Pow10(10))
            && (n < Pow10(10) && f != TamMensaje ==> Read(next, f) == if f.Crc? then Text(NULL_CRC) else Read(r, f))
  {
    var mid := Written(r, SetText(Crc, NULL_CRC));
    NumberFits(mid, TamMensaje, n);
    if n < Pow10(10) && f != TamMensaje {
      CrcIsSet(r, f);
      Powers();
      SetterSetsOneField(mid, SetNumber(TamMensaje, n), f);
    }
  }
}
