/** sec.c as it is written: bit arrays permuted and rotated in place, sixteen rounds that turn
    one key register and never reset it. Only the declared width of an array is assumed to
    hold bits; the slots past it hold any integer, as in the uninitialised C arrays. */
module DesCode {
  import opened DesBoxes
  import opened DesTables
  import opened DesSpec
  import opened DesTheorems
  import opened HexText
  import opened DesText

  // ----- transpone -----

  function Permute(t: seq<int>, s: seq<int>): (r: seq<int>)
    requires Selects(t, |s|)
    ensures |r| == |t|
  {
    seq(|t|, i requires 0 <= i < |t| => s[t[i] - 1])
  }

  method Transpone(dato: array<int>, transp: seq<int>, cant: nat)
    requires dato.Length == 64 && cant == |transp| <= 64 && Selects(transp, 64)
    modifies dato
    ensures dato[..cant] == Permute(transp, old(dato[..]))
    ensures dato[cant..] == old(dato[cant..])
  {
    var x := dato[..];
    for i := 0 to cant
      invariant forall j :: 0 <= j < i ==> dato[j] == x[transp[j] - 1]
      invariant forall j :: i <= j < 64 ==> dato[j] == x[j]
    {
      dato[i] := x[transp[i] - 1];
    }
  }

  lemma PermuteIP(s: Block)
    ensures Selects(DES.ITR, 64) && |DES.ITR| == 64 && Permute(DES.ITR, s) == IP(s)
  {
    ItrSelects();
  }

  lemma PermuteFP(s: Block)
    ensures Selects(DES.FTR, 64) && |DES.FTR| == 64 && Permute(DES.FTR, s) == FP(s)
  {
    FtrSelects();
  }

  lemma PermutePC1(s: Block)
    ensures Selects(DES.KT1, 64) && |DES.KT1| == 56 && Permute(DES.KT1, s) == PC1(s)
  {
    Kt1Selects();
  }

  /** The tables of `f` select from the first 56 or 32 of the 64 slots only. */
  lemma PermutePC2(s: seq<int>)
    requires |s| == 64 && IsBits(s[..56])
    ensures Selects(DES.KT2, 64) && |DES.KT2| == 48 && Permute(DES.KT2, s) == PC2(s[..56])
  {
    Kt2Selects();
  }

  lemma PermuteE(s: seq<int>)
    requires |s| == 64 && IsBits(s[..32])
    ensures Selects(DES.ETR, 64) && |DES.ETR| == 48 && Permute(DES.ETR, s) == E(s[..32])
  {
    EtrSelects();
  }

  lemma PermuteP(s: seq<int>)
    requires |s| == 64 && IsBits(s[..32])
    ensures Selects(DES.PTR, 64) && |DES.PTR| == 32 && Permute(DES.PTR, s) == P(s[..32])
  {
    PtrSelects();
  }

  lemma SwapAtLow(i: nat)
    requires i < 32
    ensures |DES.SWAP| == 64 && DES.SWAP[i] == i + 33
  {
    if i < 8 {} else if i < 16 {} else if i < 24 {} else {}
  }

  lemma SwapAtHigh(i: nat)
    requires 32 <= i < 64
    ensures |DES.SWAP| == 64 && DES.SWAP[i] == i - 31
  {
    if i < 40 {} else if i < 48 {} else if i < 56 {} else {}
  }

  lemma PermuteSwap(s: Block)
    ensures Selects(DES.SWAP, 64) && |DES.SWAP| == 64 && Permute(DES.SWAP, s) == SwapHalves(s)
  {
    SwapSelects();
    forall i | 0 <= i < 64 ensures Permute(DES.SWAP, s)[i] == SwapHalves(s)[i] {
      if i < 32 {
        SwapAtLow(i);
      } else {
        SwapAtHigh(i);
      }
    }
  }

  // ----- rotizq, rotder -----

  /** `memcpy` of all 64 slots. */
  method Memcpy(to: array<int>, from: array<int>)
    requires to.Length == from.Length == 64
    modifies to
    ensures to[..] == old(from[..])
  {
    forall i | 0 <= i < 64 { to[i] := from[i]; }
  }

  lemma LeftOnce(c: seq<int>, d: seq<int>)
    requires |c| == |d| == 56 && d[27] == c[0] && d[55] == c[28]
    requires forall i :: 0 <= i < 55 && i != 27 ==> d[i] == c[i + 1]
    ensures d == RotateLeft(c, 1)
  {
    forall i | 0 <= i < 56 ensures d[i] == RotateLeft(c, 1)[i] {
      if i == 27 || i == 55 {} else if i < 27 {} else {}
    }
  }

  lemma RightOnce(c: seq<int>, d: seq<int>)
    requires |c| == |d| == 56 && d[0] == c[27] && d[28] == c[55]
    requires forall i :: 0 < i < 56 && i != 28 ==> d[i] == c[i - 1]
    ensures d == RotateLeft(c, 27)
  {
    forall i | 0 <= i < 56 ensures d[i] == RotateLeft(c, 27)[i] {
      if i == 0 || i == 28 {} else if i < 28 {} else {}
    }
  }

  method Rotizq(clave: array<int>)
    requires clave.Length == 64
    modifies clave
    ensures clave[..56] == RotateLeft(old(clave[..56]), 1)
    ensures clave[56..] == old(clave[56..])
  {
    ghost var was := clave[..];
    var x := new int[64];
    Memcpy(x, clave);
    for i := 0 to 55
      invariant clave[..] == was
      invariant forall j :: 0 <= j < i ==> x[j] == was[j + 1]
      invariant forall j :: i <= j < 64 ==> x[j] == was[j]
    {
      x[i] := x[i + 1];
    }
    x[27] := clave[0];
    x[55] := clave[28];
    Memcpy(clave, x);
    LeftOnce(was[..56], clave[..56]);
  }

  method Rotder(clave: array<int>)
    requires clave.Length == 64
    modifies clave
    ensures clave[..56] == RotateLeft(old(clave[..56]), 27)
    ensures clave[56..] == old(clave[56..])
  {
    ghost var was := clave[..];
    var x := new int[64];
    Memcpy(x, clave);
    for i := 56 downto 1
      invariant clave[..] == was
      invariant forall j :: i <= j < 56 ==> x[j] == was[j - 1]
      invariant forall j :: 0 <= j < i || 56 <= j < 64 ==> x[j] == was[j]
    {
      x[i] := x[i - 1];
    }
    x[0] := clave[27];
    x[28] := clave[55];
    Memcpy(clave, x);
    RightOnce(was[..56], clave[..56]);
  }

  // ----- f, with each of its loops as a method -----

  method TurnLeft(clave: array<int>, times: nat)
    requires clave.Length == 64
    modifies clave
    ensures clave[..56] == RotateLeft(old(clave[..56]), times)
    ensures clave[56..] == old(clave[56..])
  {
    ghost var cd := clave[..56];
    FullTurn(cd);
    for j := 0 to times
      invariant clave[..56] == RotateLeft(cd, j)
      invariant clave[56..] == old(clave[56..])
    {
      Rotizq(clave);
      RotationsAdd(cd, j, 1);
    }
  }

  method TurnRight(clave: array<int>, times: nat)
    requires clave.Length == 64
    modifies clave
    ensures clave[..56] == RotateLeft(old(clave[..56]), 27 * times)
    ensures clave[56..] == old(clave[56..])
  {
    ghost var cd := clave[..56];
    FullTurn(cd);
    ghost var turns: nat := 0;
    for j := 0 to times
      invariant turns == 27 * j
      invariant clave[..56] == RotateLeft(cd, turns)
      invariant clave[56..] == old(clave[56..])
    {
      Rotder(clave);
      RotationsAdd(cd, turns, 27);
      turns := turns + 27;
    }
  }

  method XorBits(e: array<int>, claux: array<int>, y: array<int>)
    requires e.Length == claux.Length == y.Length == 64 && y != e && y != claux
    requires IsBits(e[..48]) && IsBits(claux[..48])
    modifies y
    ensures y[..48] == XorAll(e[..48], claux[..48])
  {
    assert forall i :: 0 <= i < 48 ==> e[..48][i] == e[i] && claux[..48][i] == claux[i];
    for j := 0 to 48
      invariant forall i :: 0 <= i < j ==> 0 <= e[i] <= 1 && 0 <= claux[i] <= 1 && y[i] == Xor(e[i], claux[i])
    {
      assert e[j] == e[..48][j] && claux[j] == claux[..48][j];
      y[j] := Xor(e[j], claux[j]);
    }
  }

  /** The number r that `f` computes from six bits is the row and column of the standard. */
  lemma BoxIndex(y: seq<Bit>, k: nat, r: int)
    requires |y| == 48 && k < 8
    requires var z: seq<int> := y;
             r == 32 * z[6 * k] + 16 * z[6 * k + 5] + 8 * z[6 * k + 1] + 4 * z[6 * k + 2] + 2 * z[6 * k + 3] + z[6 * k + 4]
    ensures 0 <= r < 64
    ensures |DES.CAJA_S| == 8 && |DES.CAJA_S[k]| == 64
    ensures S(k, y[6 * k..6 * k + 6]) == DES.CAJA_S[k][r]
  {
    CajaSShape();
  }

  /** Writes a four-bit value, most significant bit first. */
  method PutNibble(v: int, output: array<int>, at: nat)
    requires output.Length == 64 && at <= 60
    modifies output
    ensures forall i :: at <= i < at + 4 ==> output[i] == NibbleBit(v, i - at)
    ensures forall i :: 0 <= i < at || at + 4 <= i < 64 ==> output[i] == old(output[i])
  {
    output[at] := (v / 8) % 2;
    output[at + 1] := (v / 4) % 2;
    output[at + 2] := (v / 2) % 2;
    output[at + 3] := v % 2;
  }

  method SBoxValue(k: nat, y: array<int>) returns (v: int)
    requires k < 8 && y.Length == 64 && IsBits(y[..48])
    ensures v == BoxValues(y[..48])[k]
  {
    var r := 32 * y[6 * k] + 16 * y[6 * k + 5] + 8 * y[6 * k + 1] + 4 * y[6 * k + 2] + 2 * y[6 * k + 3] + y[6 * k + 4];
    BoxIndex(y[..48], k, r);
    v := DES.CAJA_S[k][r];
  }

  method SBoxes(y: array<int>, output: array<int>)
    requires y.Length == output.Length == 64 && y != output && IsBits(y[..48])
    modifies output
    ensures output[..32] == Substitute(y[..48])
    ensures forall k :: 0 <= k < 8 ==> IsBoxOutput(y[..48], output[..32], k)
    ensures output[32..] == old(output[32..])
  {
    ghost var bits: seq<Bit> := y[..48];
    ghost var values: seq<int> := [];
    for k := 0 to 8
      invariant y[..48] == bits
      invariant values == BoxValues(bits)[..k]
      invariant forall j :: 0 <= j < 4 * k ==> output[j] == NibbleBit(values[j / 4], j % 4)
      invariant forall j :: 32 <= j < 64 ==> output[j] == old(output[j])
    {
      var v := SBoxValue(k, y);
      PutNibble(v, output, 4 * k);
      values := values + [v];
    }
    assert values == BoxValues(bits);
    assert output[..32] == Nibbles(values);
    forall k | 0 <= k < 8 ensures IsBoxOutput(bits, output[..32], k) {
      SubstituteIsBoxOutput(bits, k);
    }
  }

  /** The register from which `f` takes the subkey: turned left first when encrypting. */
  ghost function RegisterUsed(cd: seq<int>, numero: nat, flag: int): (r: seq<int>)
    requires |cd| == 56 && 1 <= numero <= 16
    ensures |r| == 56 && (IsBits(cd) ==> IsBits(r))
  {
    if flag == 1 then RotateLeft(cd, Turns(numero)) else cd
  }

  /** The register that `f` leaves: turned right afterwards when decrypting. One turn right is
      27 turns left. */
  ghost function RegisterLeft(cd: seq<int>, numero: nat, flag: int): (r: seq<int>)
    requires |cd| == 56 && 1 <= numero <= 16
    ensures |r| == 56 && (IsBits(cd) ==> IsBits(r))
  {
    if flag == 1 then RotateLeft(cd, Turns(numero))
    else if flag == 2 then RotateLeft(cd, 27 * Turns(numero))
    else cd
  }

  method Expand(input: array<int>) returns (e: array<int>)
    requires input.Length == 64 && IsBits(input[..32])
    ensures fresh(e) && e.Length == 64 && e[..48] == E(input[..32])
  {
    e := new int[64];
    Memcpy(e, input);
    assert e[..][..32] == input[..][..32] == input[..32];
    PermuteE(e[..]);
    Transpone(e, DES.ETR, 48);
  }

  method Choose(clave: array<int>) returns (claux: array<int>)
    requires clave.Length == 64 && IsBits(clave[..56])
    ensures fresh(claux) && claux.Length == 64 && claux[..48] == PC2(clave[..56])
  {
    claux := new int[64];
    Memcpy(claux, clave);
    assert claux[..][..56] == clave[..][..56] == clave[..56];
    PermutePC2(claux[..]);
    Transpone(claux, DES.KT2, 48);
  }

  method F(numero: nat, clave: array<int>, input: array<int>, output: array<int>, flag: int)
    requires 1 <= numero <= 16 && clave.Length == input.Length == output.Length == 64
    requires clave != input && clave != output && input != output
    requires IsBits(clave[..56]) && IsBits(input[..32])
    modifies clave, output
    ensures clave[..56] == RegisterLeft(old(clave[..56]), numero, flag)
    ensures clave[56..] == old(clave[56..])
    ensures output[..32] == CipherF(input[..32], PC2(RegisterUsed(old(clave[..56]), numero, flag)))
    ensures output[32..] == old(output[32..])
  {
    NRotShape();
    var e := Expand(input);
    if flag == 1 {
      TurnLeft(clave, DES.NROT[numero - 1]);
    }
    var claux := Choose(clave);
    var y := new int[64];
    XorBits(e, claux, y);
    SBoxes(y, output);
    PermuteP(output[..]);
    Transpone(output, DES.PTR, 32);
    if flag == 2 {
      TurnRight(clave, DES.NROT[numero - 1]);
    }
  }

  // ----- The sixteen rounds -----

  /** `a[j + to] = b[j + from]` for one half of the block. */
  method CopyHalf(a: array<int>, b: seq<int>, to: nat, from: nat)
    requires a.Length == |b| == 64 && to <= 32 && from <= 32
    modifies a
    ensures a[to..to + 32] == b[from..from + 32]
    ensures a[..to] == old(a[..to]) && a[to + 32..] == old(a[to + 32..])
  {
    for j := 0 to 32
      invariant forall m :: to <= m < to + j ==> a[m] == b[m - to + from]
      invariant forall m :: 0 <= m < to || to + 32 <= m < 64 ==> a[m] == old(a[m])
    {
      a[j + to] := b[j + from];
    }
  }

  /** `a[j + to] = b[j + from] ^ x[j]` for one half of the block. */
  method XorHalf(a: array<int>, b: seq<int>, x: array<int>, to: nat, from: nat)
    requires a.Length == |b| == x.Length == 64 && a != x && to <= 32 && from <= 32
    requires IsBits(b) && IsBits(x[..32])
    modifies a
    ensures a[to..to + 32] == XorAll(b[from..from + 32], x[..32])
    ensures a[..to] == old(a[..to]) && a[to + 32..] == old(a[to + 32..])
  {
    ghost var out: seq<Bit> := x[..32];
    for j := 0 to 32
      invariant x[..32] == out
      invariant forall m :: to <= m < to + j ==> a[m] == Xor(b[m - to + from], out[m - to])
      invariant forall m :: 0 <= m < to || to + 32 <= m < 64 ==> a[m] == old(a[m])
    {
      assert x[j] == out[j];
      a[j + to] := Xor(b[j + from], x[j]);
    }
  }

  /** What one decryption round leaves in `a`: the halves have the opposite roles. */
  ghost function RoundBack(b: Block, k: Subkey): Block {
    XorAll(b[32..], CipherF(b[..32], k)) + b[..32]
  }

  lemma RoundBackIsRound(b: Block, k: Subkey)
    ensures SwapHalves(RoundBack(b, k)) == Round(SwapHalves(b), k)
  {
    Halves(b[32..], b[..32]);
    Halves(XorAll(b[32..], CipherF(b[..32], k)), b[..32]);
  }

  lemma JoinHalves(a: seq<int>, l: seq<int>, r: seq<int>)
    requires |a| == 64 && |l| == |r| == 32 && a[..32] == l && a[32..] == r
    ensures a == l + r
  {}

  /** One encryption round seen from outside: `mid` is the block after the copy, `now` after the xor. */
  lemma RoundJoined(b: Block, mid: seq<int>, out: seq<Bit>, now: seq<int>, k: Subkey)
    requires |mid| == |now| == 64 && mid[0..32] == b[32..64] && out == CipherF(b[32..], k)
    requires now[32..64] == XorAll(b[0..32], out) && now[..32] == mid[..32]
    ensures now == Round(b, k)
  {
    assert mid[..32] == mid[0..32] && b[32..64] == b[32..] && b[0..32] == b[..32] && now[32..64] == now[32..];
    JoinHalves(now, b[32..], XorAll(b[..32], out));
  }

  /** The same for a decryption round. */
  lemma RoundBackJoined(b: Block, mid: seq<int>, out: seq<Bit>, now: seq<int>, k: Subkey)
    requires |mid| == |now| == 64 && mid[32..64] == b[0..32] && out == CipherF(b[..32], k)
    requires now[0..32] == XorAll(b[32..64], out) && now[32..] == mid[32..]
    ensures now == RoundBack(b, k)
  {
    assert mid[32..] == mid[32..64] && b[32..64] == b[32..] && b[0..32] == b[..32] && now[0..32] == now[..32];
    JoinHalves(now, XorAll(b[32..], out), b[..32]);
  }

  method EncryptRound(i: nat, a: array<int>, keyb: array<int>, x: array<int>)
    requires i < 16 && a.Length == keyb.Length == x.Length == 64
    requires a != keyb && a != x && keyb != x && IsBits(a[..]) && IsBits(keyb[..56])
    modifies a, keyb, x
    ensures keyb[..56] == RotateLeft(old(keyb[..56]), Turns(i + 1))
    ensures a[..] == Round(old(a[..]), PC2(keyb[..56]))
  {
    var b := a[..];
    CopyHalf(a, b, 0, 32);
    ghost var mid := a[..];
    assert a[..32] == mid[0..32] == b[32..];
    F(i + 1, keyb, a, x, 1);
    ghost var out := x[..32];
    XorHalf(a, b, x, 32, 0);
    RoundJoined(b, mid, out, a[..], PC2(keyb[..56]));
  }

  method DecryptRound(i: nat, a: array<int>, keyb: array<int>, x: array<int>)
    requires 1 <= i <= 16 && a.Length == keyb.Length == x.Length == 64
    requires a != keyb && a != x && keyb != x && IsBits(a[..]) && IsBits(keyb[..56])
    modifies a, keyb, x
    ensures keyb[..56] == RotateLeft(old(keyb[..56]), 27 * Turns(i))
    ensures a[..] == RoundBack(old(a[..]), PC2(old(keyb[..56])))
  {
    var b := a[..];
    CopyHalf(a, b, 32, 0);
    ghost var mid, k := a[..], PC2(keyb[..56]);
    assert a[..32] == b[..32];
    F(i, keyb, a, x, 2);
    ghost var out := x[..32];
    XorHalf(a, b, x, 0, 32);
    RoundBackJoined(b, mid, out, a[..], k);
  }

  lemma RegisterStepsOn(c: seq<int>, i: nat, cd: seq<int>, cd': seq<int>)
    requires i < 16 && |c| == |cd| == |cd'| == 56
    requires cd == RotateLeft(c, Shifts(i)) && cd' == RotateLeft(cd, Turns(i + 1))
    ensures cd' == RotateLeft(c, Shifts(i + 1))
  {
    ShiftsNext(i);
    RotationsAdd(c, Shifts(i), Turns(i + 1));
  }

  lemma ShiftsNext(i: nat)
    requires i < 16
    ensures Shifts(i + 1) == Shifts(i) + Turns(i + 1) && 1 <= Turns(i + 1) <= 2
  {}

  lemma EncryptStep(start: Block, key: Block, i: nat, b: Block, cd: seq<Bit>)
    requires i < 16 && |cd| == 56
    requires cd == RotateLeft(PC1(key), Shifts(i + 1))
    requires b == Rounds(start, FirstSubkeys(key, i))
    ensures Round(b, PC2(cd)) == Rounds(start, FirstSubkeys(key, i + 1))
  {
    OneMoreSubkey(key, i);
    OneMoreRound(start, FirstSubkeys(key, i), SubkeyOf(key, i + 1));
  }

  /** Block and register before encryption round `i`. */
  ghost predicate Encrypting(a: seq<int>, cd: seq<int>, start: Block, key: Block, i: nat)
    requires i <= 16
  {
    a == Rounds(start, FirstSubkeys(key, i)) && |cd| == 56 && cd == RotateLeft(PC1(key), Shifts(i))
  }

  lemma EncryptGoesOn(a: seq<int>, cd: seq<int>, start: Block, key: Block, i: nat, a': seq<int>, cd': seq<int>)
    requires i < 16 && Encrypting(a, cd, start, key, i)
    requires cd' == RotateLeft(cd, Turns(i + 1)) && a' == Round(a, PC2(cd'))
    ensures Encrypting(a', cd', start, key, i + 1)
  {
    RegisterStepsOn(PC1(key), i, cd, cd');
    EncryptStep(start, key, i, a, cd');
  }

  method EncryptRounds(a: array<int>, keyb: array<int>, ghost key: Block)
    requires a.Length == keyb.Length == 64 && a != keyb && IsBits(a[..]) && keyb[..56] == PC1(key)
    modifies a, keyb
    ensures a[..] == Rounds(old(a[..]), FirstSubkeys(key, 16))
    ensures keyb[..56] == PC1(key)
  {
    var x := new int[64];
    ghost var start: Block := a[..];
    FullTurn(PC1(key));
    for i := 0 to 16
      invariant Encrypting(a[..], keyb[..56], start, key, i)
    {
      ghost var b, cd := a[..], keyb[..56];
      EncryptRound(i, a, keyb, x);
      EncryptGoesOn(b, cd, start, key, i, a[..], keyb[..56]);
    }
    SixteenRoundsTurnOnce();
  }

  lemma OneWholeTurn(cd: seq<int>, s: nat)
    requires |cd| == 56
    ensures RotateLeft(cd, s + 28) == RotateLeft(cd, s)
  {
    RotationsAdd(cd, s, 28);
    FullTurn(RotateLeft(cd, s));
  }

  /** One or two turns right undo as many turns left. */
  lemma TurnRightUndoes(cd: seq<int>, s: nat, r: nat)
    requires |cd| == 56 && 1 <= r <= 2
    ensures RotateLeft(RotateLeft(cd, s + r), 27 * r) == RotateLeft(cd, s)
  {
    RotationsAdd(cd, s + r, 27 * r);
    OneWholeTurn(cd, s);
    OneWholeTurn(cd, s + 28);
  }

  lemma RegisterStepsBack(c: seq<int>, i: nat, cd: seq<int>, cd': seq<int>)
    requires i < 16 && |c| == |cd| == |cd'| == 56
    requires cd == RotateLeft(c, Shifts(i + 1)) && cd' == RotateLeft(cd, 27 * Turns(i + 1))
    ensures cd' == RotateLeft(c, Shifts(i))
  {
    ShiftsNext(i);
    TurnRightUndoes(c, Shifts(i), Turns(i + 1));
  }

  lemma DecryptStep(start: Block, key: Block, i: nat, b: Block, cd: seq<Bit>)
    requires i < 16 && |cd| == 56
    requires cd == RotateLeft(PC1(key), Shifts(i + 1))
    requires SwapHalves(b) == Rounds(start, Reversed(FirstSubkeys(key, 16))[..15 - i])
    ensures SwapHalves(RoundBack(b, PC2(cd))) == Rounds(start, Reversed(FirstSubkeys(key, 16))[..16 - i])
  {
    RoundBackIsRound(b, PC2(cd));
    OneMoreReversedSubkey(key, i);
    OneMoreRound(start, Reversed(FirstSubkeys(key, 16))[..15 - i], SubkeyOf(key, i + 1));
  }

  /** Block and register before decryption round `i`, which is the one after rounds 16 to `i + 1`. */
  ghost predicate Decrypting(a: seq<int>, cd: seq<int>, start: Block, key: Block, i: nat)
    requires i <= 16
  {
    && |a| == 64 && IsBits(a) && |cd| == 56 && cd == RotateLeft(PC1(key), Shifts(i))
    && SwapHalves(a) == Rounds(start, Reversed(FirstSubkeys(key, 16))[..16 - i])
  }

  lemma DecryptGoesOn(a: seq<int>, cd: seq<int>, start: Block, key: Block, i: nat, a': seq<int>, cd': seq<int>)
    requires i < 16 && Decrypting(a, cd, start, key, i + 1)
    requires cd' == RotateLeft(cd, 27 * Turns(i + 1)) && a' == RoundBack(a, PC2(cd))
    ensures Decrypting(a', cd', start, key, i)
  {
    DecryptStep(start, key, i, a, cd);
    RegisterStepsBack(PC1(key), i, cd, cd');
  }

  method DecryptRounds(a: array<int>, keyb: array<int>, ghost key: Block)
    requires a.Length == keyb.Length == 64 && a != keyb && IsBits(a[..]) && keyb[..56] == PC1(key)
    modifies a, keyb
    ensures IsBits(a[..]) && SwapHalves(a[..]) == Rounds(SwapHalves(old(a[..])), Reversed(FirstSubkeys(key, 16)))
    ensures keyb[..56] == PC1(key)
  {
    var x := new int[64];
    ghost var start: Block := SwapHalves(a[..]);
    ghost var ks := Reversed(FirstSubkeys(key, 16));
    FullTurn(PC1(key));
    SixteenRoundsTurnOnce();
    for i := 16 downto 0
      invariant Decrypting(a[..], keyb[..56], start, key, i)
    {
      ghost var b, cd := a[..], keyb[..56];
      DecryptRound(i + 1, a, keyb, x);
      DecryptGoesOn(b, cd, start, key, i, a[..], keyb[..56]);
    }
    assert ks[..16] == ks;
  }

  // ----- Asc2Bin, Bin2Asc, expo -----

  /** C's `j & mask` for a mask of one bit. */
  function AndBit(j: int, mask: int): int
    requires mask > 0
  {
    if (j / mask) % 2 == 1 then mask else 0
  }

  lemma DivTwice(j: int, m: int)
    requires m == 1 || m == 2 || m == 4 || m == 8 || m == 16 || m == 32 || m == 64
    ensures (j / 2) / m == j / (2 * m)
  {
    if m == 1 {
    } else if m == 2 {
      assert j / 2 == 2 * (j / 4) + (j % 4) / 2;
    } else if m == 4 {
      assert j / 2 == 4 * (j / 8) + (j % 8) / 2;
    } else if m == 8 {
      assert j / 2 == 8 * (j / 16) + (j % 16) / 2;
    } else if m == 16 {
      assert j / 2 == 16 * (j / 32) + (j % 32) / 2;
    } else if m == 32 {
      assert j / 2 == 32 * (j / 64) + (j % 64) / 2;
    } else {
      assert j / 2 == 64 * (j / 128) + (j % 128) / 2;
    }
  }

  lemma {:induction false} BitAtIsQuotient(j: int, p: nat)
    requires p <= 7
    ensures BitAt(j, p) == (j / Pow2(p)) % 2
    decreases p
  {
    if p == 0 {
    } else {
      BitAtIsQuotient(j / 2, p - 1);
      assert Pow2(2) == 4 && Pow2(4) == 16 && Pow2(6) == 64;
      DivTwice(j, Pow2(p - 1));
    }
  }

  lemma {:induction false} MascaraIsPow2(i: nat)
    requires i < 8
    ensures |DES.MASCARA| == 8 && DES.MASCARA[i] == Pow2(7 - i)
  {
    assert Pow2(3) == 8;
    assert Pow2(7) == 128;
  }

  /** `j & mascara[i]`, with any non-zero result made 1, is bit 7 - i of j. */
  lemma {:induction false} MaskedBit(j: int, i: nat)
    requires i < 8
    ensures |DES.MASCARA| == 8 && DES.MASCARA[i] > 0
    ensures BitAt(j, 7 - i) == if AndBit(j, DES.MASCARA[i]) != 0 then 1 else 0
  {
    MascaraIsPow2(i);
    BitAtIsQuotient(j, 7 - i);
  }

  /** The first `i` bits are written from `at` on. */
  ghost predicate BitsWritten(now: seq<int>, was: seq<int>, at: nat, bits: seq<Bit>, i: nat)
    requires i <= |bits| && at + |bits| <= |was|
  {
    now == was[..at] + bits[..i] + was[at + i..]
  }

  lemma NextBit(now: seq<int>, was: seq<int>, at: nat, bits: seq<Bit>, i: nat, next: seq<int>)
    requires i < |bits| && at + |bits| <= |was| && BitsWritten(now, was, at, bits, i)
    requires |next| == |was| && next == now[at + i := bits[i]]
    ensures BitsWritten(next, was, at, bits, i + 1)
  {}

  lemma AllBits(now: seq<int>, was: seq<int>, at: nat, bits: seq<Bit>)
    requires at + |bits| <= |was| && BitsWritten(now, was, at, bits, |bits|)
    ensures |now| == |was| && now[at..at + |bits|] == bits && now[..at] == was[..at] && now[at + |bits|..] == was[at + |bits|..]
  {}

  /** One bit of `j`, by its mask. */
  method PutBit(j: int, i: nat, entero: array<int>, at: nat)
    requires i < 8 && at < entero.Length
    modifies entero
    ensures entero[..] == old(entero[..])[at := BitAt(j, 7 - i)]
  {
    MaskedBit(j, i);
    entero[at] := AndBit(j, DES.MASCARA[i]);
    if entero[at] != 0 {
      entero[at] := 1;
    }
  }

  method PutBits(j: int, entero: array<int>, at: nat)
    requires at + 8 <= entero.Length
    modifies entero
    ensures entero[at..at + 8] == LowBits(j, 8)
    ensures entero[..at] == old(entero[..at]) && entero[at + 8..] == old(entero[at + 8..])
  {
    ghost var bits, was := LowBits(j, 8), entero[..];
    for i := 0 to 8
      invariant BitsWritten(entero[..], was, at, bits, i)
    {
      ghost var now := entero[..];
      PutBit(j, i, entero, at + i);
      NextBit(now, was, at, bits, i, entero[..]);
    }
    AllBits(entero[..], was, at, bits);
  }

  method Asc2Bin(entero: array<int>, at: nat, carac: array<CChar>, from: nat)
    requires at + 8 <= entero.Length && from + 2 <= carac.Length
    modifies entero
    ensures entero[at..at + 8] == PairBits(carac[from], carac[from + 1])
    ensures entero[..at] == old(entero[..at]) && entero[at + 8..] == old(entero[at + 8..])
  {
    var c0: int, c1: int := carac[from], carac[from + 1];
    var j: int;
    if c0 > 57 {
      j := (c0 - 55) * 16;
    } else {
      j := (c0 - 0x30) * 16;
    }
    if c1 > 57 {
      j := j + (c1 - 55);
    } else {
      j := j + (c1 - 0x30);
    }
    assert j == 16 * DigitValue(carac[from]) + DigitValue(carac[from + 1]);
    PutBits(j, entero, at);
  }

  function Expo(n: int, p: nat): int {
    if p == 0 then 1 else if p == 1 then n else n * Expo(n, p - 1)
  }

  lemma {:induction false} ExpoOfTwo(p: nat)
    ensures Expo(2, p) == Pow2(p)
  {
    if p > 1 {
      ExpoOfTwo(p - 1);
    }
  }

  lemma Distribute(v: int, b: int, p: int)
    ensures (2 * v + b) * p == v * (2 * p) + b * p
  {}

  lemma OneMoreBit(bits: seq<Bit>, j: nat, l: int)
    requires |bits| == 8 && j < 8 && l == BitsValue(bits[..j]) * Pow2(8 - j)
    ensures var b: int := bits[j]; l + b * Expo(2, 7 - j) == BitsValue(bits[..j + 1]) * Pow2(7 - j)
  {
    ExpoOfTwo(7 - j);
    var v, b: int, p := BitsValue(bits[..j]), bits[j], Pow2(7 - j);
    assert bits[..j + 1][..j] == bits[..j];
    assert BitsValue(bits[..j + 1]) == 2 * v + b;
    Distribute(v, b, p);
  }

  method PutHexDigit(v: int, carac: array<CChar>, at: nat)
    requires 0 <= v < 16 && at < carac.Length
    modifies carac
    ensures carac[..] == old(carac[..])[at := HexDigit(v)]
  {
    carac[at] := v;
    if carac[at] > 9 {
      carac[at] := v + 55;
    } else {
      carac[at] := v + 0x30;
    }
  }

  method Bin2Asc(entero: array<int>, from: nat, carac: array<CChar>, at: nat)
    requires from + 8 <= entero.Length && at + 2 <= carac.Length && IsBits(entero[from..from + 8])
    modifies carac
    ensures carac[..] == old(carac[..])[..at] + BytePair(entero[from..from + 8]) + old(carac[..])[at + 2..]
  {
    ghost var bits: seq<Bit> := entero[from..from + 8];
    var l := 0;
    for j := 0 to 8
      invariant l == BitsValue(bits[..j]) * Pow2(8 - j)
      invariant carac[..] == old(carac[..])
    {
      OneMoreBit(bits, j, l);
      assert entero[from + j] == bits[j];
      l := l + entero[from + j] * Expo(2, 7 - j);
    }
    assert bits[..8] == bits && Pow2(|bits|) == 256;
    ByteDigits(bits, l / 16, l % 16);
    PutHexDigit(l / 16, carac, at);
    PutHexDigit(l % 16, carac, at + 1);
  }

  // ----- The entry points -----

  /** The loops that turn a text, or a key, into bits. */
  method TextToBits(entero: array<int>, carac: array<CChar>, pairs: nat)
    requires 8 * pairs <= entero.Length && 2 * pairs <= carac.Length
    modifies entero
    ensures entero[..8 * pairs] == TextBits(carac[..2 * pairs], pairs)
  {
    ghost var text := carac[..];
    for i := 0 to pairs
      invariant entero[..8 * i] == TextBits(text[..2 * i], i)
    {
      ghost var done := entero[..8 * i];
      Asc2Bin(entero, i * 8, carac, i * 2);
      PairRead(text, i, done, entero[..]);
    }
  }

  lemma {:induction false} PairRead(text: seq<CChar>, i: nat, done: seq<int>, now: seq<int>)
    requires 2 * i + 2 <= |text| && 8 * i + 8 <= |now|
    requires done == TextBits(text[..2 * i], i) && now[..8 * i] == done
    requires now[8 * i..8 * i + 8] == PairBits(text[2 * i], text[2 * i + 1])
    ensures now[..8 * (i + 1)] == TextBits(text[..2 * (i + 1)], i + 1)
  {
    OneMorePair(text, i);
    assert now[..8 * i + 8] == now[..8 * i] + now[8 * i..8 * i + 8];
  }

  lemma {:induction false} OneMorePair(text: seq<CChar>, i: nat)
    requires 2 * i + 2 <= |text|
    ensures TextBits(text[..2 * i + 2], i + 1) == TextBits(text[..2 * i], i) + PairBits(text[2 * i], text[2 * i + 1])
  {
    var pair := text[2 * i..2 * i + 2];
    assert text[..2 * i + 2] == text[..2 * i] + pair;
    TextBitsAppend(text[..2 * i], i, pair, 1);
    assert TextBits(pair, 1) == PairBits(pair[0], pair[1]) + TextBits(pair[2..], 0);
  }

  lemma {:induction false} OneMoreByte(bits: seq<Bit>, i: nat)
    requires 8 * i + 8 <= |bits|
    ensures BitsText(bits[..8 * i + 8], i + 1) == BitsText(bits[..8 * i], i) + BytePair(bits[8 * i..8 * i + 8])
  {
    var byte := bits[8 * i..8 * i + 8];
    assert bits[..8 * i + 8] == bits[..8 * i] + byte;
    BitsTextAppend(bits[..8 * i], i, byte, 1);
    assert byte[..8] == byte;
    assert BitsText(byte, 1) == BytePair(byte[..8]) + BitsText(byte[8..], 0);
  }

  /** The first `i` of the eight bytes are written. */
  ghost predicate BytesWritten(out: seq<CChar>, was: seq<CChar>, at: nat, bits: Block, i: nat)
    requires i <= 8 && at + 16 <= |was|
  {
    out == was[..at] + BitsText(bits[..8 * i], i) + was[at + 2 * i..]
  }

  lemma NextByte(out: seq<CChar>, was: seq<CChar>, at: nat, bits: Block, i: nat, byte: seq<Bit>, next: seq<CChar>)
    requires i < 8 && at + 16 <= |was| && BytesWritten(out, was, at, bits, i) && byte == bits[8 * i..8 * i + 8]
    requires next == out[..at + 2 * i] + BytePair(byte) + out[at + 2 * i + 2..]
    ensures BytesWritten(next, was, at, bits, i + 1)
  {
    OneMoreByte(bits, i);
    var done, pair := BitsText(bits[..8 * i], i), BytePair(byte);
    PairAfter(was[..at], done, pair, was[at + 2 * i..]);
    assert was[at + 2 * i..][2..] == was[at + 2 * (i + 1)..];
  }

  lemma PairAfter(a: seq<CChar>, done: seq<CChar>, pair: seq<CChar>, b: seq<CChar>)
    requires |pair| == 2 && |b| >= 2
    ensures (a + done + b)[..|a| + |done|] + pair + (a + done + b)[|a| + |done| + 2..] == a + (done + pair) + b[2..]
  {
    assert (a + done + b)[..|a| + |done|] == a + done;
    assert (a + done + b)[|a| + |done| + 2..] == b[2..];
  }

  method WriteByte(cripto: array<int>, i: nat, out: array<CChar>, at: nat, ghost bits: Block, ghost was: seq<CChar>)
    requires cripto.Length == 64 && cripto[..] == bits && i < 8 && at + 16 <= out.Length == |was|
    requires BytesWritten(out[..], was, at, bits, i)
    modifies out
    ensures BytesWritten(out[..], was, at, bits, i + 1)
  {
    ghost var now, byte := out[..], bits[8 * i..8 * i + 8];
    var from, to := i * 8, at + i * 2;
    assert cripto[from..from + 8] == byte;
    Bin2Asc(cripto, from, out, to);
    NextByte(now, was, at, bits, i, byte, out[..]);
  }

  /** The loop that writes one enciphered block. */
  method BitsToText(cripto: array<int>, out: array<CChar>, at: nat)
    requires cripto.Length == 64 && IsBits(cripto[..]) && at + 16 <= out.Length
    modifies out
    ensures out[..] == old(out[..])[..at] + BitsText(cripto[..], 8) + old(out[..])[at + 16..]
  {
    ghost var bits: Block := cripto[..];
    ghost var was := out[..];
    for i := 0 to 8
      invariant cripto[..] == bits && BytesWritten(out[..], was, at, bits, i)
    {
      WriteByte(cripto, i, out, at, bits, was);
    }
    assert bits[..64] == bits;
  }

  lemma BitsOfThree(before: seq<CChar>, block: seq<CChar>, after: seq<CChar>, a: nat, b: nat, c: nat)
    requires |before| == 2 * a && |block| == 2 * b && |after| == 2 * c
    ensures TextBits(before + (block + after), a + (b + c)) == TextBits(before, a) + (TextBits(block, b) + TextBits(after, c))
  {
    TextBitsAppend(before, a, block + after, b + c);
    TextBitsAppend(block, b, after, c);
  }

  lemma {:induction false} BitsOfMiddle(before: seq<CChar>, block: seq<CChar>, after: seq<CChar>, k: nat, m: nat, n: nat)
    requires |before| == 16 * k && |block| == 16 && |after| == 16 * m && n == k + 1 + m
    ensures TextBits(before + (block + after), 8 * n)[64 * k..64 * k + 64] == TextBits(block, 8)
  {
    assert 8 * n == 8 * k + (8 + 8 * m);
    BitsInside(before, block, after, 8 * k, 8, 8 * m);
  }

  lemma {:induction false} BitsInside(before: seq<CChar>, block: seq<CChar>, after: seq<CChar>, a: nat, b: nat, c: nat)
    requires |before| == 2 * a && |block| == 2 * b && |after| == 2 * c
    ensures TextBits(before + (block + after), a + (b + c))[8 * a..8 * a + 8 * b] == TextBits(block, b)
  {
    BitsOfThree(before, block, after, a, b, c);
    Middle(TextBits(before, a), TextBits(block, b), TextBits(after, c));
  }

  lemma Middle(a: seq<Bit>, b: seq<Bit>, c: seq<Bit>)
    ensures (a + (b + c))[|a|..|a| + |b|] == b
  {}

  /** The 64 bits that the text-to-bits loop made of block `k`. */
  lemma {:induction false} BitsOfBlock(t: seq<CChar>, n: nat, k: nat)
    requires WholeBlocks(t, n) && k < n
    ensures TextBits(t, 8 * n)[64 * k..64 * k + 64] == TextBits(t[16 * k..16 * k + 16], 8)
  {
    InThree(t, 16 * k, 16 * k + 16);
    BitsOfMiddle(t[..16 * k], t[16 * k..16 * k + 16], t[16 * k + 16..], k, n - k - 1, n);
  }

  lemma InThree(t: seq<CChar>, i: nat, j: nat)
    requires i <= j <= |t|
    ensures t == t[..i] + (t[i..j] + t[j..])
  {}

  lemma {:induction false} OneMoreBlock(t: seq<CChar>, k: nat, f: BlockMap)
    requires 16 * (k + 1) <= |t|
    ensures EachBlock(t[..16 * (k + 1)], k + 1, f) == EachBlock(t[..16 * k], k, f) + f(t[16 * k..16 * k + 16])
  {
    var block := t[16 * k..16 * k + 16];
    assert t[..16 * (k + 1)] == t[..16 * k] + block;
    EachBlockAppend(t[..16 * k], k, block, 1, f);
    EachBlockCons(block, [], 0, f);
    assert block + [] == block;
  }

  /** The first `k` blocks of the output have been written; the rest is as it was. */
  ghost predicate Written(o: seq<CChar>, was: seq<CChar>, t: seq<CChar>, k: nat, f: BlockMap) {
    16 * k <= |t| && 16 * k <= |was| && o == EachBlock(t[..16 * k], k, f) + was[16 * k..]
  }

  lemma BlockDone(o: seq<CChar>, was: seq<CChar>, t: seq<CChar>, k: nat, f: BlockMap, o': seq<CChar>)
    requires 16 * (k + 1) <= |t| && 16 * (k + 1) <= |was|
    requires Written(o, was, t, k, f)
    requires o' == o[..16 * k] + f(t[16 * k..16 * k + 16]) + o[16 * k + 16..]
    ensures Written(o', was, t, k + 1, f)
  {
    OneMoreBlock(t, k, f);
    assert o[..16 * k] == EachBlock(t[..16 * k], k, f);
    assert o[16 * k + 16..] == was[16 * (k + 1)..];
  }

  lemma {:induction false} CipherOfBlock(t: seq<CChar>, n: nat, k: nat, ks: seq<Subkey>)
    requires WholeBlocks(t, n) && k < n
    ensures var bits := TextBits(t, 8 * n);
            BlockCipher(ks)(t[16 * k..16 * k + 16]) == BitsText(Crypt(bits[64 * k..64 * k + 64], ks), 8)
  {
    BitsOfBlock(t, n, k);
  }

  lemma SwapTwice(b: Block)
    ensures SwapHalves(SwapHalves(b)) == b
  {}

  /** The key as 56 bits in the register. */
  method KeyRegister(key: array<CChar>) returns (keyb: array<int>)
    requires 16 <= key.Length
    ensures fresh(keyb) && keyb.Length == 64 && keyb[..56] == PC1(KeyBlock(key[..16]))
  {
    keyb := new int[64];
    TextToBits(keyb, key, 8);
    assert keyb[..] == keyb[..64];
    PermutePC1(keyb[..]);
    Transpone(keyb, DES.KT1, 56);
  }

  /** What `Des_Encrypt` does to the 64 bits of one block. */
  method EncipherBits(a: array<int>, keyb: array<int>, ghost key: Block)
    requires a.Length == keyb.Length == 64 && a != keyb && IsBits(a[..]) && keyb[..56] == PC1(key)
    modifies a, keyb
    ensures a[..] == Crypt(old(a[..]), FirstSubkeys(key, 16))
    ensures keyb[..56] == PC1(key)
  {
    PermuteIP(a[..]);
    Transpone(a, DES.ITR, 64);
    assert a[..] == a[..64];
    EncryptRounds(a, keyb, key);
    PermuteSwap(a[..]);
    Transpone(a, DES.SWAP, 64);
    assert a[..] == a[..64];
    PermuteFP(a[..]);
    Transpone(a, DES.FTR, 64);
    assert a[..] == a[..64];
  }

  /** What `Des_Decrypt` does to the 64 bits of one block. */
  method DecipherBits(a: array<int>, keyb: array<int>, ghost key: Block)
    requires a.Length == keyb.Length == 64 && a != keyb && IsBits(a[..]) && keyb[..56] == PC1(key)
    modifies a, keyb
    ensures a[..] == Crypt(old(a[..]), Reversed(FirstSubkeys(key, 16)))
    ensures keyb[..56] == PC1(key)
  {
    PermuteIP(a[..]);
    Transpone(a, DES.ITR, 64);
    assert a[..] == a[..64];
    SwapTwice(a[..]);
    PermuteSwap(a[..]);
    Transpone(a, DES.SWAP, 64);
    assert a[..] == a[..64];
    DecryptRounds(a, keyb, key);
    SwapTwice(a[..]);
    PermuteFP(a[..]);
    Transpone(a, DES.FTR, 64);
    assert a[..] == a[..64];
  }

  method CopyBlock(inb: array<int>, k: nat) returns (a: array<int>)
    requires 64 * k + 64 <= inb.Length
    ensures fresh(a) && a.Length == 64 && a[..] == inb[64 * k..64 * k + 64]
  {
    a := new int[64];
    forall j | 0 <= j < 64 { a[j] := inb[64 * k + j]; }
  }

  lemma Sixteens(inlen: nat)
    requires inlen % 16 == 0
    ensures inlen == 16 * (inlen / 16) && inlen / 2 == 8 * (inlen / 16)
  {
    assert inlen == 2 * (8 * (inlen / 16));
  }

  method EncryptBlock(inb: array<int>, k: nat, keyb: array<int>, out: array<CChar>,
                      ghost text: seq<CChar>, ghost n: nat, ghost key: Block, ghost ks: seq<Subkey>)
    requires WholeBlocks(text, n) && k < n && inb[..] == TextBits(text, 8 * n)
    requires keyb.Length == 64 && keyb[..56] == PC1(key) && inb != keyb && 16 * n <= out.Length
    requires ks == FirstSubkeys(key, 16)
    modifies keyb, out
    ensures keyb[..56] == PC1(key)
    ensures out[..] == old(out[..])[..16 * k] + BlockCipher(ks)(text[16 * k..16 * k + 16]) + old(out[..])[16 * k + 16..]
  {
    ghost var was, bits := out[..], inb[..];
    CipherOfBlock(text, n, k, ks);
    var a := CopyBlock(inb, k);
    assert a[..] == bits[64 * k..64 * k + 64];
    EncipherBits(a, keyb, key);
    assert out[..] == was;
    BitsToText(a, out, 16 * k);
  }

  method EncryptBlocks(inb: array<int>, n: nat, keyb: array<int>, out: array<CChar>,
                       ghost text: seq<CChar>, ghost key: Block, ghost ks: seq<Subkey>)
    requires WholeBlocks(text, n) && inb[..] == TextBits(text, 8 * n)
    requires keyb.Length == 64 && keyb[..56] == PC1(key) && inb != keyb && 16 * n <= out.Length
    requires ks == FirstSubkeys(key, 16)
    modifies keyb, out
    ensures out[..] == EachBlock(text, n, BlockCipher(ks)) + old(out[..])[16 * n..]
  {
    ghost var f, was, bits, cd := BlockCipher(ks), out[..], inb[..], keyb[..56];
    for k := 0 to n
      invariant inb[..] == bits && keyb[..56] == cd
      invariant Written(out[..], was, text, k, f)
    {
      ghost var before := out[..];
      EncryptBlock(inb, k, keyb, out, text, n, key, ks);
      BlockDone(before, was, text, k, f, out[..]);
    }
    assert text[..16 * n] == text;
  }

  method DesEncrypt(input: array<CChar>, inlen: nat, key: array<CChar>, keylen: int, out: array<CChar>)
    returns (rc: int)
    requires inlen <= input.Length && inlen <= out.Length && (keylen == 16 ==> 16 <= key.Length)
    modifies out
    ensures rc == if inlen % 16 == 0 && keylen == 16 then 0 else -1
    ensures rc == 0 ==>
              WholeBlocks(old(input[..inlen]), inlen / 16) &&
              out[..] == EncryptText(old(input[..inlen]), inlen / 16, old(key[..16])) + old(out[..])[inlen..]
    ensures rc != 0 ==> out[..] == old(out[..])
  {
    if inlen % 16 != 0 {
      return -1;
    }
    if keylen != 16 {
      return -1;
    }
    Sixteens(inlen);
    var inb := new int[4 * inlen];
    TextToBits(inb, input, inlen / 2);
    assert inb[..8 * (inlen / 2)] == inb[..];
    var keyb := KeyRegister(key);
    ghost var k64 := KeyBlock(key[..16]);
    EncryptBlocks(inb, inlen / 16, keyb, out, input[..inlen], k64, FirstSubkeys(k64, 16));
    return 0;
  }

  method DecryptBlock(inb: array<int>, k: nat, keyb: array<int>, out: array<CChar>,
                      ghost text: seq<CChar>, ghost n: nat, ghost key: Block, ghost ks: seq<Subkey>)
    requires WholeBlocks(text, n) && k < n && inb[..] == TextBits(text, 8 * n)
    requires keyb.Length == 64 && keyb[..56] == PC1(key) && inb != keyb && 16 * n <= out.Length
    requires ks == Reversed(FirstSubkeys(key, 16))
    modifies keyb, out
    ensures keyb[..56] == PC1(key)
    ensures out[..] == old(out[..])[..16 * k] + BlockCipher(ks)(text[16 * k..16 * k + 16]) + old(out[..])[16 * k + 16..]
  {
    ghost var was, bits := out[..], inb[..];
    CipherOfBlock(text, n, k, ks);
    var a := CopyBlock(inb, k);
    assert a[..] == bits[64 * k..64 * k + 64];
    DecipherBits(a, keyb, key);
    assert out[..] == was;
    BitsToText(a, out, 16 * k);
  }

  method DecryptBlocks(inb: array<int>, n: nat, keyb: array<int>, out: array<CChar>,
                       ghost text: seq<CChar>, ghost key: Block, ghost ks: seq<Subkey>)
    requires WholeBlocks(text, n) && inb[..] == TextBits(text, 8 * n)
    requires keyb.Length == 64 && keyb[..56] == PC1(key) && inb != keyb && 16 * n <= out.Length
    requires ks == Reversed(FirstSubkeys(key, 16))
    modifies keyb, out
    ensures out[..] == EachBlock(text, n, BlockCipher(ks)) + old(out[..])[16 * n..]
  {
    ghost var f, was, bits, cd := BlockCipher(ks), out[..], inb[..], keyb[..56];
    for k := 0 to n
      invariant inb[..] == bits && keyb[..56] == cd
      invariant Written(out[..], was, text, k, f)
    {
      ghost var before := out[..];
      DecryptBlock(inb, k, keyb, out, text, n, key, ks);
      BlockDone(before, was, text, k, f, out[..]);
    }
    assert text[..16 * n] == text;
  }

  method DesDecrypt(input: array<CChar>, inlen: nat, key: array<CChar>, keylen: int, out: array<CChar>)
    returns (rc: int)
    requires inlen <= input.Length && inlen <= out.Length && (keylen == 16 ==> 16 <= key.Length)
    modifies out
    ensures rc == if inlen % 16 == 0 && keylen == 16 then 0 else -1
    ensures rc == 0 ==>
              WholeBlocks(old(input[..inlen]), inlen / 16) &&
              out[..] == DecryptText(old(input[..inlen]), inlen / 16, old(key[..16])) + old(out[..])[inlen..]
    ensures rc != 0 ==> out[..] == old(out[..])
  {
    if inlen % 16 != 0 {
      return -1;
    }
    if keylen != 16 {
      return -1;
    }
    Sixteens(inlen);
    var inb := new int[4 * inlen];
    TextToBits(inb, input, inlen / 2);
    assert inb[..8 * (inlen / 2)] == inb[..];
    var keyb := KeyRegister(key);
    ghost var k64 := KeyBlock(key[..16]);
    DecryptBlocks(inb, inlen / 16, keyb, out, input[..inlen], k64, Reversed(FirstSubkeys(k64, 16)));
    return 0;
  }

  /** The results of the three calls are not looked at: with a bad length nothing is written
      and the answer is still 0. */
  method Des3Encrypt(input: array<CChar>, inlen: nat, clave1: array<CChar>, clave2: array<CChar>, keylen: int,
                     out: array<CChar>)
    returns (rc: int)
    requires inlen <= input.Length && inlen <= out.Length
    requires keylen == 16 ==> 16 <= clave1.Length && 16 <= clave2.Length
    modifies out
    ensures rc == 0
    ensures inlen % 16 == 0 && keylen == 16 ==>
              WholeBlocks(old(input[..inlen]), inlen / 16) &&
              out[..] == Encrypt3Text(old(input[..inlen]), inlen / 16, old(clave1[..16]), old(clave2[..16]))
                         + old(out[..])[inlen..]
    ensures inlen % 16 != 0 || keylen != 16 ==> out[..] == old(out[..])
  {
    var tmp1 := new CChar[inlen](_ => 0);
    var tmp2 := new CChar[inlen](_ => 0);
    var _ := DesEncrypt(input, inlen, clave1, keylen, tmp1);
    assert tmp1[..inlen] == tmp1[..];
    var _ := DesDecrypt(tmp1, inlen, clave2, keylen, tmp2);
    assert tmp2[..inlen] == tmp2[..];
    var _ := DesEncrypt(tmp2, inlen, clave1, keylen, out);
    return 0;
  }

  /** The results of the three calls are not looked at: with a bad length nothing is written
      and the answer is still 0. */
  method Des3Decrypt(input: array<CChar>, inlen: nat, clave1: array<CChar>, clave2: array<CChar>, keylen: int,
                     out: array<CChar>)
    returns (rc: int)
    requires inlen <= input.Length && inlen <= out.Length
    requires keylen == 16 ==> 16 <= clave1.Length && 16 <= clave2.Length
    modifies out
    ensures rc == 0
    ensures inlen % 16 == 0 && keylen == 16 ==>
              WholeBlocks(old(input[..inlen]), inlen / 16) &&
              out[..] == Decrypt3Text(old(input[..inlen]), inlen / 16, old(clave1[..16]), old(clave2[..16]))
                         + old(out[..])[inlen..]
    ensures inlen % 16 != 0 || keylen != 16 ==> out[..] == old(out[..])
  {
    var tmp1 := new CChar[inlen](_ => 0);
    var tmp2 := new CChar[inlen](_ => 0);
    var _ := DesDecrypt(input, inlen, clave1, keylen, tmp1);
    assert tmp1[..inlen] == tmp1[..];
    var _ := DesEncrypt(tmp1, inlen, clave2, keylen, tmp2);
    assert tmp2[..inlen] == tmp2[..];
    var _ := DesDecrypt(tmp2, inlen, clave1, keylen, out);
    return 0;
  }
}
