/** What DES promises, proved of the functional description for every key and every block. */
module DesTheorems {
  import opened DesTables
  import opened DesSpec

  // ----- Initial and final permutation are each other's inverse -----

  lemma ItrAfterFtrLow(i: nat)
    requires i < 32
    ensures 1 <= DES.FTR[i] <= 64 && DES.ITR[DES.FTR[i] - 1] == i + 1
  {
    if i < 8 {} else if i < 16 {} else if i < 24 {} else {}
  }

  lemma ItrAfterFtrHigh(i: nat)
    requires 32 <= i < 64
    ensures 1 <= DES.FTR[i] <= 64 && DES.ITR[DES.FTR[i] - 1] == i + 1
  {
    if i < 40 {} else if i < 48 {} else if i < 56 {} else {}
  }

  lemma FtrAfterItrLow(i: nat)
    requires i < 32
    ensures 1 <= DES.ITR[i] <= 64 && DES.FTR[DES.ITR[i] - 1] == i + 1
  {
    if i < 8 {} else if i < 16 {} else if i < 24 {} else {}
  }

  lemma FtrAfterItrHigh(i: nat)
    requires 32 <= i < 64
    ensures 1 <= DES.ITR[i] <= 64 && DES.FTR[DES.ITR[i] - 1] == i + 1
  {
    if i < 40 {} else if i < 48 {} else if i < 56 {} else {}
  }

  lemma InverseAt(b: Block, i: nat)
    requires i < 64
    ensures IP(FP(b))[i] == b[i] && FP(IP(b))[i] == b[i]
  {
    if i < 32 {
      ItrAfterFtrLow(i);
      FtrAfterItrLow(i);
    } else {
      ItrAfterFtrHigh(i);
      FtrAfterItrHigh(i);
    }
    ItrSelects();
    FtrSelects();
  }

  lemma InitialAndFinalAreInverse(b: Block)
    ensures IP(FP(b)) == b && FP(IP(b)) == b
  {
    forall i | 0 <= i < 64 ensures IP(FP(b))[i] == b[i] && FP(IP(b))[i] == b[i] {
      InverseAt(b, i);
    }
  }

  // ----- Feistel inversion -----

  lemma XorTwice(a: seq<Bit>, x: seq<Bit>)
    requires |a| == |x|
    ensures XorAll(XorAll(a, x), x) == a
  {}

  lemma Halves(l: seq<Bit>, r: seq<Bit>)
    requires |l| == |r| == 32
    ensures (l + r)[..32] == l && (l + r)[32..] == r
  {}

  lemma RoundUndoesRound(lr: Block, k: Subkey)
    ensures Round(SwapHalves(Round(lr, k)), k) == SwapHalves(lr)
  {
    var l, r := lr[..32], lr[32..];
    var x := CipherF(r, k);
    Halves(r, XorAll(l, x));
    Halves(XorAll(l, x), r);
    XorTwice(l, x);
  }

  lemma {:induction false} RoundsSplit(lr: Block, ks: seq<Subkey>, more: seq<Subkey>)
    ensures Rounds(lr, ks + more) == Rounds(Rounds(lr, ks), more)
    decreases |ks|
  {
    if ks == [] {
      assert ks + more == more;
    } else {
      assert (ks + more)[1..] == ks[1..] + more;
      RoundsSplit(Round(lr, ks[0]), ks[1..], more);
    }
  }

  lemma {:induction false} ReversedRoundsUndoRounds(lr: Block, ks: seq<Subkey>)
    ensures Rounds(SwapHalves(Rounds(lr, ks)), Reversed(ks)) == SwapHalves(lr)
    decreases |ks|
  {
    if ks == [] {
    } else {
      var next := Round(lr, ks[0]);
      ReversedRoundsUndoRounds(next, ks[1..]);
      assert Reversed(ks) == Reversed(ks[1..]) + [ks[0]];
      RoundsSplit(SwapHalves(Rounds(lr, ks)), Reversed(ks[1..]), [ks[0]]);
      assert Rounds(SwapHalves(next), [ks[0]]) == Round(SwapHalves(next), ks[0]);
      RoundUndoesRound(lr, ks[0]);
    }
  }

  /** For any list of round keys at all, the reversed list deciphers. */
  lemma ReversedKeysDecipher(b: Block, ks: seq<Subkey>)
    ensures Crypt(Crypt(b, ks), Reversed(ks)) == b
  {
    var pre := SwapHalves(Rounds(IP(b), ks));
    InitialAndFinalAreInverse(pre);
    ReversedRoundsUndoRounds(IP(b), ks);
    assert SwapHalves(SwapHalves(IP(b))) == IP(b);
    InitialAndFinalAreInverse(b);
  }

  lemma DecipherAfterEncipher(b: Block, key: Block)
    ensures Decipher(Encipher(b, key), key) == b
    ensures Encipher(Decipher(b, key), key) == b
  {
    var ks := FirstSubkeys(key, 16);
    ReversedKeysDecipher(b, ks);
    ReversedKeysDecipher(b, Reversed(ks));
    assert Reversed(Reversed(ks)) == ks;
  }

  // ----- Complementation -----

  lemma XorOfComplements(a: seq<Bit>, b: seq<Bit>)
    requires |a| == |b|
    ensures XorAll(NotAll(a), NotAll(b)) == XorAll(a, b)
    ensures XorAll(NotAll(a), b) == NotAll(XorAll(a, b))
  {}

  lemma CipherFComplement(r: seq<Bit>, k: seq<Bit>)
    requires |r| == 32 && |k| == 48
    ensures CipherF(NotAll(r), NotAll(k)) == CipherF(r, k)
  {
    EtrSelects();
    assert E(NotAll(r)) == NotAll(E(r));
    XorOfComplements(E(r), k);
  }

  lemma RoundComplement(lr: Block, k: Subkey)
    ensures Round(NotAll(lr), NotAll(k)) == NotAll(Round(lr, k))
  {
    assert NotAll(lr)[32..] == NotAll(lr[32..]);
    assert NotAll(lr)[..32] == NotAll(lr[..32]);
    CipherFComplement(lr[32..], k);
    XorOfComplements(lr[..32], CipherF(lr[32..], k));
  }

  function NotEach(ks: seq<Subkey>): (r: seq<Subkey>)
    ensures |r| == |ks|
  {
    seq(|ks|, i requires 0 <= i < |ks| => NotAll(ks[i]))
  }

  lemma {:induction false} RoundsComplement(lr: Block, ks: seq<Subkey>)
    ensures Rounds(NotAll(lr), NotEach(ks)) == NotAll(Rounds(lr, ks))
    decreases |ks|
  {
    if ks == [] {
    } else {
      RoundComplement(lr, ks[0]);
      assert NotEach(ks)[1..] == NotEach(ks[1..]);
      RoundsComplement(Round(lr, ks[0]), ks[1..]);
    }
  }

  lemma SubkeyComplement(key: Block, n: nat)
    requires n <= 16
    ensures SubkeyOf(NotAll(key), n) == NotAll(SubkeyOf(key, n))
  {
    Kt1Selects();
    Kt2Selects();
    var cd := PC1(key);
    assert PC1(NotAll(key)) == NotAll(cd);
    assert RotateLeft(NotAll(cd), Shifts(n)) == NotAll(RotateLeft(cd, Shifts(n)));
  }

  lemma SubkeysComplement(key: Block)
    ensures FirstSubkeys(NotAll(key), 16) == NotEach(FirstSubkeys(key, 16))
    ensures Reversed(FirstSubkeys(NotAll(key), 16)) == NotEach(Reversed(FirstSubkeys(key, 16)))
  {
    var ks := FirstSubkeys(key, 16);
    forall i | 0 <= i < 16 ensures FirstSubkeys(NotAll(key), 16)[i] == NotAll(ks[i]) {
      SubkeyComplement(key, i + 1);
    }
    assert FirstSubkeys(NotAll(key), 16) == NotEach(ks);
    assert Reversed(NotEach(ks)) == NotEach(Reversed(ks));
  }

  lemma CryptComplement(b: Block, ks: seq<Subkey>)
    ensures Crypt(NotAll(b), NotEach(ks)) == NotAll(Crypt(b, ks))
  {
    PermutationsComplement(b);
    RoundsComplement(IP(b), ks);
    var lr := Rounds(IP(b), ks);
    SwapComplement(lr);
    PermutationsComplement(SwapHalves(lr));
  }

  lemma PermutationsComplement(b: Block)
    ensures IP(NotAll(b)) == NotAll(IP(b)) && FP(NotAll(b)) == NotAll(FP(b))
  {
    ItrSelects();
    FtrSelects();
  }

  lemma SwapComplement(lr: Block)
    ensures SwapHalves(NotAll(lr)) == NotAll(SwapHalves(lr))
  {}

  // ----- One round and one subkey more -----

  lemma OneMoreSubkey(key: Block, n: nat)
    requires n < 16
    ensures FirstSubkeys(key, n + 1) == FirstSubkeys(key, n) + [SubkeyOf(key, n + 1)]
  {}

  lemma OneMoreReversedSubkey(key: Block, n: nat)
    requires n < 16
    ensures Reversed(FirstSubkeys(key, 16))[..16 - n] ==
            Reversed(FirstSubkeys(key, 16))[..15 - n] + [SubkeyOf(key, n + 1)]
  {}

  lemma {:induction false} OneMoreRound(lr: Block, ks: seq<Subkey>, k: Subkey)
    ensures Rounds(lr, ks + [k]) == Round(Rounds(lr, ks), k)
  {
    RoundsSplit(lr, ks, [k]);
    assert Rounds(Rounds(lr, ks), [k]) == Round(Rounds(lr, ks), k);
  }

  // ----- Parity bits -----

  /** The keys agree everywhere but in bits 8, 16, ..., 64. */
  ghost predicate SameButParity(key: Block, other: Block) {
    forall i :: 0 <= i < 64 && i % 8 != 7 ==> key[i] == other[i]
  }

  lemma Kt1SkipsParity(i: nat)
    requires i < 56
    ensures 1 <= DES.KT1[i] <= 64 && (DES.KT1[i] - 1) % 8 != 7
  {}

  /** The round keys, and so everything computed with them, do not depend on the parity bits. */
  lemma ParityIsIgnored(key: Block, other: Block)
    requires SameButParity(key, other)
    ensures FirstSubkeys(key, 16) == FirstSubkeys(other, 16)
  {
    Kt1Selects();
    forall i | 0 <= i < 56 ensures PC1(key)[i] == PC1(other)[i] {
      Kt1SkipsParity(i);
    }
    assert PC1(key) == PC1(other);
  }

  // ----- The key register comes back -----

  lemma TurnsAdd(h: nat, s: nat, t: nat)
    ensures ((h + t) % 28 + s) % 28 == (h + s + t) % 28
  {}

  lemma RotationsAddAt(cd: seq<int>, s: nat, t: nat, i: nat)
    requires |cd| == 56 && i < 56
    ensures RotateLeft(RotateLeft(cd, s), t)[i] == RotateLeft(cd, s + t)[i]
  {
    TurnsAdd(if i < 28 then i else i - 28, s, t);
  }

  lemma RotationsAdd(cd: seq<int>, s: nat, t: nat)
    requires |cd| == 56
    ensures RotateLeft(RotateLeft(cd, s), t) == RotateLeft(cd, s + t)
  {
    forall i | 0 <= i < 56 ensures RotateLeft(RotateLeft(cd, s), t)[i] == RotateLeft(cd, s + t)[i] {
      RotationsAddAt(cd, s, t, i);
    }
  }

  lemma FullTurn(cd: seq<int>)
    requires |cd| == 56
    ensures RotateLeft(cd, 28) == cd && RotateLeft(cd, 0) == cd
  {
    forall i | 0 <= i < 56 ensures RotateLeft(cd, 28)[i] == cd[i] && RotateLeft(cd, 0)[i] == cd[i] {
      var h := if i < 28 then i else i - 28;
      assert (h + 28) % 28 == h && (h + 0) % 28 == h;
    }
  }

  lemma SixteenRoundsTurnOnce()
    ensures Shifts(16) == 28
  {
    assert Shifts(2) == 2 && Shifts(4) == 6 && Shifts(6) == 10 && Shifts(8) == 14;
    assert Shifts(10) == 17 && Shifts(12) == 21 && Shifts(14) == 25;
  }
}
