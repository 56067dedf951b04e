/** What FIPS 46-3 says of the tables and functions, in the terms of the standard: which bit goes where, what a box
    makes of six bits, what a round does, and a value of the cipher function. */
module DesStandard {
  import opened DesTables
  import opened DesSpec
  import opened DesTheorems

  // ----- The regular permutations -----

  /** IP read as eight rows of eight: the columns of the block, the even ones first, each from its last bit up. */
  lemma InitialPermutation(b: Block, row: nat, column: nat)
    requires row < 8 && column < 8
    ensures IP(b)[8 * row + column] == if row < 4 then b[57 + 2 * row - 8 * column] else b[48 + 2 * row - 8 * column]
  {
    ItrSelects();
    if row < 4 {
      ItrUpper(row, column);
    } else {
      ItrLower(row, column);
    }
  }

  lemma ItrUpper(row: nat, column: nat)
    requires row < 4 && column < 8
    ensures |DES.ITR| == 64 && DES.ITR[8 * row + column] == 58 + 2 * row - 8 * column
  {
    if row == 0 {} else if row == 1 {} else if row == 2 {} else {}
  }

  lemma ItrLower(row: nat, column: nat)
    requires 4 <= row < 8 && column < 8
    ensures |DES.ITR| == 64 && DES.ITR[8 * row + column] == 49 + 2 * row - 8 * column
  {
    if row == 4 {} else if row == 5 {} else if row == 6 {} else {}
  }

  /** E read as eight rows of six: four bits with the neighbours of the four before and after them. */
  lemma Expansion(r: seq<Bit>, row: nat, column: nat)
    requires |r| == 32 && row < 8 && column < 6
    ensures E(r)[6 * row + column] == r[(4 * row + column + 31) % 32]
  {
    EtrSelects();
    if row < 4 {
      EtrUpper(row, column);
    } else {
      EtrLower(row, column);
    }
  }

  lemma EtrUpper(row: nat, column: nat)
    requires row < 4 && column < 6
    ensures |DES.ETR| == 48 && DES.ETR[6 * row + column] == (4 * row + column + 31) % 32 + 1
  {
    if row == 0 {} else if row == 1 {} else if row == 2 {} else {}
  }

  lemma EtrLower(row: nat, column: nat)
    requires 4 <= row < 8 && column < 6
    ensures |DES.ETR| == 48 && DES.ETR[6 * row + column] == (4 * row + column + 31) % 32 + 1
  {
    if row == 4 {} else if row == 5 {} else if row == 6 {} else {}
  }

  /** PC1 reads columns of the key from the last row up: 1, 2, 3 and half of 4 into C. */
  lemma PermutedChoice1C(key: Block, column: nat, row: nat)
    requires row < 8 && 8 * column + row < 28
    ensures PC1(key)[8 * column + row] == key[56 + column - 8 * row]
  {
    Kt1Selects();
    Kt1C(column, row);
  }

  lemma Kt1C(column: nat, row: nat)
    requires row < 8 && 8 * column + row < 28
    ensures |DES.KT1| == 56 && DES.KT1[8 * column + row] == 57 + column - 8 * row
  {
    if column == 0 {} else if column == 1 {} else if column == 2 {} else {}
  }

  /** And 7, 6, 5 and the other half of 4 into D. */
  lemma PermutedChoice1D(key: Block, column: nat, row: nat)
    requires row < 8 && 8 * column + row < 28
    ensures PC1(key)[28 + 8 * column + row] == if column < 3 then key[62 - column - 8 * row] else key[27 - 8 * row]
  {
    Kt1Selects();
    Kt1D(column, row);
  }

  lemma Kt1D(column: nat, row: nat)
    requires row < 8 && 8 * column + row < 28
    ensures |DES.KT1| == 56
    ensures DES.KT1[28 + 8 * column + row] == if column < 3 then 63 - column - 8 * row else 28 - 8 * row
  {
    if column == 0 {} else if column == 1 {} else if column == 2 {} else {}
  }

  // ----- The irregular ones, by where each bit goes -----

  /** The places of the four output bits of each box after P. */
  const PLACES: seq<nat> :=
    [ 9, 17, 23, 31] + [13, 28,  2, 18] + [24, 16, 30,  6] + [26, 20, 10,  1] +
    [ 8, 14, 25,  3] + [ 4, 29, 11, 19] + [32, 12, 22,  7] + [ 5, 27, 15, 21]

  lemma PermutationP(s: seq<Bit>, i: nat)
    requires |s| == 32 && i < 32
    ensures |PLACES| == 32 && 1 <= PLACES[i] <= 32 && P(s)[PLACES[i] - 1] == s[i]
  {
    PtrSelects();
    PtrAt(i);
  }

  lemma PtrAt(i: nat)
    requires i < 32
    ensures |PLACES| == 32 && 1 <= PLACES[i] <= 32 && |DES.PTR| == 32 && DES.PTR[PLACES[i] - 1] == i + 1
  {
    if i < 8 {} else if i < 16 {} else if i < 24 {} else {}
  }

  /** The places of the bits of C and of D in a subkey; 0 for the eight bits that are dropped. */
  const FROM_C: seq<nat> :=
    [ 5, 24,  7, 16,  6, 10, 20, 18,  0, 12,  3, 15, 23,  1] +
    [ 9, 19,  2,  0, 14, 22, 11,  0, 13,  4,  0, 17, 21,  8]

  const FROM_D: seq<nat> :=
    [47, 31, 27, 48, 35, 41,  0, 46, 28,  0, 39, 32, 25, 44] +
    [ 0, 37, 34, 43, 29, 36, 38, 45, 33, 26, 42,  0, 30, 40]

  lemma PermutedChoice2(cd: seq<Bit>, p: nat)
    requires |cd| == 56 && p < 28
    ensures |FROM_C| == 28 && FROM_C[p] <= 24 && (FROM_C[p] > 0 ==> PC2(cd)[FROM_C[p] - 1] == cd[p])
    ensures |FROM_D| == 28 && FROM_D[p] <= 48 && (FROM_D[p] > 0 ==> PC2(cd)[FROM_D[p] - 1] == cd[28 + p])
  {
    Kt2Selects();
    Kt2AtC(p);
    Kt2AtD(p);
  }

  lemma Kt2AtC(p: nat)
    requires p < 28
    ensures |FROM_C| == 28 && FROM_C[p] <= 24 && |DES.KT2| == 48 && (FROM_C[p] > 0 ==> DES.KT2[FROM_C[p] - 1] == p + 1)
  {
    if p < 7 {} else if p < 14 {} else if p < 21 {} else {}
  }

  lemma Kt2AtD(p: nat)
    requires p < 28
    ensures |FROM_D| == 28 && FROM_D[p] <= 48 && |DES.KT2| == 48 && (FROM_D[p] > 0 ==> DES.KT2[FROM_D[p] - 1] == 29 + p)
  {
    if p < 7 {} else if p < 14 {} else if p < 21 {} else {}
  }

  // ----- Rounds and keys -----

  /** A round moves the right half to the left, and adds the cipher function of it to the left half. */
  lemma RoundHalves(lr: Block, k: Subkey)
    ensures Round(lr, k)[..32] == lr[32..]
    ensures forall i :: 0 <= i < 32 ==> Round(lr, k)[32 + i] == Xor(lr[i], CipherF(lr[32..], k)[i])
  {}

  /** What the rounds leave is the result, with its halves exchanged, before the final permutation. */
  lemma {:induction false} PreOutput(b: Block, ks: seq<Subkey>)
    ensures IP(Crypt(b, ks)) == Rounds(IP(b), ks)[32..] + Rounds(IP(b), ks)[..32]
  {
    InitialAndFinalAreInverse(SwapHalves(Rounds(IP(b), ks)));
  }

  /** The halves after `n` rounds of enciphering, and of deciphering. */
  ghost function Enciphered(b: Block, key: Block, n: nat): Block
    requires n <= 16
  {
    if n == 0 then IP(b) else Round(Enciphered(b, key, n - 1), SubkeyOf(key, n))
  }

  ghost function Deciphered(b: Block, key: Block, n: nat): Block
    requires n <= 16
  {
    if n == 0 then IP(b) else Round(Deciphered(b, key, n - 1), SubkeyOf(key, 17 - n))
  }

  lemma {:induction false} RoundsForward(b: Block, key: Block, n: nat)
    requires n <= 16
    ensures Rounds(IP(b), FirstSubkeys(key, n)) == Enciphered(b, key, n)
  {
    if n > 0 {
      RoundsForward(b, key, n - 1);
      OneMoreSubkey(key, n - 1);
      OneMoreRound(IP(b), FirstSubkeys(key, n - 1), SubkeyOf(key, n));
    }
  }

  lemma {:induction false} RoundsBackward(b: Block, key: Block, ks: seq<Subkey>, n: nat)
    requires n <= 16 && ks == Reversed(FirstSubkeys(key, 16))
    ensures Rounds(IP(b), ks[..n]) == Deciphered(b, key, n)
  {
    if n > 0 {
      RoundsBackward(b, key, ks, n - 1);
      OneMoreReversedSubkey(key, 16 - n);
      OneMoreRound(IP(b), ks[..n - 1], SubkeyOf(key, 17 - n));
    }
  }

  /** Enciphering ends with the rounds of all subkeys, the first one first, deciphering with the last one first; both
      then exchange the halves and undo the initial permutation. */
  lemma {:induction false} EndOfRounds(b: Block, key: Block)
    ensures IP(Encipher(b, key)) == SwapHalves(Rounds(IP(b), FirstSubkeys(key, 16)))
    ensures IP(Decipher(b, key)) == SwapHalves(Rounds(IP(b), Reversed(FirstSubkeys(key, 16))))
  {
    PreOutput(b, FirstSubkeys(key, 16));
    PreOutput(b, Reversed(FirstSubkeys(key, 16)));
  }

  /** One place to the left: the first bit of each half becomes its last. */
  lemma LeftByOne(cd: seq<int>, i: nat)
    requires |cd| == 56 && i < 28
    ensures RotateLeft(cd, 1)[i] == cd[if i == 27 then 0 else i + 1]
    ensures RotateLeft(cd, 1)[28 + i] == cd[if i == 27 then 28 else 29 + i]
  {}

  function Places(n: nat): nat {
    if n == 1 || n == 2 || n == 9 || n == 16 then 1 else 2
  }

  /** The key registers are rotated by one place in rounds 1, 2, 9 and 16 and by two in all others. */
  lemma RotationOfRound(n: nat)
    requires 1 <= n <= 16
    ensures Turns(n) == Places(n)
  {
    NRotShape();
  }

  lemma NextShift(n: nat)
    requires 1 <= n <= 16
    ensures Shifts(n) == Shifts(n - 1) + Turns(n)
  {}

  /** The subkey of a round is chosen from the registers of the round before, rotated on by one or two places. */
  lemma {:induction false} SubkeyFollows(key: Block, n: nat)
    requires 1 <= n <= 16
    ensures SubkeyOf(key, n) == PC2(RotateLeft(RotateLeft(PC1(key), Shifts(n - 1)), Places(n)))
  {
    NextShift(n);
    RotationOfRound(n);
    RotationsAdd(PC1(key), Shifts(n - 1), Turns(n));
  }

  /** The last subkey comes from the registers as they were before the first round. */
  lemma {:induction false} LastSubkey(key: Block)
    ensures Shifts(0) == 0 && SubkeyOf(key, 16) == PC2(PC1(key))
  {
    SixteenRoundsTurnOnce();
    FullTurn(PC1(key));
  }

  // ----- A value of the cipher function -----

  const ZEROS: seq<Bit> := seq(48, _ => 0)

  /** The cipher function of 32 zero bits under the key of 48 zero bits, D8D8DBBC. */
  const OF_ZEROS: seq<Bit> :=
    [1, 1, 0, 1, 1, 0, 0, 0] + [1, 1, 0, 1, 1, 0, 0, 0] + [1, 1, 0, 1, 1, 0, 1, 1] + [1, 0, 1, 1, 1, 1, 0, 0]

  /** The first entries of the eight boxes. */
  const FIRST: seq<int> := [14, 15, 10, 7, 2, 12, 4, 13]

  lemma FirstEntries(k: nat)
    requires k < 8
    ensures |FIRST| == 8 && S(k, ZEROS[6 * k..6 * k + 6]) == FIRST[k]
  {
    CajaSShape();
    if k < 2 {} else if k < 4 {} else if k < 6 {} else {}
  }

  lemma FirstPermuted(i: nat)
    requires i < 32
    ensures |FIRST| == 8 && |OF_ZEROS| == 32 && P(Nibbles(FIRST))[i] == OF_ZEROS[i]
  {
    if i < 16 {
      UpperPermuted(i);
    } else {
      LowerPermuted(i);
    }
  }

  lemma UpperPermuted(i: nat)
    requires i < 16
    ensures |FIRST| == 8 && |OF_ZEROS| == 32 && P(Nibbles(FIRST))[i] == OF_ZEROS[i]
  {
    PtrSelects();
    if i < 4 {} else if i < 8 {} else if i < 12 {} else {}
  }

  lemma LowerPermuted(i: nat)
    requires 16 <= i < 32
    ensures |FIRST| == 8 && |OF_ZEROS| == 32 && P(Nibbles(FIRST))[i] == OF_ZEROS[i]
  {
    PtrSelects();
    if i < 20 {} else if i < 24 {} else if i < 28 {} else {}
  }

  lemma ZerosMixed()
    ensures XorAll(E(ZEROS[..32]), ZEROS) == ZEROS
  {
    EtrSelects();
  }

  lemma ZerosBoxed()
    ensures |FIRST| == 8 && BoxValues(ZEROS) == FIRST
  {
    forall k | 0 <= k < 8 ensures |FIRST| == 8 && BoxValues(ZEROS)[k] == FIRST[k] {
      FirstEntries(k);
    }
  }

  lemma ZerosPermuted()
    ensures |FIRST| == 8 && |OF_ZEROS| == 32 && P(Nibbles(FIRST)) == OF_ZEROS
  {
    forall i | 0 <= i < 32 ensures |FIRST| == 8 && |OF_ZEROS| == 32 && P(Nibbles(FIRST))[i] == OF_ZEROS[i] {
      FirstPermuted(i);
    }
  }

  lemma CipherFOfZeros()
    ensures |ZEROS| == 48 && |OF_ZEROS| == 32 && CipherF(ZEROS[..32], ZEROS) == OF_ZEROS
  {
    ZerosMixed();
    ZerosBoxed();
    ZerosPermuted();
  }
}
