/** DES as FIPS 46-3 describes it, over sequences of bits: the sections "Enciphering",
    "Deciphering", "The Cipher Function f" and Appendix 1. Nothing here knows about
    registers that are rotated in place or about hexadecimal text. */
module DesSpec {
  import opened DesTables

  type Bit = b: int | 0 <= b <= 1

  function Xor(a: Bit, b: Bit): Bit {
    if a == b then 0 else 1
  }

  function Not(a: Bit): Bit {
    1 - a
  }

  function XorAll(a: seq<Bit>, b: seq<Bit>): (r: seq<Bit>)
    requires |a| == |b|
    ensures |r| == |a|
  {
    seq(|a|, i requires 0 <= i < |a| => Xor(a[i], b[i]))
  }

  function NotAll(a: seq<Bit>): (r: seq<Bit>)
    ensures |r| == |a|
  {
    seq(|a|, i requires 0 <= i < |a| => Not(a[i]))
  }

  predicate IsBits(s: seq<int>) {
    forall i :: 0 <= i < |s| ==> 0 <= s[i] <= 1
  }

  /** Every entry of `t` is a 1-based position in a row of `n` items. */
  ghost predicate Selects(t: seq<int>, n: int) {
    forall i :: 0 <= i < |t| ==> 1 <= t[i] <= n
  }

  // ----- The tables, one lemma each so that no proof sees a table it does not need -----

  lemma ItrSelects()
    ensures |DES.ITR| == 64 && Selects(DES.ITR, 64)
  {}

  lemma FtrSelects()
    ensures |DES.FTR| == 64 && Selects(DES.FTR, 64)
  {}

  lemma SwapSelects()
    ensures |DES.SWAP| == 64 && Selects(DES.SWAP, 64)
  {}

  lemma Kt1Selects()
    ensures |DES.KT1| == 56 && Selects(DES.KT1, 64)
  {}

  lemma Kt2Selects()
    ensures |DES.KT2| == 48 && Selects(DES.KT2, 56)
  {}

  lemma EtrSelects()
    ensures |DES.ETR| == 48 && Selects(DES.ETR, 32)
  {}

  lemma PtrSelects()
    ensures |DES.PTR| == 32 && Selects(DES.PTR, 32)
  {}

  lemma FirstBoxShapes()
    ensures |DES.S1| == |DES.S2| == |DES.S3| == |DES.S4| == 64
  {}

  lemma LaterBoxShapes()
    ensures |DES.S5| == |DES.S6| == |DES.S7| == |DES.S8| == 64
  {}

  lemma CajaSShape()
    ensures |DES.CAJA_S| == 8 && forall k :: 0 <= k < 8 ==> |DES.CAJA_S[k]| == 64
  {
    FirstBoxShapes();
    LaterBoxShapes();
  }

  lemma NRotShape()
    ensures |DES.NROT| == 16 && forall i :: 0 <= i < 16 ==> 1 <= DES.NROT[i] <= 2
  {}

  // ----- Primitive functions: each picks its bits in the order of one table -----

  function IP(b: seq<Bit>): (r: seq<Bit>)
    requires |b| == 64
    ensures |r| == 64
  {
    ItrSelects();
    seq(64, i requires 0 <= i < 64 => b[DES.ITR[i] - 1])
  }

  function FP(b: seq<Bit>): (r: seq<Bit>)
    requires |b| == 64
    ensures |r| == 64
  {
    FtrSelects();
    seq(64, i requires 0 <= i < 64 => b[DES.FTR[i] - 1])
  }

  function PC1(key: seq<Bit>): (r: seq<Bit>)
    requires |key| == 64
    ensures |r| == 56
  {
    Kt1Selects();
    seq(56, i requires 0 <= i < 56 => key[DES.KT1[i] - 1])
  }

  function PC2(cd: seq<Bit>): (r: seq<Bit>)
    requires |cd| == 56
    ensures |r| == 48
  {
    Kt2Selects();
    seq(48, i requires 0 <= i < 48 => cd[DES.KT2[i] - 1])
  }

  function E(r: seq<Bit>): (e: seq<Bit>)
    requires |r| == 32
    ensures |e| == 48
  {
    EtrSelects();
    seq(48, i requires 0 <= i < 48 => r[DES.ETR[i] - 1])
  }

  function P(s: seq<Bit>): (p: seq<Bit>)
    requires |s| == 32
    ensures |p| == 32
  {
    PtrSelects();
    seq(32, i requires 0 <= i < 32 => s[DES.PTR[i] - 1])
  }

  /** S-box `k`: the outer bits of the block choose one of four rows and the inner four
      bits one of sixteen columns. */
  function S(k: nat, block: seq<Bit>): int
    requires k < 8 && |block| == 6
  {
    CajaSShape();
    var b: seq<int> := block;
    var row := 2 * b[0] + b[5];
    var column := 8 * b[1] + 4 * b[2] + 2 * b[3] + b[4];
    DES.CAJA_S[k][16 * row + column]
  }

  /** Bit `i` of a four-bit value, most significant first. */
  function NibbleBit(v: int, i: nat): Bit
    requires i < 4
  {
    if i == 0 then (v / 8) % 2 else if i == 1 then (v / 4) % 2 else if i == 2 then (v / 2) % 2 else v % 2
  }

  /** The values of the eight S-boxes on eight blocks of six bits. */
  function BoxValues(y: seq<Bit>): (r: seq<int>)
    requires |y| == 48
    ensures |r| == 8
  {
    seq(8, k requires 0 <= k < 8 => S(k, y[6 * k..6 * k + 6]))
  }

  function Nibbles(values: seq<int>): (r: seq<Bit>)
    requires |values| == 8
    ensures |r| == 32
  {
    seq(32, i requires 0 <= i < 32 => NibbleBit(values[i / 4], i % 4))
  }

  function Substitute(y: seq<Bit>): (r: seq<Bit>)
    requires |y| == 48
    ensures |r| == 32
  {
    Nibbles(BoxValues(y))
  }

  /** The cipher function f(R, K). */
  function CipherF(r: seq<Bit>, k: seq<Bit>): (x: seq<Bit>)
    requires |r| == 32 && |k| == 48
    ensures |x| == 32
  {
    P(Substitute(XorAll(E(r), k)))
  }

  // ----- Enciphering -----

  type Block = b: seq<Bit> | |b| == 64 witness seq(64, _ => 0)
  type Subkey = k: seq<Bit> | |k| == 48 witness seq(48, _ => 0)

  /** One iteration: L' = R and R' = L xor f(R, K). */
  function Round(lr: Block, k: Subkey): Block {
    lr[32..] + XorAll(lr[..32], CipherF(lr[32..], k))
  }

  function Rounds(lr: Block, ks: seq<Subkey>): Block
    decreases |ks|
  {
    if ks == [] then lr else Rounds(Round(lr, ks[0]), ks[1..])
  }

  function SwapHalves(lr: Block): Block {
    lr[32..] + lr[..32]
  }

  /** A block under a list of round keys: initial permutation, the rounds, the preoutput
      R16 L16, and the inverse of the initial permutation. */
  function Crypt(block: Block, ks: seq<Subkey>): Block {
    FP(SwapHalves(Rounds(IP(block), ks)))
  }

  // ----- Key schedule -----

  /** Both 28-bit halves of a key register, rotated left `s` places. */
  function RotateLeft(cd: seq<int>, s: nat): (r: seq<int>)
    requires |cd| == 56
    ensures |r| == 56
    ensures IsBits(cd) ==> IsBits(r)
  {
    seq(56, i requires 0 <= i < 56 => if i < 28 then cd[(i + s) % 28] else cd[28 + (i - 28 + s) % 28])
  }

  /** Left shifts of iteration `n`. */
  function Turns(n: nat): (r: nat)
    requires 1 <= n <= 16
    ensures 1 <= r <= 2
  {
    NRotShape();
    DES.NROT[n - 1]
  }

  /** Left shifts done before the subkey of iteration `n` is taken. */
  function Shifts(n: nat): nat
    requires n <= 16
  {
    if n == 0 then 0 else Shifts(n - 1) + Turns(n)
  }

  /** K_n, for n from 1 to 16. */
  function SubkeyOf(key: Block, n: nat): Subkey
    requires n <= 16
  {
    PC2(RotateLeft(PC1(key), Shifts(n)))
  }

  /** K_1 to K_n. */
  function FirstSubkeys(key: Block, n: nat): (ks: seq<Subkey>)
    requires n <= 16
    ensures |ks| == n
  {
    seq(n, i requires 0 <= i < n => SubkeyOf(key, i + 1))
  }

  function Reversed<T>(s: seq<T>): (r: seq<T>)
    ensures |r| == |s|
  {
    seq(|s|, i requires 0 <= i < |s| => s[|s| - 1 - i])
  }

  function Encipher(block: Block, key: Block): Block {
    Crypt(block, FirstSubkeys(key, 16))
  }

  /** "The same algorithm applied to the encrypted block, with the keys in reverse order." */
  function Decipher(block: Block, key: Block): Block {
    Crypt(block, Reversed(FirstSubkeys(key, 16)))
  }
}
