/** The four entry points of sec.c as functions from text to text, and what they promise
    for every key and every length. */
module DesText {
  import opened Common
  import opened DesSpec
  import opened DesTheorems
  import opened HexText

  /** Sixteen characters: one block of text, or one key. */
  type Text16 = t: seq<CChar> | |t| == 16 witness seq(16, _ => 48)

  ghost predicate WholeBlocks(t: seq<CChar>, n: nat) {
    |t| == 16 * n
  }

  // ----- Applying something to each block of sixteen characters -----

  type BlockMap = Text16 -> Text16

  ghost function EachBlock(t: seq<CChar>, n: nat, f: BlockMap): (r: seq<CChar>)
    requires WholeBlocks(t, n)
    ensures WholeBlocks(r, n)
    decreases |t|
  {
    if n == 0 then [] else f(t[..16]) + EachBlock(t[16..], n - 1, f)
  }

  lemma {:induction false} EachBlockCons(b: Text16, t: seq<CChar>, n: nat, f: BlockMap)
    requires WholeBlocks(t, n)
    ensures EachBlock(b + t, n + 1, f) == f(b) + EachBlock(t, n, f)
  {
    assert (b + t)[..16] == b && (b + t)[16..] == t;
  }

  /** Blocks do not influence each other. */
  lemma {:induction false} EachBlockAppend(t: seq<CChar>, n: nat, u: seq<CChar>, m: nat, f: BlockMap)
    requires WholeBlocks(t, n) && WholeBlocks(u, m)
    ensures EachBlock(t + u, n + m, f) == EachBlock(t, n, f) + EachBlock(u, m, f)
  {
    AppendsAlways(t, n, u, m, f);
  }

  ghost predicate Appends(t: seq<CChar>, n: nat, u: seq<CChar>, m: nat, f: BlockMap)
    requires WholeBlocks(t, n) && WholeBlocks(u, m)
  {
    EachBlock(t + u, n + m, f) == EachBlock(t, n, f) + EachBlock(u, m, f)
  }

  lemma {:induction false} AppendsAlways(t: seq<CChar>, n: nat, u: seq<CChar>, m: nat, f: BlockMap)
    requires WholeBlocks(t, n) && WholeBlocks(u, m)
    ensures Appends(t, n, u, m, f)
    decreases n
  {
    if n == 0 {
      assert t + u == u;
    } else {
      var b: Text16, rest := t[..16], t[16..];
      AppendsAlways(rest, n - 1, u, m, f);
      OneBlockInFront(b, rest, n - 1, u, m, f);
      assert t == b + rest;
    }
  }

  lemma {:induction false} OneBlockInFront(b: Text16, t: seq<CChar>, n: nat, u: seq<CChar>, m: nat, f: BlockMap)
    requires WholeBlocks(t, n) && WholeBlocks(u, m) && Appends(t, n, u, m, f)
    ensures Appends(b + t, n + 1, u, m, f)
  {
    Associate(b, t, u);
    EachBlockCons(b, t, n, f);
    EachBlockCons(b, t + u, n + m, f);
    Associate(f(b), EachBlock(t, n, f), EachBlock(u, m, f));
  }

  lemma {:induction false} EachBlockCommutes(t: seq<CChar>, n: nat, f: BlockMap, g: BlockMap, f': BlockMap, g': BlockMap)
    requires WholeBlocks(t, n)
    requires forall b: Text16 {:trigger g(f(b))} :: g(f(b)) == f'(g'(b))
    ensures EachBlock(EachBlock(t, n, f), n, g) == EachBlock(EachBlock(t, n, g'), n, f')
    decreases n
  {
    if n == 0 {
    } else {
      assert t == t[..16] + t[16..];
      EachBlockCommutes(t[16..], n - 1, f, g, f', g');
      OneMoreCommutes(t[..16], t[16..], n - 1, f, g, f', g');
    }
  }

  lemma {:induction false} OneMoreCommutes(b: Text16, t: seq<CChar>, n: nat, f: BlockMap, g: BlockMap, f': BlockMap, g': BlockMap)
    requires WholeBlocks(t, n) && g(f(b)) == f'(g'(b))
    requires EachBlock(EachBlock(t, n, f), n, g) == EachBlock(EachBlock(t, n, g'), n, f')
    ensures EachBlock(EachBlock(b + t, n + 1, f), n + 1, g) == EachBlock(EachBlock(b + t, n + 1, g'), n + 1, f')
  {
    EachBlockTwice(b, t, n, f, g);
    EachBlockTwice(b, t, n, g', f');
  }

  /** Doing f and then g to each block restores exactly the hexadecimal texts. */
  ghost predicate Restores(t: seq<CChar>, n: nat, f: BlockMap, g: BlockMap)
    requires WholeBlocks(t, n)
  {
    EachBlock(EachBlock(t, n, f), n, g) == t <==> IsHexText(t)
  }

  /** If this is so for single blocks, it is for texts. */
  lemma {:induction false} EachBlockInverse(t: seq<CChar>, n: nat, f: BlockMap, g: BlockMap)
    requires WholeBlocks(t, n)
    requires forall b: Text16 {:trigger g(f(b))} :: g(f(b)) == b <==> IsHexText(b)
    ensures Restores(t, n, f, g)
    decreases n
  {
    if n > 0 {
      var b: Text16, rest := t[..16], t[16..];
      EachBlockInverse(rest, n - 1, f, g);
      assert g(f(b)) == b <==> IsHexText(b);
      OneMoreInverse(b, rest, n - 1, f, g);
      assert t == b + rest;
    }
  }

  lemma {:induction false} OneMoreInverse(b: Text16, t: seq<CChar>, n: nat, f: BlockMap, g: BlockMap)
    requires WholeBlocks(t, n) && (g(f(b)) == b <==> IsHexText(b)) && Restores(t, n, f, g)
    ensures Restores(b + t, n + 1, f, g)
  {
    EachBlockTwice(b, t, n, f, g);
    SplitEquality(g(f(b)), EachBlock(EachBlock(t, n, f), n, g), b, t);
    SplitHex(b, t);
  }

  lemma {:induction false} EachBlockTwice(b: Text16, t: seq<CChar>, n: nat, f: BlockMap, g: BlockMap)
    requires WholeBlocks(t, n)
    ensures EachBlock(EachBlock(b + t, n + 1, f), n + 1, g) == g(f(b)) + EachBlock(EachBlock(t, n, f), n, g)
  {
    EachBlockCons(b, t, n, f);
    EachBlockCons(f(b), EachBlock(t, n, f), n, g);
  }

  lemma SplitEquality(a: seq<CChar>, b: seq<CChar>, c: seq<CChar>, d: seq<CChar>)
    requires |a| == |c|
    ensures a + b == c + d <==> a == c && b == d
  {
    if a + b == c + d {
      assert a == (a + b)[..|a|] && b == (a + b)[|a|..];
      assert c == (c + d)[..|a|] && d == (c + d)[|a|..];
    }
  }

  lemma SplitHex(a: seq<CChar>, b: seq<CChar>)
    ensures IsHexText(a + b) <==> IsHexText(a) && IsHexText(b)
  {
    if IsHexText(a + b) {
      assert forall i :: 0 <= i < |a| ==> a[i] == (a + b)[i];
      assert forall i :: 0 <= i < |b| ==> b[i] == (a + b)[|a| + i];
    }
  }

  lemma {:induction false} EachBlockIsHex(t: seq<CChar>, n: nat, f: BlockMap)
    requires WholeBlocks(t, n)
    requires forall b: Text16 :: IsHexText(f(b))
    ensures IsHexText(EachBlock(t, n, f))
    decreases n
  {
    if n == 0 {
    } else {
      EachBlockIsHex(t[16..], n - 1, f);
      SplitHex(f(t[..16]), EachBlock(t[16..], n - 1, f));
    }
  }

  // ----- The entry points -----

  ghost function KeyBlock(key: Text16): Block {
    TextBits(key, 8)
  }

  ghost function BlockCipher(ks: seq<Subkey>): BlockMap {
    (b: Text16) => BitsText(Crypt(TextBits(b, 8), ks), 8)
  }

  ghost function EncryptText(t: seq<CChar>, n: nat, key: Text16): (r: seq<CChar>)
    requires WholeBlocks(t, n)
    ensures WholeBlocks(r, n)
  {
    EachBlock(t, n, BlockCipher(FirstSubkeys(KeyBlock(key), 16)))
  }

  ghost function DecryptText(t: seq<CChar>, n: nat, key: Text16): (r: seq<CChar>)
    requires WholeBlocks(t, n)
    ensures WholeBlocks(r, n)
  {
    EachBlock(t, n, BlockCipher(Reversed(FirstSubkeys(KeyBlock(key), 16))))
  }

  /** Two-key triple DES (FIPS 46-3 Appendix 2, keying option 2). */
  ghost function Encrypt3Text(t: seq<CChar>, n: nat, key1: Text16, key2: Text16): (r: seq<CChar>)
    requires WholeBlocks(t, n)
    ensures WholeBlocks(r, n)
  {
    EncryptText(DecryptText(EncryptText(t, n, key1), n, key2), n, key1)
  }

  ghost function Decrypt3Text(t: seq<CChar>, n: nat, key1: Text16, key2: Text16): (r: seq<CChar>)
    requires WholeBlocks(t, n)
    ensures WholeBlocks(r, n)
  {
    DecryptText(EncryptText(DecryptText(t, n, key1), n, key2), n, key1)
  }

  lemma EncryptConcatenation(t: seq<CChar>, n: nat, u: seq<CChar>, m: nat, key: Text16)
    requires WholeBlocks(t, n) && WholeBlocks(u, m)
    ensures EncryptText(t + u, n + m, key) == EncryptText(t, n, key) + EncryptText(u, m, key)
    ensures DecryptText(t + u, n + m, key) == DecryptText(t, n, key) + DecryptText(u, m, key)
  {
    EachBlockAppend(t, n, u, m, BlockCipher(FirstSubkeys(KeyBlock(key), 16)));
    EachBlockAppend(t, n, u, m, BlockCipher(Reversed(FirstSubkeys(KeyBlock(key), 16))));
  }

  /** One block of text: its bits, enciphered under the bits of the key by the sixteen rounds of the standard. */
  lemma {:induction false} OneBlock(b: Text16, key: Text16)
    ensures EncryptText(b, 1, key) == BitsText(Encipher(TextBits(b, 8), TextBits(key, 8)), 8)
    ensures DecryptText(b, 1, key) == BitsText(Decipher(TextBits(b, 8), TextBits(key, 8)), 8)
  {
    OneText(b, BlockCipher(FirstSubkeys(KeyBlock(key), 16)));
    OneText(b, BlockCipher(Reversed(FirstSubkeys(KeyBlock(key), 16))));
  }

  lemma {:induction false} OneText(b: Text16, f: BlockMap)
    ensures EachBlock(b, 1, f) == f(b)
  {
    var none: seq<CChar> := [];
    EachBlockCons(b, none, 0, f);
    assert b + none == b && EachBlock(none, 0, f) == [];
    assert f(b) + [] == f(b);
  }

  // ----- Round trips -----

  lemma BlockCipherInverse(b: Text16, ks: seq<Subkey>)
    ensures BlockCipher(Reversed(ks))(BlockCipher(ks)(b)) == b <==> IsHexText(b)
  {
    var bits := TextBits(b, 8);
    BitsRoundTrip(Crypt(bits, ks), 8);
    ReversedKeysDecipher(bits, ks);
    TextRoundTrip(b, 8);
  }

  lemma {:induction false} ReversedTextInverse(t: seq<CChar>, n: nat, ks: seq<Subkey>)
    requires WholeBlocks(t, n)
    ensures EachBlock(EachBlock(t, n, BlockCipher(ks)), n, BlockCipher(Reversed(ks))) == t <==> IsHexText(t)
  {
    var f, g := BlockCipher(ks), BlockCipher(Reversed(ks));
    forall b: Text16 ensures g(f(b)) == b <==> IsHexText(b) {
      BlockCipherInverse(b, ks);
    }
    EachBlockInverse(t, n, f, g);
  }

  /** Decryption restores exactly the upper-case hexadecimal texts, and so does encryption
      after decryption. */
  lemma DecryptInvertsEncrypt(t: seq<CChar>, n: nat, key: Text16)
    requires WholeBlocks(t, n)
    ensures DecryptText(EncryptText(t, n, key), n, key) == t <==> IsHexText(t)
    ensures EncryptText(DecryptText(t, n, key), n, key) == t <==> IsHexText(t)
  {
    var ks := FirstSubkeys(KeyBlock(key), 16);
    ReversedTextInverse(t, n, ks);
    ReversedTextInverse(t, n, Reversed(ks));
    assert Reversed(Reversed(ks)) == ks;
  }

  /** Sixteen times the letter a in lower case do not survive, under any key. */
  lemma LowerCaseIsLost(key: Text16)
    ensures var t: Text16 := seq(16, _ => 97); DecryptText(EncryptText(t, 1, key), 1, key) != t
  {
    var t: Text16 := seq(16, _ => 97);
    assert !IsHexText(t) by {
      assert t[0] == 97;
    }
    DecryptInvertsEncrypt(t, 1, key);
  }

  lemma {:induction false} CryptIsHex(t: seq<CChar>, n: nat, ks: seq<Subkey>)
    requires WholeBlocks(t, n)
    ensures IsHexText(EachBlock(t, n, BlockCipher(ks)))
  {
    var f := BlockCipher(ks);
    forall b: Text16 ensures IsHexText(f(b)) {
      BitsTextIsHex(Crypt(TextBits(b, 8), ks), 8);
    }
    EachBlockIsHex(t, n, f);
  }

  lemma ResultsAreHex(t: seq<CChar>, n: nat, key: Text16)
    requires WholeBlocks(t, n)
    ensures IsHexText(EncryptText(t, n, key)) && IsHexText(DecryptText(t, n, key))
  {
    CryptIsHex(t, n, FirstSubkeys(KeyBlock(key), 16));
    CryptIsHex(t, n, Reversed(FirstSubkeys(KeyBlock(key), 16)));
  }

  lemma Decrypt3InvertsEncrypt3(t: seq<CChar>, n: nat, key1: Text16, key2: Text16)
    requires WholeBlocks(t, n)
    ensures Decrypt3Text(Encrypt3Text(t, n, key1, key2), n, key1, key2) == t <==> IsHexText(t)
    ensures Encrypt3Text(Decrypt3Text(t, n, key1, key2), n, key1, key2) == t <==> IsHexText(t)
  {
    var e1 := EncryptText(t, n, key1);
    var e2 := DecryptText(e1, n, key2);
    ResultsAreHex(t, n, key1);
    ResultsAreHex(e1, n, key2);
    DecryptInvertsEncrypt(e2, n, key1);
    DecryptInvertsEncrypt(e1, n, key2);
    DecryptInvertsEncrypt(t, n, key1);
    var d1 := DecryptText(t, n, key1);
    var d2 := EncryptText(d1, n, key2);
    ResultsAreHex(d1, n, key2);
    DecryptInvertsEncrypt(d2, n, key1);
    DecryptInvertsEncrypt(d1, n, key2);
  }

  /** The passes of triple encryption come off one by one: the first key, then the second, then the first again. */
  lemma {:induction false} TripleComesOff(t: seq<CChar>, n: nat, key1: Text16, key2: Text16)
    requires WholeBlocks(t, n) && IsHexText(t)
    ensures DecryptText(EncryptText(DecryptText(Encrypt3Text(t, n, key1, key2), n, key1), n, key2), n, key1) == t
    ensures EncryptText(DecryptText(EncryptText(Decrypt3Text(t, n, key1, key2), n, key1), n, key2), n, key1) == t
  {
    Decrypt3InvertsEncrypt3(t, n, key1, key2);
  }

  /** With both keys equal, triple DES is single DES. */
  lemma TripleWithEqualKeysIsSingle(t: seq<CChar>, n: nat, key: Text16)
    requires WholeBlocks(t, n)
    ensures Encrypt3Text(t, n, key, key) == EncryptText(t, n, key)
    ensures Decrypt3Text(t, n, key, key) == DecryptText(t, n, key)
  {
    ResultsAreHex(t, n, key);
    DecryptInvertsEncrypt(EncryptText(t, n, key), n, key);
    DecryptInvertsEncrypt(DecryptText(t, n, key), n, key);
  }

  // ----- Complementation -----

  /** Every bit of sixteen characters inverted. */
  ghost function ComplementBlock(): BlockMap {
    (b: Text16) => BitsText(NotAll(TextBits(b, 8)), 8)
  }

  ghost function Complement(t: seq<CChar>, n: nat): (r: seq<CChar>)
    requires WholeBlocks(t, n)
    ensures WholeBlocks(r, n)
  {
    EachBlock(t, n, ComplementBlock())
  }

  ghost function ComplementKey(key: Text16): Text16 {
    BitsText(NotAll(TextBits(key, 8)), 8)
  }

  lemma BlockCipherComplement(b: Text16, ks: seq<Subkey>)
    ensures BlockCipher(NotEach(ks))(ComplementBlock()(b)) == ComplementBlock()(BlockCipher(ks)(b))
  {
    var bits := TextBits(b, 8);
    BitsRoundTrip(NotAll(bits), 8);
    CryptComplement(bits, ks);
    BitsRoundTrip(Crypt(bits, ks), 8);
  }

  lemma {:induction false} CryptTextComplement(t: seq<CChar>, n: nat, ks: seq<Subkey>)
    requires WholeBlocks(t, n)
    ensures EachBlock(Complement(t, n), n, BlockCipher(NotEach(ks))) == Complement(EachBlock(t, n, BlockCipher(ks)), n)
  {
    var c, f, f' := ComplementBlock(), BlockCipher(ks), BlockCipher(NotEach(ks));
    forall b: Text16 ensures f'(c(b)) == c(f(b)) {
      BlockCipherComplement(b, ks);
    }
    EachBlockCommutes(t, n, c, f', c, f);
  }

  /** Complementing every bit of text and key complements every bit of the result. */
  lemma TextComplementation(t: seq<CChar>, n: nat, key: Text16)
    requires WholeBlocks(t, n)
    ensures EncryptText(Complement(t, n), n, ComplementKey(key)) == Complement(EncryptText(t, n, key), n)
    ensures DecryptText(Complement(t, n), n, ComplementKey(key)) == Complement(DecryptText(t, n, key), n)
  {
    var k := KeyBlock(key);
    BitsRoundTrip(NotAll(k), 8);
    SubkeysComplement(k);
    CryptTextComplement(t, n, FirstSubkeys(k, 16));
    CryptTextComplement(t, n, Reversed(FirstSubkeys(k, 16)));
  }

  // ----- Parity bits -----

  lemma TextParityIsIgnored(t: seq<CChar>, n: nat, key: Text16, other: Text16)
    requires WholeBlocks(t, n)
    requires SameButParity(KeyBlock(key), KeyBlock(other))
    ensures EncryptText(t, n, key) == EncryptText(t, n, other)
    ensures DecryptText(t, n, key) == DecryptText(t, n, other)
  {
    ParityIsIgnored(KeyBlock(key), KeyBlock(other));
  }
}
