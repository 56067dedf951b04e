/** The S-boxes row by row in hexadecimal digits: every row holds every digit, and the four bits that a box puts out
    are its entry in binary. */
module DesBoxes {
  import opened DesTables
  import opened DesSpec

  function DigitOf(c: char): int {
    if c <= '9' then c as int - '0' as int else c as int - 'A' as int + 10
  }

  /** The row of a box in hexadecimal digits. */
  ghost predicate IsRow(box: seq<int>, row: nat, digits: string) {
    row < 4 && |box| == 64 && |digits| == 16 && forall c :: 0 <= c < 16 ==> box[16 * row + c] == DigitOf(digits[c])
  }

  /** Hexadecimal digits, and every one of them. */
  ghost predicate HasEveryDigit(digits: string) {
    && (forall d :: d in digits ==> '0' <= d <= '9' || 'A' <= d <= 'F')
    && forall d :: d in "0123456789ABCDEF" ==> d in digits
  }

  // ----- The rows -----

  lemma S1Row0()
    ensures IsRow(DES.S1, 0, "E4D12FB83A6C5907") && HasEveryDigit("E4D12FB83A6C5907")
  {}

  lemma S1Row1()
    ensures IsRow(DES.S1, 1, "0F74E2D1A6CB9538") && HasEveryDigit("0F74E2D1A6CB9538")
  {}

  lemma S1Row2()
    ensures IsRow(DES.S1, 2, "41E8D62BFC973A50") && HasEveryDigit("41E8D62BFC973A50")
  {}

  lemma S1Row3()
    ensures IsRow(DES.S1, 3, "FC8249175B3EA06D") && HasEveryDigit("FC8249175B3EA06D")
  {}

  lemma S2Row0()
    ensures IsRow(DES.S2, 0, "F18E6B34972DC05A") && HasEveryDigit("F18E6B34972DC05A")
  {}

  lemma S2Row1()
    ensures IsRow(DES.S2, 1, "3D47F28EC01A69B5") && HasEveryDigit("3D47F28EC01A69B5")
  {}

  lemma S2Row2()
    ensures IsRow(DES.S2, 2, "0E7BA4D158C6932F") && HasEveryDigit("0E7BA4D158C6932F")
  {}

  lemma S2Row3()
    ensures IsRow(DES.S2, 3, "D8A13F42B67C05E9") && HasEveryDigit("D8A13F42B67C05E9")
  {}

  lemma S3Row0()
    ensures IsRow(DES.S3, 0, "A09E63F51DC7B428") && HasEveryDigit("A09E63F51DC7B428")
  {}

  lemma S3Row1()
    ensures IsRow(DES.S3, 1, "D709346A285ECBF1") && HasEveryDigit("D709346A285ECBF1")
  {}

  lemma S3Row2()
    ensures IsRow(DES.S3, 2, "D6498F30B12C5AE7") && HasEveryDigit("D6498F30B12C5AE7")
  {}

  lemma S3Row3()
    ensures IsRow(DES.S3, 3, "1AD069874FE3B52C") && HasEveryDigit("1AD069874FE3B52C")
  {}

  lemma S4Row0()
    ensures IsRow(DES.S4, 0, "7DE3069A1285BC4F") && HasEveryDigit("7DE3069A1285BC4F")
  {}

  lemma S4Row1()
    ensures IsRow(DES.S4, 1, "D8B56F03472C1AE9") && HasEveryDigit("D8B56F03472C1AE9")
  {}

  lemma S4Row2()
    ensures IsRow(DES.S4, 2, "A690CB7DF13E5284") && HasEveryDigit("A690CB7DF13E5284")
  {}

  lemma S4Row3()
    ensures IsRow(DES.S4, 3, "3F06A1D8945BC72E") && HasEveryDigit("3F06A1D8945BC72E")
  {}

  lemma S5Row0()
    ensures IsRow(DES.S5, 0, "2C417AB6853FD0E9") && HasEveryDigit("2C417AB6853FD0E9")
  {}

  lemma S5Row1()
    ensures IsRow(DES.S5, 1, "EB2C47D150FA3986") && HasEveryDigit("EB2C47D150FA3986")
  {}

  lemma S5Row2()
    ensures IsRow(DES.S5, 2, "421BAD78F9C5630E") && HasEveryDigit("421BAD78F9C5630E")
  {}

  lemma S5Row3()
    ensures IsRow(DES.S5, 3, "B8C71E2D6F09A453") && HasEveryDigit("B8C71E2D6F09A453")
  {}

  lemma S6Row0()
    ensures IsRow(DES.S6, 0, "C1AF92680D34E75B") && HasEveryDigit("C1AF92680D34E75B")
  {}

  lemma S6Row1()
    ensures IsRow(DES.S6, 1, "AF427C9561DE0B38") && HasEveryDigit("AF427C9561DE0B38")
  {}

  lemma S6Row2()
    ensures IsRow(DES.S6, 2, "9EF528C3704A1DB6") && HasEveryDigit("9EF528C3704A1DB6")
  {}

  lemma S6Row3()
    ensures IsRow(DES.S6, 3, "432C95FABE17608D") && HasEveryDigit("432C95FABE17608D")
  {}

  lemma S7Row0()
    ensures IsRow(DES.S7, 0, "4B2EF08D3C975A61") && HasEveryDigit("4B2EF08D3C975A61")
  {}

  lemma S7Row1()
    ensures IsRow(DES.S7, 1, "D0B7491AE35C2F86") && HasEveryDigit("D0B7491AE35C2F86")
  {}

  lemma S7Row2()
    ensures IsRow(DES.S7, 2, "14BDC37EAF680592") && HasEveryDigit("14BDC37EAF680592")
  {}

  lemma S7Row3()
    ensures IsRow(DES.S7, 3, "6BD814A7950FE23C") && HasEveryDigit("6BD814A7950FE23C")
  {}

  lemma S8Row0()
    ensures IsRow(DES.S8, 0, "D2846FB1A93E50C7") && HasEveryDigit("D2846FB1A93E50C7")
  {}

  lemma S8Row1()
    ensures IsRow(DES.S8, 1, "1FD8A374C56B0E92") && HasEveryDigit("1FD8A374C56B0E92")
  {}

  lemma S8Row2()
    ensures IsRow(DES.S8, 2, "7B419CE206ADF358") && HasEveryDigit("7B419CE206ADF358")
  {}

  lemma S8Row3()
    ensures IsRow(DES.S8, 3, "21E74A8DFC90356B") && HasEveryDigit("21E74A8DFC90356B")
  {}

  lemma S1Rows(row: nat) returns (digits: string)
    requires row < 4
    ensures IsRow(DES.S1, row, digits) && HasEveryDigit(digits)
  {
    match row
    case 0 =>
      S1Row0();
      digits := "E4D12FB83A6C5907";
    case 1 =>
      S1Row1();
      digits := "0F74E2D1A6CB9538";
    case 2 =>
      S1Row2();
      digits := "41E8D62BFC973A50";
    case 3 =>
      S1Row3();
      digits := "FC8249175B3EA06D";
  }

  lemma S2Rows(row: nat) returns (digits: string)
    requires row < 4
    ensures IsRow(DES.S2, row, digits) && HasEveryDigit(digits)
  {
    match row
    case 0 =>
      S2Row0();
      digits := "F18E6B34972DC05A";
    case 1 =>
      S2Row1();
      digits := "3D47F28EC01A69B5";
    case 2 =>
      S2Row2();
      digits := "0E7BA4D158C6932F";
    case 3 =>
      S2Row3();
      digits := "D8A13F42B67C05E9";
  }

  lemma S3Rows(row: nat) returns (digits: string)
    requires row < 4
    ensures IsRow(DES.S3, row, digits) && HasEveryDigit(digits)
  {
    match row
    case 0 =>
      S3Row0();
      digits := "A09E63F51DC7B428";
    case 1 =>
      S3Row1();
      digits := "D709346A285ECBF1";
    case 2 =>
      S3Row2();
      digits := "D6498F30B12C5AE7";
    case 3 =>
      S3Row3();
      digits := "1AD069874FE3B52C";
  }

  lemma S4Rows(row: nat) returns (digits: string)
    requires row < 4
    ensures IsRow(DES.S4, row, digits) && HasEveryDigit(digits)
  {
    match row
    case 0 =>
      S4Row0();
      digits := "7DE3069A1285BC4F";
    case 1 =>
      S4Row1();
      digits := "D8B56F03472C1AE9";
    case 2 =>
      S4Row2();
      digits := "A690CB7DF13E5284";
    case 3 =>
      S4Row3();
      digits := "3F06A1D8945BC72E";
  }

  lemma S5Rows(row: nat) returns (digits: string)
    requires row < 4
    ensures IsRow(DES.S5, row, digits) && HasEveryDigit(digits)
  {
    match row
    case 0 =>
      S5Row0();
      digits := "2C417AB6853FD0E9";
    case 1 =>
      S5Row1();
      digits := "EB2C47D150FA3986";
    case 2 =>
      S5Row2();
      digits := "421BAD78F9C5630E";
    case 3 =>
      S5Row3();
      digits := "B8C71E2D6F09A453";
  }

  lemma S6Rows(row: nat) returns (digits: string)
    requires row < 4
    ensures IsRow(DES.S6, row, digits) && HasEveryDigit(digits)
  {
    match row
    case 0 =>
      S6Row0();
      digits := "C1AF92680D34E75B";
    case 1 =>
      S6Row1();
      digits := "AF427C9561DE0B38";
    case 2 =>
      S6Row2();
      digits := "9EF528C3704A1DB6";
    case 3 =>
      S6Row3();
      digits := "432C95FABE17608D";
  }

  lemma S7Rows(row: nat) returns (digits: string)
    requires row < 4
    ensures IsRow(DES.S7, row, digits) && HasEveryDigit(digits)
  {
    match row
    case 0 =>
      S7Row0();
      digits := "4B2EF08D3C975A61";
    case 1 =>
      S7Row1();
      digits := "D0B7491AE35C2F86";
    case 2 =>
      S7Row2();
      digits := "14BDC37EAF680592";
    case 3 =>
      S7Row3();
      digits := "6BD814A7950FE23C";
  }

  lemma S8Rows(row: nat) returns (digits: string)
    requires row < 4
    ensures IsRow(DES.S8, row, digits) && HasEveryDigit(digits)
  {
    match row
    case 0 =>
      S8Row0();
      digits := "D2846FB1A93E50C7";
    case 1 =>
      S8Row1();
      digits := "1FD8A374C56B0E92";
    case 2 =>
      S8Row2();
      digits := "7B419CE206ADF358";
    case 3 =>
      S8Row3();
      digits := "21E74A8DFC90356B";
  }

  lemma BoxRow(k: nat, row: nat) returns (digits: string)
    requires k < 8 && row < 4
    ensures |DES.CAJA_S| == 8 && IsRow(DES.CAJA_S[k], row, digits) && HasEveryDigit(digits)
  {
    if k < 4 {
      digits := FirstBoxRow(k, row);
    } else {
      digits := LaterBoxRow(k, row);
    }
  }

  lemma FirstBoxRow(k: nat, row: nat) returns (digits: string)
    requires k < 4 && row < 4
    ensures |DES.CAJA_S| == 8 && IsRow(DES.CAJA_S[k], row, digits) && HasEveryDigit(digits)
  {
    match k
    case 0 => digits := S1Rows(row);
    case 1 => digits := S2Rows(row);
    case 2 => digits := S3Rows(row);
    case 3 => digits := S4Rows(row);
  }

  lemma LaterBoxRow(k: nat, row: nat) returns (digits: string)
    requires 4 <= k < 8 && row < 4
    ensures |DES.CAJA_S| == 8 && IsRow(DES.CAJA_S[k], row, digits) && HasEveryDigit(digits)
  {
    match k
    case 4 => digits := S5Rows(row);
    case 5 => digits := S6Rows(row);
    case 6 => digits := S7Rows(row);
    case 7 => digits := S8Rows(row);
  }

  // ----- What the boxes do -----

  function Entry(k: nat, row: nat, column: nat): int
    requires k < 8 && row < 4 && column < 16
  {
    CajaSShape();
    DES.CAJA_S[k][16 * row + column]
  }

  lemma EntryIsNibble(k: nat, row: nat, column: nat)
    requires k < 8 && row < 4 && column < 16
    ensures 0 <= Entry(k, row, column) < 16
  {
    CajaSShape();
    var digits := BoxRow(k, row);
    assert digits[column] in digits;
  }

  /** Every row of a box is a permutation of the numbers from 0 to 15. */
  lemma RowIsPermutation(k: nat, row: nat, v: nat) returns (column: nat)
    requires k < 8 && row < 4 && v < 16
    ensures column < 16 && Entry(k, row, column) == v
  {
    CajaSShape();
    var digits := BoxRow(k, row);
    var d := "0123456789ABCDEF"[v];
    assert DigitOf(d) == v;
    assert d in digits;
    column :| 0 <= column < 16 && digits[column] == d;
  }

  /** The four bits of a number below 16, most significant first, are it in binary. */
  lemma NibbleIsBinary(v: int)
    requires 0 <= v < 16
    ensures var a: int, b: int, c: int, d: int := NibbleBit(v, 0), NibbleBit(v, 1), NibbleBit(v, 2), NibbleBit(v, 3);
            8 * a + 4 * b + 2 * c + d == v
  {}

  /** The outer two of the six bits of box `k` in binary, and the inner four. */
  function RowFor(bits: seq<int>, k: nat): (row: nat)
    requires |bits| == 48 && k < 8 && IsBits(bits)
    ensures row < 4
  {
    2 * bits[6 * k] + bits[6 * k + 5]
  }

  function ColumnFor(bits: seq<int>, k: nat): (column: nat)
    requires |bits| == 48 && k < 8 && IsBits(bits)
    ensures column < 16
  {
    8 * bits[6 * k + 1] + 4 * bits[6 * k + 2] + 2 * bits[6 * k + 3] + bits[6 * k + 4]
  }

  function EntryFor(bits: seq<int>, k: nat): int
    requires |bits| == 48 && k < 8 && IsBits(bits)
  {
    Entry(k, RowFor(bits, k), ColumnFor(bits, k))
  }

  /** The four bits from 4k on are that entry in binary. */
  ghost predicate IsBoxOutput(bits: seq<int>, out: seq<int>, k: nat)
    requires |bits| == 48 && |out| == 32 && k < 8 && IsBits(bits)
  {
    8 * out[4 * k] + 4 * out[4 * k + 1] + 2 * out[4 * k + 2] + out[4 * k + 3] == EntryFor(bits, k)
  }

  lemma SubstituteIsBoxOutput(y: seq<Bit>, k: nat)
    requires |y| == 48 && k < 8
    ensures IsBoxOutput(y, Substitute(y), k)
  {
    BoxValueIsEntry(y, k);
    NibbleIsBinary(BoxValues(y)[k]);
    FourBits(BoxValues(y), k);
  }

  lemma FourBits(values: seq<int>, k: nat)
    requires |values| == 8 && k < 8
    ensures var out := Nibbles(values);
            && out[4 * k] == NibbleBit(values[k], 0) && out[4 * k + 1] == NibbleBit(values[k], 1)
            && out[4 * k + 2] == NibbleBit(values[k], 2) && out[4 * k + 3] == NibbleBit(values[k], 3)
  {
    assert 4 * k / 4 == k && (4 * k + 1) / 4 == k && (4 * k + 2) / 4 == k && (4 * k + 3) / 4 == k;
  }

  lemma BoxValueIsEntry(y: seq<Bit>, k: nat)
    requires |y| == 48 && k < 8
    ensures BoxValues(y)[k] == EntryFor(y, k) && 0 <= EntryFor(y, k) < 16
  {
    SixOfBox(y, k);
    SixBits(k, y[6 * k..6 * k + 6], RowFor(y, k), ColumnFor(y, k));
    EntryIsNibble(k, RowFor(y, k), ColumnFor(y, k));
  }

  predicate Gives(six: seq<int>, row: nat, column: nat)
    requires |six| == 6
  {
    row == 2 * six[0] + six[5] && column == 8 * six[1] + 4 * six[2] + 2 * six[3] + six[4]
  }

  lemma SixOfBox(y: seq<Bit>, k: nat)
    requires |y| == 48 && k < 8
    ensures Gives(y[6 * k..6 * k + 6], RowFor(y, k), ColumnFor(y, k))
  {}

  lemma SixBits(k: nat, six: seq<Bit>, row: nat, column: nat)
    requires k < 8 && |six| == 6 && row < 4 && column < 16 && Gives(six, row, column)
    ensures S(k, six) == Entry(k, row, column)
  {}
}
