/** The logarithm and antilogarithm tables of GF(256) (addon/coding/GaloisField.go) and what they hold.

    The source's two flat literals are written here row by row: 16 logarithms or 15 powers of the generator a row.
    LogAt and ExpAt index them as the source does.  The generator is 2, the polynomial x^8 + x^4 + x^3 + x^2 + 1. */
module GaloisTables {

  type byte = bv8

  const LOG0: seq<int> := [-1, 0, 1, 25, 2, 50, 26, 198, 3, 223, 51, 238, 27, 104, 199, 75]
  const LOG1: seq<int> := [4, 100, 224, 14, 52, 141, 239, 129, 28, 193, 105, 248, 200, 8, 76, 113]
  const LOG2: seq<int> := [5, 138, 101, 47, 225, 36, 15, 33, 53, 147, 142, 218, 240, 18, 130, 69]
  const LOG3: seq<int> := [29, 181, 194, 125, 106, 39, 249, 185, 201, 154, 9, 120, 77, 228, 114, 166]
  const LOG4: seq<int> := [6, 191, 139, 98, 102, 221, 48, 253, 226, 152, 37, 179, 16, 145, 34, 136]
  const LOG5: seq<int> := [54, 208, 148, 206, 143, 150, 219, 189, 241, 210, 19, 92, 131, 56, 70, 64]
  const LOG6: seq<int> := [30, 66, 182, 163, 195, 72, 126, 110, 107, 58, 40, 84, 250, 133, 186, 61]
  const LOG7: seq<int> := [202, 94, 155, 159, 10, 21, 121, 43, 78, 212, 229, 172, 115, 243, 167, 87]
  const LOG8: seq<int> := [7, 112, 192, 247, 140, 128, 99, 13, 103, 74, 222, 237, 49, 197, 254, 24]
  const LOG9: seq<int> := [227, 165, 153, 119, 38, 184, 180, 124, 17, 68, 146, 217, 35, 32, 137, 46]
  const LOG10: seq<int> := [55, 63, 209, 91, 149, 188, 207, 205, 144, 135, 151, 178, 220, 252, 190, 97]
  const LOG11: seq<int> := [242, 86, 211, 171, 20, 42, 93, 158, 132, 60, 57, 83, 71, 109, 65, 162]
  const LOG12: seq<int> := [31, 45, 67, 216, 183, 123, 164, 118, 196, 23, 73, 236, 127, 12, 111, 246]
  const LOG13: seq<int> := [108, 161, 59, 82, 41, 157, 85, 170, 251, 96, 134, 177, 187, 204, 62, 90]
  const LOG14: seq<int> := [203, 89, 95, 176, 156, 169, 160, 81, 11, 245, 22, 235, 122, 117, 44, 215]
  const LOG15: seq<int> := [79, 174, 213, 233, 230, 231, 173, 232, 116, 214, 244, 234, 168, 80, 88, 175]

  const EXP0: seq<byte> := [1, 2, 4, 8, 16, 32, 64, 128, 29, 58, 116, 232, 205, 135, 19]
  const EXP1: seq<byte> := [38, 76, 152, 45, 90, 180, 117, 234, 201, 143, 3, 6, 12, 24, 48]
  const EXP2: seq<byte> := [96, 192, 157, 39, 78, 156, 37, 74, 148, 53, 106, 212, 181, 119, 238]
  const EXP3: seq<byte> := [193, 159, 35, 70, 140, 5, 10, 20, 40, 80, 160, 93, 186, 105, 210]
  const EXP4: seq<byte> := [185, 111, 222, 161, 95, 190, 97, 194, 153, 47, 94, 188, 101, 202, 137]
  const EXP5: seq<byte> := [15, 30, 60, 120, 240, 253, 231, 211, 187, 107, 214, 177, 127, 254, 225]
  const EXP6: seq<byte> := [223, 163, 91, 182, 113, 226, 217, 175, 67, 134, 17, 34, 68, 136, 13]
  const EXP7: seq<byte> := [26, 52, 104, 208, 189, 103, 206, 129, 31, 62, 124, 248, 237, 199, 147]
  const EXP8: seq<byte> := [59, 118, 236, 197, 151, 51, 102, 204, 133, 23, 46, 92, 184, 109, 218]
  const EXP9: seq<byte> := [169, 79, 158, 33, 66, 132, 21, 42, 84, 168, 77, 154, 41, 82, 164]
  const EXP10: seq<byte> := [85, 170, 73, 146, 57, 114, 228, 213, 183, 115, 230, 209, 191, 99, 198]
  const EXP11: seq<byte> := [145, 63, 126, 252, 229, 215, 179, 123, 246, 241, 255, 227, 219, 171, 75]
  const EXP12: seq<byte> := [150, 49, 98, 196, 149, 55, 110, 220, 165, 87, 174, 65, 130, 25, 50]
  const EXP13: seq<byte> := [100, 200, 141, 7, 14, 28, 56, 112, 224, 221, 167, 83, 166, 81, 162]
  const EXP14: seq<byte> := [89, 178, 121, 242, 249, 239, 195, 155, 43, 86, 172, 69, 138, 9, 18]
  const EXP15: seq<byte> := [36, 72, 144, 61, 122, 244, 245, 247, 243, 251, 235, 203, 139, 11, 22]
  const EXP16: seq<byte> := [44, 88, 176, 125, 250, 233, 207, 131, 27, 54, 108, 216, 173, 71, 142]
  const EXP17: seq<byte> := [1, 2, 4, 8, 16, 32, 64, 128, 29, 58, 116, 232, 205, 135, 19]
  const EXP18: seq<byte> := [38, 76, 152, 45, 90, 180, 117, 234, 201, 143, 3, 6, 12, 24, 48]
  const EXP19: seq<byte> := [96, 192, 157, 39, 78, 156, 37, 74, 148, 53, 106, 212, 181, 119, 238]
  const EXP20: seq<byte> := [193, 159, 35, 70, 140, 5, 10, 20, 40, 80, 160, 93, 186, 105, 210]
  const EXP21: seq<byte> := [185, 111, 222, 161, 95, 190, 97, 194, 153, 47, 94, 188, 101, 202, 137]
  const EXP22: seq<byte> := [15, 30, 60, 120, 240, 253, 231, 211, 187, 107, 214, 177, 127, 254, 225]
  const EXP23: seq<byte> := [223, 163, 91, 182, 113, 226, 217, 175, 67, 134, 17, 34, 68, 136, 13]
  const EXP24: seq<byte> := [26, 52, 104, 208, 189, 103, 206, 129, 31, 62, 124, 248, 237, 199, 147]
  const EXP25: seq<byte> := [59, 118, 236, 197, 151, 51, 102, 204, 133, 23, 46, 92, 184, 109, 218]
  const EXP26: seq<byte> := [169, 79, 158, 33, 66, 132, 21, 42, 84, 168, 77, 154, 41, 82, 164]
  const EXP27: seq<byte> := [85, 170, 73, 146, 57, 114, 228, 213, 183, 115, 230, 209, 191, 99, 198]
  const EXP28: seq<byte> := [145, 63, 126, 252, 229, 215, 179, 123, 246, 241, 255, 227, 219, 171, 75]
  const EXP29: seq<byte> := [150, 49, 98, 196, 149, 55, 110, 220, 165, 87, 174, 65, 130, 25, 50]
  const EXP30: seq<byte> := [100, 200, 141, 7, 14, 28, 56, 112, 224, 221, 167, 83, 166, 81, 162]
  const EXP31: seq<byte> := [89, 178, 121, 242, 249, 239, 195, 155, 43, 86, 172, 69, 138, 9, 18]
  const EXP32: seq<byte> := [36, 72, 144, 61, 122, 244, 245, 247, 243, 251, 235, 203, 139, 11, 22]
  const EXP33: seq<byte> := [44, 88, 176, 125, 250, 233, 207, 131, 27, 54, 108, 216, 173, 71, 142]

  const LOGTABLE: seq<seq<int>> :=
    [LOG0, LOG1, LOG2, LOG3, LOG4, LOG5, LOG6, LOG7, LOG8, LOG9, LOG10, LOG11, LOG12, LOG13, LOG14, LOG15]

  function LogRow(h: int): (r: seq<int>)
    requires 0 <= h < 16
    ensures |r| == 16
  {
    LOGTABLE[h]
  }

  function ExpRows0(h: int): (r: seq<byte>)
    requires 0 <= h < 9
    ensures |r| == 15
  {
    match h
    case 0 => EXP0 case 1 => EXP1 case 2 => EXP2 case 3 => EXP3 case 4 => EXP4 case 5 => EXP5
    case 6 => EXP6 case 7 => EXP7 case 8 => EXP8
  }

  function ExpRows9(h: int): (r: seq<byte>)
    requires 9 <= h < 18
    ensures |r| == 15
  {
    match h
    case 9 => EXP9 case 10 => EXP10 case 11 => EXP11 case 12 => EXP12 case 13 => EXP13 case 14 => EXP14
    case 15 => EXP15 case 16 => EXP16 case 17 => EXP17
  }

  function ExpRows18(h: int): (r: seq<byte>)
    requires 18 <= h < 26
    ensures |r| == 15
  {
    match h
    case 18 => EXP18 case 19 => EXP19 case 20 => EXP20 case 21 => EXP21 case 22 => EXP22 case 23 => EXP23
    case 24 => EXP24 case 25 => EXP25
  }

  function ExpRows26(h: int): (r: seq<byte>)
    requires 26 <= h < 34
    ensures |r| == 15
  {
    match h
    case 26 => EXP26 case 27 => EXP27 case 28 => EXP28 case 29 => EXP29 case 30 => EXP30 case 31 => EXP31
    case 32 => EXP32 case 33 => EXP33
  }

  function ExpRow(h: int): (r: seq<byte>)
    requires 0 <= h < 34
    ensures |r| == 15
  {
    if h < 18 then (if h < 9 then ExpRows0(h) else ExpRows9(h))
    else if h < 26 then ExpRows18(h)
    else ExpRows26(h)
  }

  function LogAt(a: int): int
    requires 0 <= a < 256
  {
    LogRow(a / 16)[a % 16]
  }

  function ExpAt(i: int): byte
    requires 0 <= i < 510
  {
    ExpRow(i / 15)[i % 15]
  }

  predicate TopBit(a: byte) {
    a & 0x80 != 0
  }

  function Shift(a: byte): byte {
    a << 1
  }

  function Folded(a: byte): byte {
    (a << 1) ^ 0x1D
  }

  /** Multiplication by the generator: shift, and reduce by the polynomial when the degree reaches 8. */
  function Double(a: byte): byte {
    if TopBit(a) then Folded(a) else Shift(a)
  }

  /** The entry after entry c of row r, whose successor row starts with next, is the double of entry c. */
  predicate DoublingAt(r: seq<byte>, next: byte, c: int) {
    |r| == 15 && 0 <= c < 15 && (if c == 14 then next else r[c + 1]) == Double(r[c])
  }

  /** The logarithm of entry c of the row is base + c. */
  predicate LoggedAt(r: seq<byte>, base: int, c: int) {
    |r| == 15 && 0 <= c < 15 && LogAt(r[c] as int) == base + c
  }

  function NextHead(k: int): byte
    requires 0 <= k < 34
  {
    if k == 33 then 1 else ExpRow(k + 1)[0]
  }

  ghost predicate Doubling(k: int)
    requires 0 <= k < 34
  {
    forall c :: 0 <= c < 15 ==> DoublingAt(ExpRow(k), NextHead(k), c)
  }

  ghost predicate Logged(k: int)
    requires 0 <= k < 17
  {
    forall c :: 0 <= c < 15 ==> LoggedAt(ExpRow(k), 15 * k, c)
  }

  predicate DoublingRow(r: seq<byte>, next: byte) {
    && |r| == 15
    && r[1] == Double(r[0]) && r[2] == Double(r[1]) && r[3] == Double(r[2]) && r[4] == Double(r[3])
    && r[5] == Double(r[4]) && r[6] == Double(r[5]) && r[7] == Double(r[6]) && r[8] == Double(r[7])
    && r[9] == Double(r[8]) && r[10] == Double(r[9]) && r[11] == Double(r[10]) && r[12] == Double(r[11])
    && r[13] == Double(r[12]) && r[14] == Double(r[13]) && next == Double(r[14])
  }

  lemma DoublingColumns(r: seq<byte>, next: byte)
    requires DoublingRow(r, next)
    ensures forall c :: 0 <= c < 15 ==> DoublingAt(r, next, c)
  {
  }

  predicate LoggedRow(r: seq<byte>, base: int) {
    && |r| == 15
    && LogAt(r[0] as int) == base + 0 && LogAt(r[1] as int) == base + 1 && LogAt(r[2] as int) == base + 2
    && LogAt(r[3] as int) == base + 3 && LogAt(r[4] as int) == base + 4 && LogAt(r[5] as int) == base + 5
    && LogAt(r[6] as int) == base + 6 && LogAt(r[7] as int) == base + 7 && LogAt(r[8] as int) == base + 8
    && LogAt(r[9] as int) == base + 9 && LogAt(r[10] as int) == base + 10 && LogAt(r[11] as int) == base + 11
    && LogAt(r[12] as int) == base + 12 && LogAt(r[13] as int) == base + 13 && LogAt(r[14] as int) == base + 14
  }

  /** A predicate that holds of the 15 columns holds of every column: keeps the case split away from the tables. */
  lemma Fifteen(holds: int -> bool)
    requires holds(0) && holds(1) && holds(2) && holds(3) && holds(4) && holds(5) && holds(6) && holds(7)
    requires holds(8) && holds(9) && holds(10) && holds(11) && holds(12) && holds(13) && holds(14)
    ensures forall c :: 0 <= c < 15 ==> holds(c)
  {
  }

  // The tables are compared a few rows at a time: the solver runs out of resources on all rows together.

  lemma DoublingRows0(k: int)
    requires 0 <= k < 6
    ensures Doubling(k)
  {
    match k
    case 0 => DoublingColumns(EXP0, EXP1[0]);
    case 1 => DoublingColumns(EXP1, EXP2[0]);
    case 2 => DoublingColumns(EXP2, EXP3[0]);
    case 3 => DoublingColumns(EXP3, EXP4[0]);
    case 4 => DoublingColumns(EXP4, EXP5[0]);
    case _ => DoublingColumns(EXP5, EXP6[0]);
  }

  lemma DoublingRows6(k: int)
    requires 6 <= k < 12
    ensures Doubling(k)
  {
    match k
    case 6 => DoublingColumns(EXP6, EXP7[0]);
    case 7 => DoublingColumns(EXP7, EXP8[0]);
    case 8 => DoublingColumns(EXP8, EXP9[0]);
    case 9 => DoublingColumns(EXP9, EXP10[0]);
    case 10 => DoublingColumns(EXP10, EXP11[0]);
    case _ => DoublingColumns(EXP11, EXP12[0]);
  }

  lemma DoublingRows12(k: int)
    requires 12 <= k < 18
    ensures Doubling(k)
  {
    match k
    case 12 => DoublingColumns(EXP12, EXP13[0]);
    case 13 => DoublingColumns(EXP13, EXP14[0]);
    case 14 => DoublingColumns(EXP14, EXP15[0]);
    case 15 => DoublingColumns(EXP15, EXP16[0]);
    case 16 => DoublingColumns(EXP16, EXP17[0]);
    case _ => DoublingColumns(EXP17, EXP18[0]);
  }

  lemma DoublingRows18(k: int)
    requires 18 <= k < 24
    ensures Doubling(k)
  {
    match k
    case 18 => DoublingColumns(EXP18, EXP19[0]);
    case 19 => DoublingColumns(EXP19, EXP20[0]);
    case 20 => DoublingColumns(EXP20, EXP21[0]);
    case 21 => DoublingColumns(EXP21, EXP22[0]);
    case 22 => DoublingColumns(EXP22, EXP23[0]);
    case _ => DoublingColumns(EXP23, EXP24[0]);
  }

  lemma DoublingRows24(k: int)
    requires 24 <= k < 29
    ensures Doubling(k)
  {
    match k
    case 24 => DoublingColumns(EXP24, EXP25[0]);
    case 25 => DoublingColumns(EXP25, EXP26[0]);
    case 26 => DoublingColumns(EXP26, EXP27[0]);
    case 27 => DoublingColumns(EXP27, EXP28[0]);
    case _ => DoublingColumns(EXP28, EXP29[0]);
  }

  lemma DoublingRows29(k: int)
    requires 29 <= k < 34
    ensures Doubling(k)
  {
    match k
    case 29 => DoublingColumns(EXP29, EXP30[0]);
    case 30 => DoublingColumns(EXP30, EXP31[0]);
    case 31 => DoublingColumns(EXP31, EXP32[0]);
    case 32 => DoublingColumns(EXP32, EXP33[0]);
    case _ => DoublingColumns(EXP33, 1);
  }

  lemma LoggedRows0()
    ensures Logged(0)
  {
    assert LoggedRow(EXP0, 0);
    Fifteen(c => 0 <= c < 15 && LoggedAt(EXP0, 0, c));
  }

  lemma LoggedRows1()
    ensures Logged(1)
  {
    assert LoggedRow(EXP1, 15);
    Fifteen(c => 0 <= c < 15 && LoggedAt(EXP1, 15, c));
  }

  lemma LoggedRows2()
    ensures Logged(2)
  {
    assert LoggedRow(EXP2, 30);
    Fifteen(c => 0 <= c < 15 && LoggedAt(EXP2, 30, c));
  }

  lemma LoggedRows3()
    ensures Logged(3)
  {
    assert LoggedRow(EXP3, 45);
    Fifteen(c => 0 <= c < 15 && LoggedAt(EXP3, 45, c));
  }

  lemma LoggedRows4()
    ensures Logged(4)
  {
    assert LoggedRow(EXP4, 60);
    Fifteen(c => 0 <= c < 15 && LoggedAt(EXP4, 60, c));
  }

  lemma LoggedRows5()
    ensures Logged(5)
  {
    assert LoggedRow(EXP5, 75);
    Fifteen(c => 0 <= c < 15 && LoggedAt(EXP5, 75, c));
  }

  lemma LoggedRows6()
    ensures Logged(6)
  {
    assert LoggedRow(EXP6, 90);
    Fifteen(c => 0 <= c < 15 && LoggedAt(EXP6, 90, c));
  }

  lemma LoggedRows7()
    ensures Logged(7)
  {
    assert LoggedRow(EXP7, 105);
    Fifteen(c => 0 <= c < 15 && LoggedAt(EXP7, 105, c));
  }

  lemma LoggedRows8()
    ensures Logged(8)
  {
    assert LoggedRow(EXP8, 120);
    Fifteen(c => 0 <= c < 15 && LoggedAt(EXP8, 120, c));
  }

  lemma LoggedRows9()
    ensures Logged(9)
  {
    assert LoggedRow(EXP9, 135);
    Fifteen(c => 0 <= c < 15 && LoggedAt(EXP9, 135, c));
  }

  lemma LoggedRows10()
    ensures Logged(10)
  {
    assert LoggedRow(EXP10, 150);
    Fifteen(c => 0 <= c < 15 && LoggedAt(EXP10, 150, c));
  }

  lemma LoggedRows11()
    ensures Logged(11)
  {
    assert LoggedRow(EXP11, 165);
    Fifteen(c => 0 <= c < 15 && LoggedAt(EXP11, 165, c));
  }

  lemma LoggedRows12()
    ensures Logged(12)
  {
    assert LoggedRow(EXP12, 180);
    Fifteen(c => 0 <= c < 15 && LoggedAt(EXP12, 180, c));
  }

  lemma LoggedRows13()
    ensures Logged(13)
  {
    assert LoggedRow(EXP13, 195);
    Fifteen(c => 0 <= c < 15 && LoggedAt(EXP13, 195, c));
  }

  lemma LoggedRows14()
    ensures Logged(14)
  {
    assert LoggedRow(EXP14, 210);
    Fifteen(c => 0 <= c < 15 && LoggedAt(EXP14, 210, c));
  }

  lemma LoggedRows15()
    ensures Logged(15)
  {
    assert LoggedRow(EXP15, 225);
    Fifteen(c => 0 <= c < 15 && LoggedAt(EXP15, 225, c));
  }

  lemma LoggedRows16()
    ensures Logged(16)
  {
    assert LoggedRow(EXP16, 240);
    Fifteen(c => 0 <= c < 15 && LoggedAt(EXP16, 240, c));
  }

  lemma AllDoubling(k: int)
    requires 0 <= k < 34
    ensures Doubling(k)
  {
    if k < 6 {
      DoublingRows0(k);
    } else if k < 12 {
      DoublingRows6(k);
    } else if k < 18 {
      DoublingRows12(k);
    } else if k < 24 {
      DoublingRows18(k);
    } else if k < 29 {
      DoublingRows24(k);
    } else {
      DoublingRows29(k);
    }
  }

  lemma AllLogged(k: int)
    requires 0 <= k < 17
    ensures Logged(k)
  {
    match k
    case 0 => LoggedRows0();
    case 1 => LoggedRows1();
    case 2 => LoggedRows2();
    case 3 => LoggedRows3();
    case 4 => LoggedRows4();
    case 5 => LoggedRows5();
    case 6 => LoggedRows6();
    case 7 => LoggedRows7();
    case 8 => LoggedRows8();
    case 9 => LoggedRows9();
    case 10 => LoggedRows10();
    case 11 => LoggedRows11();
    case 12 => LoggedRows12();
    case 13 => LoggedRows13();
    case 14 => LoggedRows14();
    case 15 => LoggedRows15();
    case _ => LoggedRows16();
  }

  lemma RowStep(k: int, c: int)
    requires 0 <= k < 34 && 0 <= c < 15
    ensures (if c == 14 then NextHead(k) else ExpRow(k)[c + 1]) == Double(ExpRow(k)[c])
  {
    AllDoubling(k);
    assert DoublingAt(ExpRow(k), NextHead(k), c);
  }

  lemma NextIndex(i: int)
    ensures if i % 15 == 14 then (i + 1) / 15 == i / 15 + 1 && (i + 1) % 15 == 0
            else (i + 1) / 15 == i / 15 && (i + 1) % 15 == i % 15 + 1
  {
  }

  /** Each entry of the antilogarithm table is the double of the one before. */
  lemma ExpStep(i: int)
    requires 0 <= i < 509
    ensures ExpAt(i + 1) == Double(ExpAt(i))
  {
    NextIndex(i);
    RowStep(i / 15, i % 15);
  }

  lemma LogOfExp(i: int)
    requires 0 <= i < 255
    ensures LogAt(ExpAt(i) as int) == i
  {
    AllLogged(i / 15);
    assert LoggedAt(ExpRow(i / 15), 15 * (i / 15), i % 15);
  }
}
