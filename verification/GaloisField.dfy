/** Arithmetic in GF(256) (addon/coding/GaloisField.go): the table-driven operations are those of the polynomials over
    GF(2) modulo x^8 + x^4 + x^3 + x^2 + 1.

    RefMultiply is the reference and knows nothing about the tables: the carry-less product in 16 bits, then the
    remainder modulo the polynomial. */
module GaloisField {

  import opened Algebra
  import opened GaloisTables
  import opened LogTables

  // ----- The operations of the source ------------------------------------------------------------------------------

  function Add(a: byte, b: byte): byte {
    a ^ b
  }

  function Subtract(a: byte, b: byte): byte {
    a ^ b
  }

  function Log(a: byte): int {
    LogAt(a as int)
  }

  function Antilog(i: int): byte {
    if 0 <= i < 510 then ExpAt(i) else 0
  }

  const GF256 := Tables(0 as byte, Log, Antilog, 255)

  // ----- The two tables are inverse to each other ------------------------------------------------------------------

  function LogNumber(k: int): int {
    if 0 <= k < 256 then LogAt(k) else -1
  }

  function ExpNumber(i: int): int {
    Antilog(i) as int
  }

  lemma ExpNumberInverse(i: int)
    requires 0 <= i < 255
    ensures SentBack(ExpNumber, LogNumber, 255, i)
  {
    LogOfExp(i);
    LogZero();
  }

  lemma LogZero()
    ensures LogAt(0) == -1
  {
  }

  lemma LogNumberInverse(k: int)
    requires 1 <= k <= 255
    ensures Reached(ExpNumber, LogNumber, 255, k)
  {
    forall i | 0 <= i < 255
      ensures SentBack(ExpNumber, LogNumber, 255, i)
    {
      ExpNumberInverse(i);
    }
    LeftInverseIsInverse(ExpNumber, LogNumber, 255);
  }

  lemma NumberOfByte(a: byte)
    ensures 0 <= a as int < 256
    ensures a != 0 ==> a as int != 0
  {
  }

  lemma SameNumber(a: byte, b: byte)
    requires a as int == b as int
    ensures a == b
  {
  }

  /** Every non-zero byte is a power of the generator, and the logarithm table names the exponent: the 255 powers are
      distinct and non-zero, so they are all 255 non-zero bytes. */
  lemma ExpOfLog(a: byte)
    requires a != 0
    ensures 0 <= Log(a) < 255 && Antilog(Log(a)) == a
  {
    var k := a as int;
    NumberOfByte(a);
    LogNumberInverse(k);
    assert Log(a) == LogNumber(k);
    assert ExpNumber(Log(a)) == Antilog(Log(a)) as int;
    SameNumber(Antilog(Log(a)), a);
  }

  lemma AntilogEnds()
    ensures Antilog(0) == 1 && Antilog(255) == 1
  {
  }

  lemma PowerStep(i: int)
    requires 0 <= i < 509
    ensures StepsAt(Antilog, Double, i)
  {
    ExpStep(i);
  }

  lemma AllSteps()
    ensures forall i :: 0 <= i < 509 ==> StepsAt(Antilog, Double, i)
  {
    forall i | 0 <= i < 509
      ensures StepsAt(Antilog, Double, i)
    {
      PowerStep(i);
    }
  }

  lemma LogOfPower(i: int)
    requires 0 <= i < 255
    ensures Antilog(i) != 0 && Log(Antilog(i)) == i
  {
    LogOfExp(i);
    LogZero();
  }

  lemma TablesSound()
    ensures GF256.Sound()
  {
    forall a
      ensures GF256.LogsBack(a)
    {
      if a != 0 {
        ExpOfLog(a);
      }
    }
    AllSteps();
    AntilogEnds();
    forall i
      ensures GF256.ExpsBack(i)
    {
      if 0 <= i < 255 {
        LogOfPower(i);
        PowersRepeat(Antilog, Double, i, 255, 509);
      }
    }
  }

  // ----- The reference multiplication ------------------------------------------------------------------------------

  type word = bv16

  function WAdd(p: word, q: word): word {
    p ^ q
  }

  function WShift(p: word): word {
    p << 1
  }

  function Bits(b: byte): seq<bool> {
    [b & 1 != 0, b & 2 != 0, b & 4 != 0, b & 8 != 0, b & 16 != 0, b & 32 != 0, b & 64 != 0, b & 128 != 0]
  }

  /** One copy of a, shifted into place, for every bit of b; added without carries. */
  function Carryless(a: byte, b: byte): word {
    ShiftAdd(0, WAdd, WShift, a as word, Bits(b))
  }

  predicate Bit(p: word, top: word) {
    p & top != 0
  }

  function Cancel(p: word, top: word, poly: word): word {
    if Bit(p, top) then WAdd(p, poly) else p
  }

  const HIGH_BITS := 8

  function Top(k: nat): word {
    match k
    case 1 => 0x0100 case 2 => 0x0200 case 3 => 0x0400 case 4 => 0x0800
    case 5 => 0x1000 case 6 => 0x2000 case 7 => 0x4000 case _ => 0x8000
  }

  /** 0x11D = x^8 + x^4 + x^3 + x^2 + 1 with its leading bit at Top(k). */
  function Poly(k: nat): word {
    match k
    case 1 => 0x011D case 2 => 0x023A case 3 => 0x0474 case 4 => 0x08E8
    case 5 => 0x11D0 case 6 => 0x23A0 case 7 => 0x4740 case _ => 0x8E80
  }

  /** Long division by the polynomial: cancel the k bits above bit 7, highest first. */
  function Remainder(p: word, k: nat): word
    decreases k
  {
    if k == 0 then p else Remainder(Cancel(p, Top(k), Poly(k)), k - 1)
  }

  function Low(p: word): byte {
    (p & 0xFF) as byte
  }

  function Mod(p: word): byte {
    Low(Remainder(p, HIGH_BITS))
  }

  function RefMultiply(a: byte, b: byte): byte {
    Mod(Carryless(a, b))
  }

  // ----- Division with remainder is linear, and commutes with shifting ---------------------------------------------

  lemma BitAddsAt(p: word, q: word, top: word)
    requires top in {0x8000, 0x4000, 0x2000, 0x1000, 0x800, 0x400, 0x200, 0x100}
    ensures Bit(WAdd(p, q), top) == (Bit(p, top) != Bit(q, top))
  {
  }

  lemma TopIsBit(k: nat)
    ensures Top(k) in {0x8000, 0x4000, 0x2000, 0x1000, 0x800, 0x400, 0x200, 0x100}
  {
  }

  lemma BitAdds(p: word, q: word, k: nat)
    ensures Bit(WAdd(p, q), Top(k)) == (Bit(p, Top(k)) != Bit(q, Top(k)))
  {
    TopIsBit(k);
    BitAddsAt(p, q, Top(k));
  }

  lemma AddTwice(p: word, q: word, g: word)
    ensures WAdd(WAdd(p, g), WAdd(q, g)) == WAdd(p, q)
  {
    assert (p ^ g) ^ (q ^ g) == p ^ q;
  }

  lemma AddLeft(p: word, q: word, g: word)
    ensures WAdd(WAdd(p, g), q) == WAdd(WAdd(p, q), g)
  {
  }

  lemma AddRight(p: word, q: word, g: word)
    ensures WAdd(p, WAdd(q, g)) == WAdd(WAdd(p, q), g)
  {
  }

  lemma CancelAdds(p: word, q: word, k: nat)
    ensures Cancel(WAdd(p, q), Top(k), Poly(k)) == WAdd(Cancel(p, Top(k), Poly(k)), Cancel(q, Top(k), Poly(k)))
  {
    BitAdds(p, q, k);
    AddTwice(p, q, Poly(k));
    AddLeft(p, q, Poly(k));
    AddRight(p, q, Poly(k));
  }

  lemma {:induction false} RemainderAdds(p: word, q: word, k: nat)
    ensures Remainder(WAdd(p, q), k) == WAdd(Remainder(p, k), Remainder(q, k))
    decreases k
  {
    if k > 0 {
      CancelAdds(p, q, k);
      RemainderAdds(Cancel(p, Top(k), Poly(k)), Cancel(q, Top(k), Poly(k)), k - 1);
    }
  }

  lemma TopShift(k: nat)
    requires 1 <= k <= 7
    ensures Top(k + 1) == WShift(Top(k)) && Poly(k + 1) == WShift(Poly(k)) && Poly(k) < 0x8000
  {
  }

  lemma BitShift(p: word, k: nat)
    requires 1 <= k <= 7 && p < 0x8000
    ensures Bit(WShift(p), WShift(Top(k))) == Bit(p, Top(k))
  {
  }

  lemma AddShift(p: word, q: word)
    ensures WShift(WAdd(p, q)) == WAdd(WShift(p), WShift(q))
  {
  }

  lemma AddFits(p: word, q: word)
    requires p < 0x8000 && q < 0x8000
    ensures WAdd(p, q) < 0x8000
  {
  }

  lemma CancelShift(p: word, k: nat)
    requires 1 <= k <= 7 && p < 0x8000
    ensures Cancel(WShift(p), Top(k + 1), Poly(k + 1)) == WShift(Cancel(p, Top(k), Poly(k)))
    ensures Cancel(p, Top(k), Poly(k)) < 0x8000
  {
    TopShift(k);
    BitShift(p, k);
    AddShift(p, Poly(k));
    AddFits(p, Poly(k));
  }

  lemma {:induction false} RemainderShift(p: word, k: nat)
    requires k <= 7 && p < 0x8000
    ensures Remainder(WShift(p), k + 1) == Cancel(WShift(Remainder(p, k)), Top(1), Poly(1))
    decreases k
  {
    if k > 0 {
      CancelShift(p, k);
      RemainderShift(Cancel(p, Top(k), Poly(k)), k - 1);
    }
  }

  // ----- The remainder of the carry-less product, computed in 8 bits -----------------------------------------------

  lemma CancelFits(p: word, k: nat)
    requires 1 <= k <= 8 && (k == 8 || p < Top(k + 1))
    ensures Cancel(p, Top(k), Poly(k)) < Top(k)
  {
  }

  lemma {:induction false} RemainderFits(p: word, k: nat)
    requires k <= 8 && (k == 8 || p < Top(k + 1))
    ensures Remainder(p, k) < 256
    decreases k
  {
    if k > 0 {
      CancelFits(p, k);
      RemainderFits(Cancel(p, Top(k), Poly(k)), k - 1);
    }
  }

  lemma LowAdds(p: word, q: word)
    ensures Low(WAdd(p, q)) == Add(Low(p), Low(q))
  {
  }

  lemma ModAdds(p: word, q: word)
    ensures Mod(WAdd(p, q)) == Add(Mod(p), Mod(q))
  {
    RemainderAdds(p, q, 8);
    LowAdds(Remainder(p, 8), Remainder(q, 8));
  }

  lemma DoubleIsCancel(r: word)
    requires r < 256
    ensures Low(Cancel(WShift(r), 0x0100, 0x011D)) == Double(Low(r))
  {
  }

  lemma NoTop(p: word)
    requires p < 0x8000
    ensures Cancel(p, 0x8000, 0x8E80) == p
  {
  }

  lemma ModShift(p: word)
    requires p < 0x8000
    ensures Mod(WShift(p)) == Double(Mod(p))
  {
    NoTop(p);
    assert Remainder(p, 8) == Remainder(p, 7);
    RemainderShift(p, 7);
    RemainderFits(p, 7);
    DoubleIsCancel(Remainder(p, 7));
  }

  lemma CancelSmall(p: word, k: nat)
    requires p < 256
    ensures Cancel(p, Top(k), Poly(k)) == p
  {
  }

  lemma {:induction false} RemainderSmall(p: word, k: nat)
    requires p < 256
    ensures Remainder(p, k) == p
    decreases k
  {
    if k > 0 {
      CancelSmall(p, k);
      RemainderSmall(p, k - 1);
    }
  }

  lemma LowOfByte(a: byte)
    ensures a as word < 256 && Low(a as word) == a
  {
  }

  lemma ModOfByte(a: byte)
    ensures Mod(a as word) == a
  {
    LowOfByte(a);
    RemainderSmall(a as word, 8);
  }

  /** p can be doubled n times without overflowing 16 bits. */
  predicate Small(p: word, n: nat)
    decreases n
  {
    n == 0 || (p < 0x8000 && Small(WShift(p), n - 1))
  }

  lemma ByteSmall(a: byte)
    ensures Small(a as word, 8)
  {
  }

  lemma RefIsShiftAdd(a: byte, b: byte)
    ensures RefMultiply(a, b) == ShiftAdd(0, Add, Double, a, Bits(b))
  {
    forall x, y
      ensures SumsAt(WAdd, Add, Mod, x, y)
    {
      ModAdds(x, y);
    }
    forall x, n: nat
      ensures ShiftsAt(WShift, Double, Mod, Small, x, n)
    {
      if Small(x, n + 1) {
        ModShift(x);
      }
    }
    ByteSmall(a);
    ModOfByte(a);
    ModOfByte(0);
    ShiftAddMaps(0, WAdd, WShift, 0, Add, Double, Mod, Small, a as word, Bits(b));
  }

  lemma AddAbelian()
    ensures forall x: byte, y: byte, z: byte :: AbelianAt(0, Add, x, y, z)
  {
  }

  lemma FoldBoth(a: byte, b: byte)
    ensures Add(Folded(a), Folded(b)) == Shift(Add(a, b))
  {
  }

  lemma FoldLeft(a: byte, b: byte)
    ensures Add(Folded(a), Shift(b)) == Folded(Add(a, b))
  {
  }

  lemma FoldRight(a: byte, b: byte)
    ensures Add(Shift(a), Folded(b)) == Folded(Add(a, b))
  {
  }

  lemma FoldNone(a: byte, b: byte)
    ensures Add(Shift(a), Shift(b)) == Shift(Add(a, b))
  {
  }

  lemma TopAdds(a: byte, b: byte)
    ensures TopBit(Add(a, b)) == (TopBit(a) != TopBit(b))
  {
  }

  lemma DoubleAdds(a: byte, b: byte)
    ensures Double(Add(a, b)) == Add(Double(a), Double(b))
  {
    TopAdds(a, b);
    if TopBit(a) {
      if TopBit(b) { FoldBoth(a, b); } else { FoldLeft(a, b); }
    } else {
      if TopBit(b) { FoldRight(a, b); } else { FoldNone(a, b); }
    }
  }

  lemma DoubleAdditive()
    ensures forall x: byte, y: byte :: AdditiveAt(Add, Double, x, y)
    ensures Double(0) == 0
  {
    forall x: byte, y: byte
      ensures AdditiveAt(Add, Double, x, y)
    {
      DoubleAdds(x, y);
    }
  }

  lemma RefDouble(a: byte, b: byte)
    ensures RefMultiply(Double(a), b) == Double(RefMultiply(a, b))
  {
    RefIsShiftAdd(a, b);
    RefIsShiftAdd(Double(a), b);
    DoubleAdditive();
    ShiftAddCommutes(0, Add, Double, a, Bits(b));
  }

  lemma RefAdds(a: byte, a': byte, b: byte)
    ensures RefMultiply(Add(a, a'), b) == Add(RefMultiply(a, b), RefMultiply(a', b))
  {
    RefIsShiftAdd(a, b);
    RefIsShiftAdd(a', b);
    RefIsShiftAdd(Add(a, a'), b);
    AddAbelian();
    DoubleAdditive();
    ShiftAddAdditive(0, Add, Double, a, a', Bits(b));
  }

  lemma PowersOfTwo()
    ensures Double(1) == 2 && Double(2) == 4 && Double(4) == 8 && Double(8) == 16
    ensures Double(16) == 32 && Double(32) == 64 && Double(64) == 128
  {
  }

  lemma BitsRecombine(b: byte)
    ensures Add(Term(0, b & 1 != 0, 1), Add(Term(0, b & 2 != 0, 2), Add(Term(0, b & 4 != 0, 4),
            Add(Term(0, b & 8 != 0, 8), Add(Term(0, b & 16 != 0, 16), Add(Term(0, b & 32 != 0, 32),
            Add(Term(0, b & 64 != 0, 64), Add(Term(0, b & 128 != 0, 128), 0)))))))) == b
  {
  }

  lemma RefOne(b: byte)
    ensures RefMultiply(1, b) == b
  {
    RefIsShiftAdd(1, b);
    PowersOfTwo();
    ShiftAddOfEight(0, Add, Double, 1, Bits(b));
    BitsRecombine(b);
  }

  // ----- The table multiplication is the reference multiplication --------------------------------------------------

  lemma PowersAdd(i: nat, j: nat)
    requires i < 255 && j < 255
    ensures RefMultiply(Antilog(i), Antilog(j)) == Antilog(i + j)
  {
    AllSteps();
    forall x, y
      ensures CommutesAt(RefMultiply, Double, x, y)
    {
      RefDouble(x, y);
    }
    AntilogEnds();
    RefOne(Antilog(j));
    PowersMultiply(RefMultiply, Antilog, Double, i, j, 509);
  }

  lemma RefZero(a: byte)
    ensures RefMultiply(a, 0) == 0 && RefMultiply(0, a) == 0
  {
    RefIsShiftAdd(a, 0);
    RefIsShiftAdd(0, a);
    AddAbelian();
    DoubleAdditive();
    ShiftAddZero(0, Add, Double, a, Bits(0));
    ShiftAddZero(0, Add, Double, 0, Bits(a));
  }

  lemma ZeroMeets(x: byte)
    ensures GF256.ZeroAbsorbs(RefMultiply, x)
  {
    RefZero(x);
  }

  lemma PowersMeet(i: int, j: int)
    requires 0 <= i < 255 && 0 <= j < 255
    ensures GF256.PowersMeet(RefMultiply, i, j)
  {
    PowersAdd(i, j);
  }

  lemma AllAgree()
    ensures forall a, b :: GF256.Agrees(RefMultiply, a, b)
  {
    TablesSound();
    forall x
      ensures GF256.ZeroAbsorbs(RefMultiply, x)
    {
      ZeroMeets(x);
    }
    forall i, j | 0 <= i < 255 && 0 <= j < 255
      ensures GF256.PowersMeet(RefMultiply, i, j)
    {
      PowersMeet(i, j);
    }
    GF256.MultiplyIs(RefMultiply);
  }

  /** Table multiplication is carry-less multiplication modulo x^8 + x^4 + x^3 + x^2 + 1, for all 65536 pairs. */
  lemma MultiplyIsCarryless(a: byte, b: byte)
    ensures GF256.Multiply(a, b) == RefMultiply(a, b)
  {
    AllAgree();
    assert GF256.Agrees(RefMultiply, a, b);
  }

  // ----- The laws of the field -------------------------------------------------------------------------------------

  lemma MultiplyDistributes(a: byte, b: byte, c: byte)
    ensures DistributesAt(Add, GF256.Multiply, a, b, c)
  {
    RefAdds(b, c, a);
    MultiplyIsCarryless(Add(b, c), a);
    MultiplyIsCarryless(b, a);
    MultiplyIsCarryless(c, a);
    TablesSound();
    GF256.MultiplyMonoid(a, Add(b, c), 0);
    GF256.MultiplyMonoid(a, b, 0);
    GF256.MultiplyMonoid(a, c, 0);
  }

  const GF := Ring(0 as byte, Add, GF256.Multiply)

  /** The byte operations form a commutative ring in which every element is its own negative. */
  lemma FieldLaws()
    ensures GF.Lawful()
    ensures forall a: byte :: Add(a, a) == 0
  {
    AddAbelian();
    TablesSound();
    forall a, b, c
      ensures DistributesAt(Add, GF256.Multiply, a, b, c)
    {
      MultiplyDistributes(a, b, c);
    }
    GF256.RingLaws(Add);
  }

  // ----- Exponentiation and division -------------------------------------------------------------------------------

  /** Exponentiation as repeated carry-less multiplication. */
  function RefPower(a: byte, n: nat): byte {
    GF256.Powers(RefMultiply, 1, a, n)
  }

  lemma PowerIsRepeated(a: byte, n: nat)
    ensures GF256.Repeated(a, n) == RefPower(a, n)
  {
    AllAgree();
    AntilogEnds();
    GF256.RepeatedIs(RefMultiply, a, n);
  }

  /** A negative exponent is only possible for the bases 0 and 1. */
  method Exp(a: byte, n: int) returns (r: byte)
    requires n >= 0 || a <= 1
    ensures n >= 0 ==> r == RefPower(a, n)
    ensures n < 0 ==> r == a
  {
    TablesSound();
    AntilogEnds();
    if n >= 0 {
      PowerIsRepeated(a, n);
    }
    assert GF256.ExpsBack(0);
    r := GF256.Exp(a, n);
  }

  /** Exponents add, for every base and all exponents. */
  lemma ExpAdds(a: byte, m: nat, n: nat)
    ensures RefPower(a, m + n) == GF256.Multiply(RefPower(a, m), RefPower(a, n))
  {
    TablesSound();
    GF256.RepeatedAdds(a, m, n);
    PowerIsRepeated(a, m);
    PowerIsRepeated(a, n);
    PowerIsRepeated(a, m + n);
  }

  /** Division undoes multiplication, and the other way round, by anything but zero. */
  lemma DivisionInverts(a: byte, b: byte)
    requires b != 0
    ensures GF256.Multiply(GF256.Divide(a, b), b) == a
    ensures GF256.Divide(GF256.Multiply(a, b), b) == a
  {
    TablesSound();
    GF256.MultiplyUndoesDivide(a, b);
    GF256.DivideUndoesMultiply(a, b);
  }

  /** Division by zero, and of zero, gives zero. */
  lemma DivisionByZero(a: byte)
    ensures GF256.Divide(a, 0) == 0 && GF256.Divide(0, a) == 0
  {
  }

  /** No lookup is outside the tables: sums of logarithms stay below 509, corrected differences below 255. */
  lemma LookupsInRange(a: byte, b: byte)
    requires a != 0 && b != 0
    ensures 0 <= Log(a) + Log(b) < 509
    ensures 0 <= (if Log(a) < Log(b) then Log(a) - Log(b) + 255 else Log(a) - Log(b)) < 255
  {
    TablesSound();
    GF256.IndicesInRange(a, b);
  }

  /** Subtraction is addition, and undoes it. */
  lemma SubtractionInverts(a: byte, b: byte)
    ensures Subtract(Add(a, b), b) == a && Subtract(a, b) == Add(a, b)
  {
    assert (a ^ b) ^ b == a;
  }
}
