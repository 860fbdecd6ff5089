/** The algebra the field and the encoder need, over an arbitrary type of scalars.

    Laws are stated as one predicate per instance, so that a proof names the instances it uses. */
module Algebra {

  ghost predicate AbelianAt<T>(zero: T, add: (T, T) -> T, x: T, y: T, z: T) {
    && add(x, y) == add(y, x)
    && add(add(x, y), z) == add(x, add(y, z))
    && add(zero, x) == x
  }

  ghost predicate MonoidAt<T>(zero: T, mul: (T, T) -> T, x: T, y: T, z: T) {
    && mul(x, y) == mul(y, x)
    && mul(mul(x, y), z) == mul(x, mul(y, z))
    && mul(x, zero) == zero
  }

  ghost predicate DistributesAt<T>(add: (T, T) -> T, mul: (T, T) -> T, x: T, y: T, z: T) {
    mul(x, add(y, z)) == add(mul(x, y), mul(x, z))
  }

  ghost predicate AdditiveAt<T>(add: (T, T) -> T, d: T -> T, x: T, y: T) {
    d(add(x, y)) == add(d(x), d(y))
  }

  datatype Ring<!T(!new)> = Ring(zero: T, add: (T, T) -> T, mul: (T, T) -> T) {
    /** A commutative semiring; subtraction is not used, addition being its own inverse in characteristic 2. */
    ghost predicate Lawful() {
      && (forall x, y, z :: AbelianAt(zero, add, x, y, z))
      && (forall x, y, z :: MonoidAt(zero, mul, x, y, z))
      && (forall x, y, z :: DistributesAt(add, mul, x, y, z))
    }
  }

  lemma Regroup<T(!new)>(zero: T, add: (T, T) -> T, a: T, b: T, c: T, d: T)
    requires forall x, y, z :: AbelianAt(zero, add, x, y, z)
    ensures add(add(a, b), add(c, d)) == add(add(a, c), add(b, d))
  {
    assert AbelianAt(zero, add, a, b, add(c, d));
    assert AbelianAt(zero, add, b, c, d);
    assert AbelianAt(zero, add, c, b, d);
    assert AbelianAt(zero, add, a, c, add(b, d));
  }

  // ----- Shift-and-add multiplication ------------------------------------------------------------------------------

  function Term<T>(zero: T, c: bool, a: T): T {
    if c then a else zero
  }

  /** The sum of those of a, d(a), d(d(a)), ... that bits picks out. */
  function ShiftAdd<T>(zero: T, add: (T, T) -> T, d: T -> T, a: T, bits: seq<bool>): T {
    if bits == [] then zero
    else add(Term(zero, bits[0], a), ShiftAdd(zero, add, d, d(a), bits[1..]))
  }

  lemma {:induction false} ShiftAddCommutes<T(!new)>(zero: T, add: (T, T) -> T, d: T -> T, a: T, bits: seq<bool>)
    requires forall x, y :: AdditiveAt(add, d, x, y)
    requires d(zero) == zero
    ensures ShiftAdd(zero, add, d, d(a), bits) == d(ShiftAdd(zero, add, d, a, bits))
    decreases |bits|
  {
    if bits != [] {
      ShiftAddCommutes(zero, add, d, d(a), bits[1..]);
      assert AdditiveAt(add, d, Term(zero, bits[0], a), ShiftAdd(zero, add, d, d(a), bits[1..]));
    }
  }

  lemma {:induction false} ShiftAddAdditive<T(!new)>(zero: T, add: (T, T) -> T, d: T -> T, a: T, b: T, bits: seq<bool>)
    requires forall x, y, z :: AbelianAt(zero, add, x, y, z)
    requires forall x, y :: AdditiveAt(add, d, x, y)
    ensures ShiftAdd(zero, add, d, add(a, b), bits)
         == add(ShiftAdd(zero, add, d, a, bits), ShiftAdd(zero, add, d, b, bits))
    decreases |bits|
  {
    assert AbelianAt(zero, add, zero, zero, zero);
    if bits != [] {
      assert AdditiveAt(add, d, a, b);
      ShiftAddAdditive(zero, add, d, d(a), d(b), bits[1..]);
      Regroup(zero, add, Term(zero, bits[0], a), Term(zero, bits[0], b),
              ShiftAdd(zero, add, d, d(a), bits[1..]), ShiftAdd(zero, add, d, d(b), bits[1..]));
    }
  }

  lemma {:induction false} ShiftAddZero<T(!new)>(zero: T, add: (T, T) -> T, d: T -> T, a: T, bits: seq<bool>)
    requires forall x, y, z :: AbelianAt(zero, add, x, y, z)
    requires (forall k :: 0 <= k < |bits| ==> !bits[k]) || (a == zero && d(zero) == zero)
    ensures ShiftAdd(zero, add, d, a, bits) == zero
    decreases |bits|
  {
    if bits != [] {
      ShiftAddZero(zero, add, d, d(a), bits[1..]);
      assert AbelianAt(zero, add, zero, zero, zero);
    }
  }

  lemma ShiftAddStep<T>(zero: T, add: (T, T) -> T, d: T -> T, a: T, bits: seq<bool>, k: nat)
    requires k < |bits|
    ensures ShiftAdd(zero, add, d, a, bits[k..])
         == add(Term(zero, bits[k], a), ShiftAdd(zero, add, d, d(a), bits[k + 1..]))
  {
    assert bits[k..][1..] == bits[k + 1..];
  }

  lemma ShiftAddOfEight<T>(zero: T, add: (T, T) -> T, d: T -> T, a0: T, bits: seq<bool>)
    requires |bits| == 8
    ensures (
      var a1 := d(a0); var a2 := d(a1); var a3 := d(a2); var a4 := d(a3);
      var a5 := d(a4); var a6 := d(a5); var a7 := d(a6);
      ShiftAdd(zero, add, d, a0, bits)
      == add(Term(zero, bits[0], a0), add(Term(zero, bits[1], a1), add(Term(zero, bits[2], a2),
         add(Term(zero, bits[3], a3), add(Term(zero, bits[4], a4), add(Term(zero, bits[5], a5),
         add(Term(zero, bits[6], a6), add(Term(zero, bits[7], a7), zero)))))))))
  {
    var a1 := d(a0); var a2 := d(a1); var a3 := d(a2); var a4 := d(a3);
    var a5 := d(a4); var a6 := d(a5); var a7 := d(a6);
    assert bits[0..] == bits && bits[8..] == [];
    ShiftAddStep(zero, add, d, a7, bits, 7);
    ShiftAddStep(zero, add, d, a6, bits, 6);
    ShiftAddStep(zero, add, d, a5, bits, 5);
    ShiftAddStep(zero, add, d, a4, bits, 4);
    ShiftAddStep(zero, add, d, a3, bits, 3);
    ShiftAddStep(zero, add, d, a2, bits, 2);
    ShiftAddStep(zero, add, d, a1, bits, 1);
    ShiftAddStep(zero, add, d, a0, bits, 0);
  }

  ghost predicate SumsAt<S, T>(addS: (S, S) -> S, addT: (T, T) -> T, h: S -> T, x: S, y: S) {
    h(addS(x, y)) == addT(h(x), h(y))
  }

  ghost predicate ShiftsAt<S, T>(dS: S -> S, dT: T -> T, h: S -> T, small: (S, nat) -> bool, x: S, n: nat) {
    small(x, n + 1) ==> h(dS(x)) == dT(h(x)) && small(dS(x), n)
  }

  /** A map that respects addition, and doubling as long as there is room, respects shift-and-add multiplication. */
  lemma {:induction false} ShiftAddMaps<S(!new), T(!new)>(
      zeroS: S, addS: (S, S) -> S, dS: S -> S, zeroT: T, addT: (T, T) -> T, dT: T -> T,
      h: S -> T, small: (S, nat) -> bool, a: S, bits: seq<bool>)
    requires h(zeroS) == zeroT
    requires forall x, y :: SumsAt(addS, addT, h, x, y)
    requires forall x, n: nat :: ShiftsAt(dS, dT, h, small, x, n)
    requires small(a, |bits|)
    ensures h(ShiftAdd(zeroS, addS, dS, a, bits)) == ShiftAdd(zeroT, addT, dT, h(a), bits)
    decreases |bits|
  {
    if bits != [] {
      assert ShiftsAt(dS, dT, h, small, a, |bits| - 1);
      ShiftAddMaps(zeroS, addS, dS, zeroT, addT, dT, h, small, dS(a), bits[1..]);
      assert SumsAt(addS, addT, h, Term(zeroS, bits[0], a), ShiftAdd(zeroS, addS, dS, dS(a), bits[1..]));
    }
  }

  // ----- Powers of a generator -------------------------------------------------------------------------------------

  ghost predicate StepsAt<T>(power: int -> T, d: T -> T, i: int) {
    power(i + 1) == d(power(i))
  }

  lemma {:induction false} PowersRepeat<T(!new)>(power: int -> T, d: T -> T, i: nat, period: nat, n: nat)
    requires forall k :: 0 <= k < n ==> StepsAt(power, d, k)
    requires power(period) == power(0)
    requires i + period <= n
    ensures power(i + period) == power(i)
    decreases i
  {
    if i > 0 {
      PowersRepeat(power, d, i - 1, period, n);
      assert StepsAt(power, d, i - 1);
      assert StepsAt(power, d, i - 1 + period);
    }
  }

  ghost predicate CommutesAt<T>(mul: (T, T) -> T, d: T -> T, x: T, y: T) {
    mul(d(x), y) == d(mul(x, y))
  }

  /** Exponents add when powers are multiplied, as far as the table of powers reaches. */
  lemma {:induction false} PowersMultiply<T(!new)>(mul: (T, T) -> T, power: int -> T, d: T -> T, i: nat, j: nat, n: nat)
    requires forall k :: 0 <= k < n ==> StepsAt(power, d, k)
    requires forall x, y :: CommutesAt(mul, d, x, y)
    requires mul(power(0), power(j)) == power(j)
    requires i + j <= n
    ensures mul(power(i), power(j)) == power(i + j)
    decreases i
  {
    if i > 0 {
      PowersMultiply(mul, power, d, i - 1, j, n);
      assert StepsAt(power, d, i - 1);
      assert StepsAt(power, d, i - 1 + j);
      assert CommutesAt(mul, d, power(i - 1), power(j));
    }
  }

  // ----- Counting --------------------------------------------------------------------------------------------------

  function UpTo(n: nat): (s: set<int>)
    ensures forall k :: k in s <==> 1 <= k <= n
    ensures |s| == n
  {
    if n == 0 then {} else UpTo(n - 1) + {n}
  }

  ghost predicate SentBack(f: int -> int, g: int -> int, n: nat, i: int) {
    1 <= f(i) <= n && g(f(i)) == i
  }

  ghost predicate Reached(f: int -> int, g: int -> int, n: int, k: int) {
    0 <= g(k) < n && f(g(k)) == k
  }

  lemma NewValue(f: int -> int, g: int -> int, n: nat, m: nat, s: set<int>)
    requires 0 < m <= n && SentBack(f, g, n, m - 1)
    requires forall k :: k in s ==> Reached(f, g, m - 1, k)
    ensures f(m - 1) !in s
    ensures forall k :: k in s + {f(m - 1)} ==> Reached(f, g, m, k)
  {
    assert f(m - 1) in s ==> Reached(f, g, m - 1, f(m - 1));
    forall k | k in s + {f(m - 1)}
      ensures Reached(f, g, m, k)
    {
      if k in s {
        assert Reached(f, g, m - 1, k);
      }
    }
  }

  /** The values f takes on 0..m-1: m of them, all between 1 and n, and g takes each back to where it came from. */
  lemma {:induction false} Image(f: int -> int, g: int -> int, n: nat, m: nat) returns (s: set<int>)
    requires m <= n && forall i :: 0 <= i < n ==> SentBack(f, g, n, i)
    ensures |s| == m && s <= UpTo(n)
    ensures forall k :: k in s ==> Reached(f, g, m, k)
  {
    if m == 0 {
      s := {};
    } else {
      var before := Image(f, g, n, m - 1);
      assert SentBack(f, g, n, m - 1);
      NewValue(f, g, n, m, before);
      s := before + {f(m - 1)};
    }
  }

  /** A function from 0..n-1 to 1..n with a left inverse reaches every value, so the left inverse is an inverse. */
  lemma LeftInverseIsInverse(f: int -> int, g: int -> int, n: nat)
    requires forall i :: 0 <= i < n ==> SentBack(f, g, n, i)
    ensures forall k :: 1 <= k <= n ==> Reached(f, g, n, k)
  {
    var s := Image(f, g, n, n);
    var rest := UpTo(n) - s;
    assert UpTo(n) == s + rest;
    assert |UpTo(n)| == |s| + |rest|;
    forall k | 1 <= k <= n
      ensures Reached(f, g, n, k)
    {
      assert k in s;
    }
  }
}
