/** Multiplication through logarithm and antilogarithm tables (addon/coding/GaloisField.go:109-156), for any tables
    that are inverse to each other with a period; GaloisField supplies the tables of the source. */
module LogTables {

  import opened Algebra

  datatype Tables<!T(==,!new)> = Tables(zero: T, log: T -> int, exp: int -> T, period: nat) {

    ghost predicate LogsBack(a: T) {
      a != zero ==> 0 <= log(a) < period && exp(log(a)) == a
    }

    ghost predicate ExpsBack(i: int) {
      0 <= i < period ==> exp(i) != zero && log(exp(i)) == i && exp(i + period) == exp(i)
    }

    ghost predicate Sound() {
      && period > 0
      && (forall a :: LogsBack(a))
      && (forall i :: ExpsBack(i))
    }

    function Multiply(a: T, b: T): T {
      if a == zero || b == zero then zero else exp(log(a) + log(b))
    }

    function Divide(a: T, b: T): T {
      if a == zero || b == zero then zero
      else
        var logResult := log(a) - log(b);
        exp(if logResult < 0 then logResult + period else logResult)
    }

    /** The n-th power of the generator, for every n. */
    function Generator(n: nat): T
      requires period > 0
    {
      exp(n % period)
    }

    lemma GeneratorLog(n: nat)
      requires Sound()
      ensures Generator(n) != zero && log(Generator(n)) == n % period
    {
      assert ExpsBack(n % period);
    }

    lemma GeneratorReaches(a: T)
      requires Sound() && a != zero
      ensures 0 <= log(a) < period && Generator(log(a)) == a
    {
      assert LogsBack(a);
    }

    /** Exponents add: the reason the tables multiply. */
    lemma GeneratorsMultiply(m: nat, n: nat)
      requires Sound()
      ensures Multiply(Generator(m), Generator(n)) == Generator(m + n)
    {
      GeneratorLog(m);
      GeneratorLog(n);
      var i := m % period + n % period;
      ModAdds(m, n, period);
      if i >= period {
        assert ExpsBack(i - period);
      }
    }

    /** The table indices stay inside a table of 2 * period entries: no lookup of the source is out of range. */
    lemma IndicesInRange(a: T, b: T)
      requires Sound() && a != zero && b != zero
      ensures 0 <= log(a) + log(b) < 2 * period - 1
      ensures 0 <= (if log(a) < log(b) then log(a) - log(b) + period else log(a) - log(b)) < period
    {
      assert LogsBack(a) && LogsBack(b);
    }

    lemma MultiplyUnit(a: T)
      requires Sound()
      ensures exp(0) != zero && Multiply(exp(0), a) == a
    {
      assert ExpsBack(0);
      if a != zero {
        GeneratorReaches(a);
        GeneratorsMultiply(0, log(a));
        assert Generator(0) == exp(0);
      }
    }

    lemma MultiplyMonoid(a: T, b: T, c: T)
      requires Sound()
      ensures MonoidAt(zero, Multiply, a, b, c)
    {
      if a != zero && b != zero {
        GeneratorReaches(a);
        GeneratorReaches(b);
        GeneratorsMultiply(log(a), log(b));
        GeneratorLog(log(a) + log(b));
        if c != zero {
          GeneratorReaches(c);
          GeneratorsMultiply(log(b), log(c));
          GeneratorLog(log(b) + log(c));
          GeneratorsMultiply(log(a) + log(b), log(c));
          GeneratorsMultiply(log(a), log(b) + log(c));
        }
      }
      if b != zero && c != zero {
        GeneratorReaches(b);
        GeneratorReaches(c);
        GeneratorsMultiply(log(b), log(c));
        GeneratorLog(log(b) + log(c));
      }
    }

    lemma MultiplyUndoesDivide(a: T, b: T)
      requires Sound() && b != zero
      ensures Multiply(Divide(a, b), b) == a
    {
      if a != zero {
        GeneratorReaches(a);
        GeneratorReaches(b);
        var i, j := log(a), log(b);
        var k := if i < j then i - j + period else i - j;
        ModOf(k, 0, k, period);
        assert Divide(a, b) == Generator(k);
        GeneratorsMultiply(k, j);
        if i < j {
          ModDrops(i + period, period);
        }
        assert Generator(k + j) == Generator(i);
      }
    }

    lemma DivideUndoesMultiply(a: T, b: T)
      requires Sound() && b != zero
      ensures Divide(Multiply(a, b), b) == a
    {
      if a != zero {
        GeneratorReaches(a);
        GeneratorReaches(b);
        var i, j := log(a), log(b);
        GeneratorsMultiply(i, j);
        GeneratorLog(i + j);
        if i + j < period {
          ModOf(i + j, 0, i + j, period);
        } else {
          ModOf(i + j, 1, i + j - period, period);
        }
        ModOf(i, 0, i, period);
      }
    }

    ghost predicate PowersMeet(ref: (T, T) -> T, i: int, j: int) {
      ref(exp(i), exp(j)) == exp(i + j)
    }

    ghost predicate ZeroAbsorbs(ref: (T, T) -> T, x: T) {
      ref(zero, x) == zero && ref(x, zero) == zero
    }

    ghost predicate Agrees(ref: (T, T) -> T, a: T, b: T) {
      Multiply(a, b) == ref(a, b)
    }

    /** Any multiplication that adds the exponents of powers, and has the zero, is the one the tables compute. */
    lemma MultiplyIs(ref: (T, T) -> T)
      requires Sound()
      requires forall x :: ZeroAbsorbs(ref, x)
      requires forall i, j :: 0 <= i < period && 0 <= j < period ==> PowersMeet(ref, i, j)
      ensures forall a, b :: Agrees(ref, a, b)
    {
      forall a, b
        ensures Agrees(ref, a, b)
      {
        assert LogsBack(a) && LogsBack(b) && ZeroAbsorbs(ref, a) && ZeroAbsorbs(ref, b);
        if a != zero && b != zero {
          assert PowersMeet(ref, log(a), log(b));
        }
      }
    }

    lemma RingLaws(add: (T, T) -> T)
      requires Sound()
      requires forall x, y, z :: AbelianAt(zero, add, x, y, z)
      requires forall x, y, z :: DistributesAt(add, Multiply, x, y, z)
      ensures Ring(zero, add, Multiply).Lawful()
    {
      forall a, b, c
        ensures MonoidAt(zero, Multiply, a, b, c)
      {
        MultiplyMonoid(a, b, c);
      }
    }

    // ----- Exponentiation ------------------------------------------------------------------------------------------

    /** Exponentiation as repeated multiplication. */
    function Repeated(a: T, n: nat): T {
      if n == 0 then exp(0) else Multiply(a, Repeated(a, n - 1))
    }

    lemma {:induction false} RepeatedGenerator(a: T, n: nat)
      requires Sound() && a != zero
      ensures 0 <= log(a) * n && Repeated(a, n) == Generator(log(a) * n)
    {
      GeneratorReaches(a);
      if n > 0 {
        RepeatedGenerator(a, n - 1);
        assert log(a) * n == log(a) + log(a) * (n - 1);
        GeneratorsMultiply(log(a), log(a) * (n - 1));
      }
    }

    function Powers(ref: (T, T) -> T, one: T, a: T, n: nat): T {
      if n == 0 then one else ref(a, Powers(ref, one, a, n - 1))
    }

    /** The same with any multiplication that agrees with the tables. */
    lemma {:induction false} RepeatedIs(ref: (T, T) -> T, a: T, n: nat)
      requires forall x, y :: Agrees(ref, x, y)
      ensures Repeated(a, n) == Powers(ref, exp(0), a, n)
    {
      if n > 0 {
        RepeatedIs(ref, a, n - 1);
        assert Agrees(ref, a, Repeated(a, n - 1));
      }
    }

    /** One lookup, after reducing the exponent by the period in a loop, gives the n-fold product.  A negative
        exponent takes the lookup outside the table, unless the base is zero or its logarithm is; then the base comes
        back. */
    method Exp(a: T, n: int) returns (r: T)
      requires Sound() && (n >= 0 || a == zero || log(a) == 0)
      ensures if n >= 0 then r == Repeated(a, n) else r == a
    {
      if n == 0 {
        return exp(0);
      }
      if a == zero {
        return zero;
      }
      var logResult := log(a) * n;
      ghost var total := logResult;
      if n > 0 {
        RepeatedGenerator(a, n);
      } else {
        assert LogsBack(a) && total == 0;
      }
      while logResult >= period
        invariant 0 <= logResult
        invariant logResult % period == total % period
      {
        ModDrops(logResult, period);
        logResult := logResult - period;
      }
      ModOf(logResult, 0, logResult, period);
      return exp(logResult);
    }

    /** Exponents add under Exp, for every base (zero included) and all exponents. */
    lemma {:induction false} RepeatedAdds(a: T, m: nat, n: nat)
      requires Sound()
      ensures Repeated(a, m + n) == Multiply(Repeated(a, m), Repeated(a, n))
      decreases m
    {
      if m == 0 {
        MultiplyUnit(Repeated(a, n));
      } else {
        RepeatedAdds(a, m - 1, n);
        MultiplyMonoid(a, Repeated(a, m - 1), Repeated(a, n));
      }
    }
  }

  lemma ModDrops(m: int, p: int)
    requires p > 0
    ensures (m - p) % p == m % p
  {
    assert m == p * (m / p) + m % p;
    ModOf(m - p, m / p - 1, m % p, p);
  }

  lemma ModOf(m: int, q: int, r: int, p: int)
    requires p > 0 && m == p * q + r && 0 <= r < p
    ensures m % p == r
  {
    var d := m / p;
    assert p * (q - d) == m % p - r;
    if q > d {
      MulAtLeast(p, q - d);
    } else if q < d {
      MulAtLeast(p, d - q);
    }
  }

  lemma MulAtLeast(p: int, k: int)
    requires p > 0 && k >= 1
    ensures p * k >= p
  {
    assert p * k == p + p * (k - 1);
  }

  lemma ModAdds(m: int, n: int, p: int)
    requires p > 0
    ensures (m + n) % p == (if m % p + n % p < p then m % p + n % p else m % p + n % p - p)
  {
    var q := m / p + n / p;
    assert m + n == p * q + (m % p + n % p);
    if m % p + n % p < p {
      ModOf(m + n, q, m % p + n % p, p);
    } else {
      assert p * (q + 1) == p * q + p;
      ModOf(m + n, q + 1, m % p + n % p - p, p);
    }
  }
}
