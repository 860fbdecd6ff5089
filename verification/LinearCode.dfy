/** Linear combinations of blocks over a commutative ring: what the random linear encoder computes, independently of
    how it loops. */
module LinearCode {

  import opened Algebra

  /** The sum of v[i] * x[i]. */
  function Dot<T(!new)>(r: Ring<T>, v: seq<T>, x: seq<T>): T
    requires |v| == |x|
  {
    if v == [] then r.zero
    else r.add(Dot(r, v[..|v| - 1], x[..|v| - 1]), r.mul(v[|v| - 1], x[|v| - 1]))
  }

  /** Byte j of every block. */
  function Column<T>(blocks: seq<seq<T>>, j: nat): (x: seq<T>)
    requires forall i :: 0 <= i < |blocks| ==> j < |blocks[i]|
    ensures |x| == |blocks| && forall i :: 0 <= i < |blocks| ==> x[i] == blocks[i][j]
  {
    seq(|blocks|, i requires 0 <= i < |blocks| => blocks[i][j])
  }

  ghost predicate Rectangular<T>(blocks: seq<seq<T>>, width: nat) {
    forall i :: 0 <= i < |blocks| ==> |blocks[i]| == width
  }

  /** The combination of blocks with coefficients v: a row vector times a matrix. */
  function Combine<T(!new)>(r: Ring<T>, v: seq<T>, blocks: seq<seq<T>>, width: nat): (c: seq<T>)
    requires |v| == |blocks| && Rectangular(blocks, width)
    ensures |c| == width
    ensures forall j :: 0 <= j < width ==> c[j] == Dot(r, v, Column(blocks, j))
  {
    seq(width, j requires 0 <= j < width => Dot(r, v, Column(blocks, j)))
  }

  /** The matrix product: every row of a combined with the rows of b. */
  function Product<T(!new)>(r: Ring<T>, a: seq<seq<T>>, b: seq<seq<T>>, width: nat): (c: seq<seq<T>>)
    requires Rectangular(a, |b|) && Rectangular(b, width)
    ensures |c| == |a| && Rectangular(c, width)
    ensures forall i :: 0 <= i < |a| ==> c[i] == Combine(r, a[i], b, width)
  {
    seq(|a|, i requires 0 <= i < |a| => Combine(r, a[i], b, width))
  }

  /** The row of the identity matrix with a one in place k. */
  function Unit<T>(zero: T, one: T, k: nat, n: nat): (u: seq<T>)
    ensures |u| == n
    ensures forall i :: 0 <= i < n ==> u[i] == if i == k then one else zero
  {
    seq(n, i => if i == k then one else zero)
  }

  function Sum<T>(add: (T, T) -> T, x: seq<T>, y: seq<T>): (z: seq<T>)
    requires |x| == |y|
    ensures |z| == |x| && forall i :: 0 <= i < |x| ==> z[i] == add(x[i], y[i])
  {
    seq(|x|, i requires 0 <= i < |x| => add(x[i], y[i]))
  }

  function Scale<T>(mul: (T, T) -> T, c: T, x: seq<T>): (z: seq<T>)
    ensures |z| == |x| && forall i :: 0 <= i < |x| ==> z[i] == mul(c, x[i])
  {
    seq(|x|, i requires 0 <= i < |x| => mul(c, x[i]))
  }

  // ----- The inner product is bilinear -----------------------------------------------------------------------------

  lemma ScaleNext<T(!new)>(mul: (T, T) -> T, c: T, x: seq<T>, i: nat)
    requires i < |x|
    ensures Scale(mul, c, x)[..i + 1] == Scale(mul, c, x)[..i] + [mul(c, x[i])]
  {
  }

  lemma {:induction false} DotSum<T(!new)>(r: Ring<T>, v: seq<T>, x: seq<T>, y: seq<T>)
    requires r.Lawful() && |v| == |x| == |y|
    ensures Dot(r, v, Sum(r.add, x, y)) == r.add(Dot(r, v, x), Dot(r, v, y))
    decreases |v|
  {
    assert AbelianAt(r.zero, r.add, r.zero, r.zero, r.zero);
    var n := |v| - 1;
    if v != [] {
      var z := Sum(r.add, x, y);
      assert z[..n] == Sum(r.add, x[..n], y[..n]);
      DotSum(r, v[..n], x[..n], y[..n]);
      assert DistributesAt(r.add, r.mul, v[n], x[n], y[n]);
      Regroup(r.zero, r.add, Dot(r, v[..n], x[..n]), Dot(r, v[..n], y[..n]), r.mul(v[n], x[n]), r.mul(v[n], y[n]));
    }
  }

  lemma {:induction false} DotScale<T(!new)>(r: Ring<T>, v: seq<T>, c: T, x: seq<T>)
    requires r.Lawful() && |v| == |x|
    ensures Dot(r, v, Scale(r.mul, c, x)) == r.mul(c, Dot(r, v, x))
    decreases |v|
  {
    var n := |v| - 1;
    if v == [] {
      assert MonoidAt(r.zero, r.mul, c, c, c);
    } else {
      var z := Scale(r.mul, c, x);
      assert z[..n] == Scale(r.mul, c, x[..n]);
      DotScale(r, v[..n], c, x[..n]);
      assert MonoidAt(r.zero, r.mul, v[n], c, x[n]);
      assert MonoidAt(r.zero, r.mul, c, v[n], x[n]);
      assert DistributesAt(r.add, r.mul, c, Dot(r, v[..n], x[..n]), r.mul(v[n], x[n]));
    }
  }

  lemma {:induction false} DotSymmetric<T(!new)>(r: Ring<T>, v: seq<T>, x: seq<T>)
    requires r.Lawful() && |v| == |x|
    ensures Dot(r, v, x) == Dot(r, x, v)
    decreases |v|
  {
    if v != [] {
      DotSymmetric(r, v[..|v| - 1], x[..|v| - 1]);
      assert MonoidAt(r.zero, r.mul, v[|v| - 1], x[|v| - 1], r.zero);
    }
  }

  lemma {:induction false} DotZeros<T(!new)>(r: Ring<T>, v: seq<T>, x: seq<T>)
    requires r.Lawful() && |v| == |x|
    requires forall i :: 0 <= i < |v| ==> v[i] == r.zero
    ensures Dot(r, v, x) == r.zero
    decreases |v|
  {
    if v != [] {
      DotZeros(r, v[..|v| - 1], x[..|v| - 1]);
      assert MonoidAt(r.zero, r.mul, x[|v| - 1], r.zero, r.zero);
      assert AbelianAt(r.zero, r.add, r.zero, r.zero, r.zero);
    }
  }

  /** An inner product with a row of the identity picks out one entry. */
  lemma {:induction false} DotUnit<T(!new)>(r: Ring<T>, one: T, k: nat, x: seq<T>)
    requires r.Lawful() && k < |x|
    requires forall a :: r.mul(one, a) == a
    ensures Dot(r, Unit(r.zero, one, k, |x|), x) == x[k]
    decreases |x|
  {
    var n := |x| - 1;
    var u := Unit(r.zero, one, k, |x|);
    if k == n {
      DotZeros(r, u[..n], x[..n]);
      assert AbelianAt(r.zero, r.add, x[n], r.zero, r.zero);
    } else {
      assert u[..n] == Unit(r.zero, one, k, n);
      DotUnit(r, one, k, x[..n]);
      assert MonoidAt(r.zero, r.mul, x[n], r.zero, r.zero);
      assert AbelianAt(r.zero, r.add, x[k], r.zero, r.zero);
    }
  }

  // ----- Combining combinations ------------------------------------------------------------------------------------

  /** Combining with b what was combined with the rows of a is combining once with b * a (one column). */
  lemma {:induction false} DotProduct<T(!new)>(r: Ring<T>, b: seq<T>, a: seq<seq<T>>, x: seq<T>)
    requires r.Lawful() && |b| == |a| && Rectangular(a, |x|)
    ensures Dot(r, b, seq(|a|, i requires 0 <= i < |a| => Dot(r, a[i], x)))
         == Dot(r, Combine(r, b, a, |x|), x)
    decreases |b|
  {
    var inner := seq(|a|, i requires 0 <= i < |a| => Dot(r, a[i], x));
    var ba := Combine(r, b, a, |x|);
    if b == [] {
      DotZeros(r, ba, x);
    } else {
      var n := |b| - 1;
      var inner' := seq(n, i requires 0 <= i < n => Dot(r, a[..n][i], x));
      assert inner[..n] == inner';
      DotProduct(r, b[..n], a[..n], x);
      var ba' := Combine(r, b[..n], a[..n], |x|);
      var last := Scale(r.mul, b[n], a[n]);
      forall j | 0 <= j < |x|
        ensures ba[j] == r.add(ba'[j], last[j])
      {
        assert Column(a, j)[..n] == Column(a[..n], j);
      }
      assert ba == Sum(r.add, ba', last);
      DotSymmetric(r, ba, x);
      DotSum(r, x, ba', last);
      DotSymmetric(r, x, ba');
      DotScale(r, x, b[n], a[n]);
      DotSymmetric(r, x, a[n]);
    }
  }

  /** The same for whole blocks. */
  lemma CombineProduct<T(!new)>(r: Ring<T>, b: seq<T>, a: seq<seq<T>>, blocks: seq<seq<T>>, width: nat)
    requires r.Lawful() && |b| == |a| && Rectangular(a, |blocks|) && Rectangular(blocks, width)
    ensures Combine(r, b, Product(r, a, blocks, width), width)
         == Combine(r, Combine(r, b, a, |blocks|), blocks, width)
  {
    var encoded := Product(r, a, blocks, width);
    var ba := Combine(r, b, a, |blocks|);
    forall j | 0 <= j < width
      ensures Combine(r, b, encoded, width)[j] == Combine(r, ba, blocks, width)[j]
    {
      var x := Column(blocks, j);
      DotProduct(r, b, a, x);
      assert Column(encoded, j) == seq(|a|, i requires 0 <= i < |a| => Dot(r, a[i], x));
    }
  }

  /** If d is a left inverse of a, combining the coded blocks with row k of d gives back block k. */
  lemma Recovered<T(!new)>(r: Ring<T>, one: T, d: seq<seq<T>>, a: seq<seq<T>>, blocks: seq<seq<T>>, width: nat, k: nat)
    requires r.Lawful() && forall x :: r.mul(one, x) == x
    requires Rectangular(a, |blocks|) && Rectangular(blocks, width) && k < |blocks|
    requires |d| == |blocks| && Rectangular(d, |a|)
    requires Product(r, d, a, |blocks|) == seq(|blocks|, i requires 0 <= i < |blocks| => Unit(r.zero, one, i, |blocks|))
    ensures Combine(r, d[k], Product(r, a, blocks, width), width) == blocks[k]
  {
    CombineProduct(r, d[k], a, blocks, width);
    assert Combine(r, d[k], a, |blocks|) == Product(r, d, a, |blocks|)[k] == Unit(r.zero, one, k, |blocks|);
    forall j | 0 <= j < width
      ensures Combine(r, Unit(r.zero, one, k, |blocks|), blocks, width)[j] == blocks[k][j]
    {
      DotUnit(r, one, k, Column(blocks, j));
    }
  }
}
