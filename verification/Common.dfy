/** Values, signatures, configuration and the small facts shared by the protocol models. */
module Common {

  type Value = string

  type NodeId = nat

  datatype Option<T> = None | Some(value: T)

  /** A signature as the network sees it: who signed what, or the aggregate of several (signature/signature.go). */
  datatype Signature = Single(signer: NodeId, content: Value) | Aggregate(parts: set<Signature>)

  /** What the view node proposes (message/request.go); the signature is not checked by the handlers. */
  datatype Request = Request(content: Value, sig: Signature)

  const VIEW: NodeId := 0

  /** The numbers the protocols derive from the configuration; time is in milliseconds since the start time. */
  datatype Config = Config(nodeNum: nat, malicious: nat, t1: int, tickInterval: nat) {

    function Quorum(): int {
      nodeNum - malicious
    }

    function T2(): int {
      nodeNum - 1
    }

    predicate Valid() {
      nodeNum > 0 && tickInterval > 0 && malicious <= nodeNum && -1 <= t1 < nodeNum
    }

    /** The tick a moment falls in. */
    function TickOf(elapsed: nat): nat
      requires tickInterval > 0
    {
      elapsed / tickInterval
    }

    function At(tick: nat): nat {
      tick * tickInterval
    }
  }

  /** What a floating-point product does to the exact one: it keeps the order, and the whole numbers 0 and n. */
  ghost predicate Rounds(round: real -> real, n: nat) {
    && round(0.0) == 0.0 && round(n as real) == n as real
    && forall x, y :: x <= y ==> round(x) <= round(y)
  }

  /** The configuration for the two ratios of the command line (conversions truncate, and ratios are not negative). */
  ghost function Configure(nodeNum: nat, maliciousRatio: real, resilientRatio: real, tickInterval: nat,
                           round: real -> real): (c: Config)
    requires nodeNum > 0 && tickInterval > 0 && 0.0 <= maliciousRatio <= 1.0 && 0.0 <= resilientRatio <= 1.0
    requires Rounds(round, nodeNum)
    ensures c.Valid()
  {
    RatioBounds(nodeNum, maliciousRatio, round);
    RatioBounds(nodeNum, resilientRatio, round);
    Config(nodeNum, round(maliciousRatio * nodeNum as real).Floor, round(nodeNum as real * resilientRatio).Floor - 1,
           tickInterval)
  }

  lemma RatioBounds(n: nat, ratio: real, round: real -> real)
    requires 0.0 <= ratio <= 1.0 && Rounds(round, n)
    ensures 0 <= round(ratio * n as real).Floor <= n && 0 <= round(n as real * ratio).Floor <= n
  {
    var m := n as real;
    ProductBounds(ratio, m);
    assert m * ratio == ratio * m;
    assert round(0.0) <= round(ratio * m) <= round(m);
  }

  lemma ProductBounds(ratio: real, m: real)
    requires 0.0 <= ratio <= 1.0 && 0.0 <= m
    ensures 0.0 <= ratio * m <= m
  {
    assert (1.0 - ratio) * m >= 0.0;
  }

  /** A tick comparison is a comparison of times. */
  lemma TickBefore(c: Config, elapsed: nat, k: nat)
    requires c.tickInterval > 0
    ensures c.TickOf(elapsed) < k <==> elapsed < c.At(k)
  {
    var d := c.tickInterval;
    var q := elapsed / d;
    assert q * d <= elapsed < (q + 1) * d;
    if q < k {
      MulMonotone(q + 1, k, d);
    } else {
      MulMonotone(k, q, d);
    }
  }

  lemma MulMonotone(a: nat, b: nat, d: nat)
    requires a <= b
    ensures a * d <= b * d
  {
    assert b * d == a * d + (b - a) * d;
  }

  lemma AtMonotone(c: Config, a: nat, b: nat)
    requires a <= b
    ensures c.At(a) <= c.At(b)
  {
    MulMonotone(a, b, c.tickInterval);
  }

  lemma AtNext(c: Config, k: nat)
    ensures c.At(k + 1) == c.At(k) + c.tickInterval
  {
  }

  // ----- Sets of size one ------------------------------------------------------------------------------------------

  lemma SingletonIsUnique<T>(s: set<T>, x: T, y: T)
    requires |s| == 1 && x in s && y in s
    ensures x == y
  {
    assert |s - {x}| == 0;
    assert y !in s - {x};
  }

  /** GetItems()[0] of a set of size one. */
  function TheOnly<T>(s: set<T>): (x: T)
    requires |s| == 1
    ensures s == {x}
  {
    assert s != {};
    assert forall x, y :: x in s && y in s ==> x == y by {
      forall x, y | x in s && y in s
        ensures x == y
      {
        SingletonIsUnique(s, x, y);
      }
    }
    var x :| x in s;
    x
  }

  lemma SubsetSize<T>(a: set<T>, b: set<T>)
    requires a <= b
    ensures |a| <= |b|
    ensures |a| == |b| ==> a == b
  {
    assert b == a + (b - a);
    assert |b| == |a| + |b - a|;
  }

  /** A set of strings that several owners hold by reference (utils/set.go). */
  class StringSet {
    var data: set<Value>

    constructor ()
      ensures data == {}
    {
      data := {};
    }
  }
}
