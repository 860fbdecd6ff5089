/** Bytes as numbers. */
module Bytes {

  lemma ByteOfNumber(x: nat)
    requires x < 256
    ensures (x as bv8) as int == x
  {
  }
}
