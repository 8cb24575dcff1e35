/** Bytes as machine words and as numbers. */
module Octet {
  /** A number below 256 is kept by the conversion to a byte. */
  lemma ByteOf(n: nat)
    requires n < 256
    ensures (n as bv8) as nat == n
  {
  }
}
