/** Byte strings. */
module Octets {
  type Byte = x: nat | x < 256
  type Bytes = seq<Byte>

  function Zeros(n: nat): (b: Bytes)
    ensures |b| == n
  {
    seq(n, _ => 0)
  }
}
