/** Bytes, and memory whose contents nobody knows. */
module Bytes {
  newtype byte = x: int | 0 <= x < 256

  /** Some bytes of which nothing is known but their number. */
  method Garbage(n: nat) returns (r: seq<byte>)
    ensures |r| == n
  {
    r := [];
    while |r| < n
      invariant |r| <= n
    {
      var b: byte := *;
      r := r + [b];
    }
  }
}
