module Bytes {
  type byte = x: int | 0 <= x < 256

  const U64_MAX: nat := 0xFFFF_FFFF_FFFF_FFFF

  /** Zero bytes. */
  function Zeros(n: nat): (z: seq<byte>)
    ensures |z| == n
  {
    seq(n, _ => 0)
  }

  /** How many numbers fit in so many bytes. */
  function Capacity(width: nat): (p: nat)
    ensures p >= 1
  {
    if width == 0 then 1 else 256 * Capacity(width - 1)
  }

  lemma ConcatAssociates(a: seq<byte>, b: seq<byte>, c: seq<byte>)
    ensures a + b + c == a + (b + c)
  {
  }

  lemma ConcatSlices(a: seq<byte>, b: seq<byte>)
    ensures (a + b)[..|a|] == a && (a + b)[|a|..] == b
  {
  }
}
