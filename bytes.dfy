/** Bytes, and unsigned values stored as little-endian byte strings (the
    byte order of the x86 machines the traced memory comes from). */
module Bytes {
  newtype byte = b: int | 0 <= b < 256

  function Pow256(n: nat): (p: nat)
    ensures p > 0
  {
    if n == 0 then 1 else 256 * Pow256(n - 1)
  }

  /** The n lowest bytes of value, least significant first: what storing
      value truncated to an n-byte unsigned integer puts in memory. */
  function LowBytes(value: nat, n: nat): (bs: seq<byte>)
    ensures |bs| == n
  {
    if n == 0 then [] else [(value % 256) as byte] + LowBytes(value / 256, n - 1)
  }

  /** The unsigned value of a little-endian byte string. */
  function LittleEndian(bs: seq<byte>): nat
  {
    if |bs| == 0 then 0 else bs[0] as nat + 256 * LittleEndian(bs[1..])
  }

  /** Loading the stored bytes of a value that fits in n bytes yields the
      value. */
  lemma {:induction false} LowBytesValue(value: nat, n: nat)
    requires value < Pow256(n)
    ensures LittleEndian(LowBytes(value, n)) == value
  {
    if n > 0 {
      var bs := LowBytes(value, n);
      assert bs[1..] == LowBytes(value / 256, n - 1);
      LowBytesValue(value / 256, n - 1);
    }
  }

  /** Storing the value of n loaded bytes writes the same bytes back. */
  lemma {:induction false} LittleEndianBytes(bs: seq<byte>)
    ensures LittleEndian(bs) < Pow256(|bs|)
    ensures LowBytes(LittleEndian(bs), |bs|) == bs
  {
    if |bs| > 0 {
      LittleEndianBytes(bs[1..]);
    }
  }
}
