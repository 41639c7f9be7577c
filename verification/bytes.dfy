/**
 Byte strings and the little-endian integers the driver reads from and writes into
 firmware buffers (the driver runs on x86, so a `u32`/`u64` load or store is
 least-significant byte first).
 */
module Bytes {

  type byte = x: int | 0 <= x < 0x100
  type u64 = x: int | 0 <= x < 0x1_0000_0000_0000_0000

  /** The number of distinct values `n` bytes can hold. */
  function Pow256(n: nat): (r: nat)
    ensures r >= 1
  {
    if n == 0 then 1 else 0x100 * Pow256(n - 1)
  }

  /** The unsigned integer a little-endian load reads from `bs`. */
  function LeValue(bs: seq<byte>): (r: nat)
    ensures r < Pow256(|bs|)
  {
    if |bs| == 0 then 0
    else
      var rest := LeValue(bs[1..]);
      assert 0x100 * rest <= 0x100 * (Pow256(|bs| - 1) - 1);
      bs[0] + 0x100 * rest
  }

  /** The `k` bytes a little-endian store of `n` writes. */
  function LeBytes(n: nat, k: nat): (bs: seq<byte>)
    requires n < Pow256(k)
    ensures |bs| == k
    ensures LeValue(bs) == n
  {
    if k == 0 then []
    else
      var tail := LeBytes(n / 0x100, k - 1);
      assert ([n % 0x100] + tail)[1..] == tail;
      [n % 0x100] + tail
  }

  /** Storing what was loaded gives back the same bytes: the encoding is a bijection
      between `k`-byte strings and the integers below 256^k. */
  lemma {:induction false} LeBytesOfLeValue(bs: seq<byte>)
    ensures LeBytes(LeValue(bs), |bs|) == bs
  {
    if |bs| > 0 {
      var n := LeValue(bs);
      assert n % 0x100 == bs[0] && n / 0x100 == LeValue(bs[1..]);
      LeBytesOfLeValue(bs[1..]);
    }
  }

  /** The widths of the C integer types the driver loads from firmware buffers. */
  lemma Pow256Widths()
    ensures Pow256(4) == 0x1_0000_0000
    ensures Pow256(8) == 0x1_0000_0000_0000_0000
  {
    assert Pow256(2) == 0x1_0000;
    assert Pow256(4) == 0x100 * (0x100 * Pow256(2));
    assert Pow256(6) == 0x100 * (0x100 * Pow256(4));
    assert Pow256(8) == 0x100 * (0x100 * Pow256(6));
  }

  /** The 8 bytes of a `u64` passed to firmware by address. */
  function U64Bytes(v: u64): (bs: seq<byte>)
    ensures |bs| == 8
    ensures LeValue(bs) == v
  {
    Pow256Widths();
    LeBytes(v, 8)
  }
}
