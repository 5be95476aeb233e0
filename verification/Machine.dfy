/** Bytes, words and the wrap-around of machine arithmetic. */
module Machine {
  type byte = x: int | 0 <= x < 256

  function Wrap64(x: int): nat {
    x % 0x1_0000_0000_0000_0000
  }

  function Wrap32(x: int): (r: nat)
    ensures r < 0x1_0000_0000
    ensures 0 <= x < 0x1_0000_0000 ==> r == x
    ensures x >= 0 ==> r <= x
  {
    x % 0x1_0000_0000
  }

  /** The little-endian word at `p`. */
  function U32(data: seq<byte>, p: nat): (v: nat)
    requires p + 4 <= |data|
    ensures v < 0x1_0000_0000
  {
    data[p] as int + 0x100 * (data[p + 1] as int) + 0x1_0000 * (data[p + 2] as int) + 0x100_0000 * (data[p + 3] as int)
  }

  function LeBytes(v: nat): (b: seq<byte>)
    requires v < 0x1_0000_0000
    ensures |b| == 4 && U32(b, 0) == v
  {
    var w := v / 0x100;
    var x := w / 0x100;
    [v % 0x100, w % 0x100, x % 0x100, x / 0x100]
  }

  function Le64(v: nat): (b: seq<byte>)
    requires v < 0x1_0000_0000_0000_0000
    ensures |b| == 8 && U64(b, 0) == v
  {
    var low, high := LeBytes(v % 0x1_0000_0000), LeBytes(v / 0x1_0000_0000);
    assert U32(low + high, 0) == U32(low, 0) && U32(low + high, 4) == U32(high, 0);
    low + high
  }

  function U64(data: seq<byte>, p: nat): nat
    requires p + 8 <= |data|
  {
    U32(data, p) + 0x1_0000_0000 * U32(data, p + 4)
  }
}
