/**
 * Fixed-width unsigned integers and their little-endian byte layout: the
 * `u16::from_le_bytes`/`u64::from_le_bytes` of the client's header parser and the
 * `get_u16_le`/`get_u64_le`/`put_u16_le`/`put_u64_le` of the `bytes` buffers.
 */
module LittleEndian {

  type byte = x: int | 0 <= x < 0x100
  type u16 = x: int | 0 <= x < 0x1_0000
  type u64 = x: int | 0 <= x < 0x1_0000_0000_0000_0000
  /** `usize` on the 64-bit targets the store runs on. */
  type usize = x: int | 0 <= x < 0x1_0000_0000_0000_0000
  type i32 = x: int | -0x8000_0000 <= x < 0x8000_0000

  const U64_LIMIT: nat := 0x1_0000_0000_0000_0000

  function Pow256(n: nat): (p: nat)
    ensures p >= 1
  {
    if n == 0 then 1 else 256 * Pow256(n - 1)
  }

  lemma Pow256Widths()
    ensures Pow256(2) == 0x1_0000
    ensures Pow256(8) == U64_LIMIT
  {
  }

  /** The number whose bytes, least significant first, are `bs`. */
  function FromLE(bs: seq<byte>): (v: nat)
    ensures v < Pow256(|bs|)
  {
    if bs == [] then 0 else bs[0] + 256 * FromLE(bs[1..])
  }

  /** The low `n` bytes of `v`, least significant first. */
  function ToLE(v: nat, n: nat): (bs: seq<byte>)
    ensures |bs| == n
  {
    if n == 0 then [] else [v % 256] + ToLE(v / 256, n - 1)
  }

  /** Reading back what was written gives the value written. */
  lemma {:induction false} FromToLE(v: nat, n: nat)
    requires v < Pow256(n)
    ensures FromLE(ToLE(v, n)) == v
  {
    if n > 0 {
      var bs := ToLE(v, n);
      assert bs[1..] == ToLE(v / 256, n - 1);
      FromToLE(v / 256, n - 1);
    }
  }

  /** Writing what was read gives the bytes read: the layout is a bijection. */
  lemma {:induction false} ToFromLE(bs: seq<byte>)
    ensures ToLE(FromLE(bs), |bs|) == bs
  {
    if bs != [] {
      ToFromLE(bs[1..]);
      var v := FromLE(bs);
      assert v % 256 == bs[0] && v / 256 == FromLE(bs[1..]);
    }
  }

  /** The two-byte case spelled out: the first byte is the low one. */
  lemma FromLETwo(bs: seq<byte>)
    requires |bs| == 2
    ensures FromLE(bs) == bs[0] as int + 256 * bs[1] as int
  {
    assert bs[1..][1..] == [];
  }
}
