/**
 * The growable byte buffer (`bytes::BytesMut`) the codecs read from and append to
 * in place: reads consume its front, writes extend its back.
 */
module Buffers {
  import opened LittleEndian

  /** Appending three pieces one after another appends their concatenation. */
  lemma AppendThree<T>(s: seq<T>, a: seq<T>, b: seq<T>, c: seq<T>)
    ensures s + a + b + c == s + (a + b + c)
  {
  }

  class BytesMut {
    var data: seq<byte>

    constructor ()
      ensures data == []
    {
      data := [];
    }

    /** `get_u16_le`: take two bytes off the front (the `bytes` crate panics on fewer). */
    method GetU16Le() returns (v: u16)
      requires |data| >= 2
      modifies this
      ensures v == FromLE(old(data)[..2])
      ensures data == old(data)[2..]
    {
      Pow256Widths();
      v := FromLE(data[..2]);
      data := data[2..];
    }

    /** `get_u64_le`: take eight bytes off the front. */
    method GetU64Le() returns (v: u64)
      requires |data| >= 8
      modifies this
      ensures v == FromLE(old(data)[..8])
      ensures data == old(data)[8..]
    {
      Pow256Widths();
      v := FromLE(data[..8]);
      data := data[8..];
    }

    /** `advance`: drop `n` bytes off the front (what a body decoder consumed). */
    method Advance(n: nat)
      requires n <= |data|
      modifies this
      ensures data == old(data)[n..]
    {
      data := data[n..];
    }

    /** `put_u16_le` */
    method PutU16Le(v: u16)
      modifies this
      ensures data == old(data) + ToLE(v, 2)
    {
      data := data + ToLE(v, 2);
    }

    /** `put_u64_le` */
    method PutU64Le(v: u64)
      modifies this
      ensures data == old(data) + ToLE(v, 8)
    {
      data := data + ToLE(v, 8);
    }

    /** `put_slice`: what a body encoder writes. */
    method PutSlice(bs: seq<byte>)
      modifies this
      ensures data == old(data) + bs
    {
      data := data + bs;
    }
  }
}
