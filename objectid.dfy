/** `ObjectId`: the 20-byte identifier of a store object, a plain value. */
module ObjectIds {
  import opened Io
  import opened LittleEndian

  const UNIQUE_ID_SIZE: nat := 20

  type IdBytes = s: seq<byte> | |s| == UNIQUE_ID_SIZE witness seq(20, _ => 0)

  /** Equality is that of the datatype, so byte-wise. */
  datatype ObjectId = ObjectId(id: IdBytes)

  /** Copies the first 20 bytes; a shorter slice makes `copy_from_slice` panic. */
  function FromBinary(binary: seq<byte>): ObjectId
    requires |binary| >= UNIQUE_ID_SIZE
  {
    ObjectId(binary[..UNIQUE_ID_SIZE])
  }

  function Data(o: ObjectId): seq<byte> {
    o.id
  }

  function Binary(o: ObjectId): seq<byte> {
    o.id
  }

  function Size(): nat {
    UNIQUE_ID_SIZE
  }

  /**
   * A write of `b` at index `i` through the slice `mutable_data()` lends out; an
   * index past the 20 bytes panics.
   */
  function WriteData(o: ObjectId, i: nat, b: byte): ObjectId
    requires i < UNIQUE_ID_SIZE
  {
    ObjectId(o.id[i := b])
  }

  /** The lower-case digit of `d`, one of 0123456789abcdef. */
  function HexDigit(d: nat): char
    requires d < 16
  {
    if d < 10 then (('0' as int) + d) as char else (('a' as int) + d - 10) as char
  }

  /** `{b:02x}`: two lower-case digits, zero-padded. */
  function HexByte(b: byte): string {
    [HexDigit(b / 16), HexDigit(b % 16)]
  }

  /** The fold of `hex()`: the digits of each byte appended to what came before. */
  function HexOf(bs: seq<byte>): string {
    if bs == [] then "" else HexOf(bs[..|bs| - 1]) + HexByte(bs[|bs| - 1])
  }

  function Hex(o: ObjectId): string {
    HexOf(o.id)
  }

  /** The `Debug` format. */
  function DebugString(o: ObjectId): string {
    "UniqueID(" + Hex(o) + ")"
  }

  /** What the `Hash` impl feeds the hasher: the id bytes and nothing else. */
  function HashFeed(o: ObjectId): seq<byte> {
    o.id
  }

  /** `hash()`: the hasher's digest of the fed bytes, the hasher being a parameter. */
  function Hash(hasher: seq<byte> -> u64, o: ObjectId): u64 {
    hasher(HashFeed(o))
  }

  predicate IsHexDigit(c: char) {
    '0' <= c <= '9' || 'a' <= c <= 'f'
  }

  function HexDigitValue(c: char): (d: nat)
    requires IsHexDigit(c)
    ensures d < 16 && HexDigit(d) == c
  {
    if '0' <= c <= '9' then (c as int) - ('0' as int) else (c as int) - ('a' as int) + 10
  }

  /** Reads back a string of lower-case digit pairs; the reference inverse of `HexOf`. */
  function ParseHex(s: string): Option<seq<byte>> {
    if s == [] then Some([])
    else if |s| == 1 || !IsHexDigit(s[|s| - 2]) || !IsHexDigit(s[|s| - 1]) then None
    else
      match ParseHex(s[..|s| - 2])
      case None => None
      case Some(bs) => Some(bs + [16 * HexDigitValue(s[|s| - 2]) + HexDigitValue(s[|s| - 1])])
  }

  lemma HexByteValue(b: byte)
    ensures IsHexDigit(HexByte(b)[0]) && IsHexDigit(HexByte(b)[1])
    ensures 16 * HexDigitValue(HexByte(b)[0]) + HexDigitValue(HexByte(b)[1]) == b
  {
  }

  lemma {:induction false} HexOfLength(bs: seq<byte>)
    ensures |HexOf(bs)| == 2 * |bs|
  {
    if bs != [] {
      HexOfLength(bs[..|bs| - 1]);
    }
  }

  /** Byte i of the input is rendered at positions 2i and 2i+1 of the output. */
  lemma {:induction false} HexOfAt(bs: seq<byte>, i: nat)
    requires i < |bs|
    ensures |HexOf(bs)| == 2 * |bs|
    ensures HexOf(bs)[2 * i..2 * i + 2] == HexByte(bs[i])
  {
    HexOfLength(bs);
    var init := bs[..|bs| - 1];
    HexOfLength(init);
    if i < |bs| - 1 {
      HexOfAt(init, i);
      assert HexOf(bs)[2 * i..2 * i + 2] == HexOf(init)[2 * i..2 * i + 2];
    }
  }

  lemma {:induction false} ParseHexOfHex(bs: seq<byte>)
    ensures ParseHex(HexOf(bs)) == Some(bs)
  {
    if bs != [] {
      var init, last := bs[..|bs| - 1], bs[|bs| - 1];
      var s := HexOf(bs);
      HexOfLength(init);
      assert s[..|s| - 2] == HexOf(init);
      assert s[|s| - 2] == HexByte(last)[0] && s[|s| - 1] == HexByte(last)[1];
      HexByteValue(last);
      ParseHexOfHex(init);
      assert init + [last] == bs;
    }
  }

  /**
   * `hex()` is 40 lower-case hex digits, byte i written as two zero-padded digits at
   * positions 2i and 2i+1, most significant digit first.
   */
  lemma HexFormat(o: ObjectId)
    ensures |Hex(o)| == 2 * UNIQUE_ID_SIZE
    ensures forall k :: 0 <= k < |Hex(o)| ==> IsHexDigit(Hex(o)[k])
    ensures forall i :: 0 <= i < UNIQUE_ID_SIZE ==>
      16 * HexDigitValue(Hex(o)[2 * i]) + HexDigitValue(Hex(o)[2 * i + 1]) == o.id[i]
  {
    HexOfLength(o.id);
    forall i | 0 <= i < UNIQUE_ID_SIZE
      ensures IsHexDigit(Hex(o)[2 * i]) && IsHexDigit(Hex(o)[2 * i + 1])
      ensures 16 * HexDigitValue(Hex(o)[2 * i]) + HexDigitValue(Hex(o)[2 * i + 1]) == o.id[i]
    {
      HexOfAt(o.id, i);
      HexByteValue(o.id[i]);
      assert Hex(o)[2 * i] == HexByte(o.id[i])[0] && Hex(o)[2 * i + 1] == HexByte(o.id[i])[1];
    }
    forall k | 0 <= k < |Hex(o)|
      ensures IsHexDigit(Hex(o)[k])
    {
      var i := k / 2;
      assert k == 2 * i || k == 2 * i + 1;
    }
  }

  /** Different ids have different hex renderings. */
  lemma HexInjective(a: ObjectId, b: ObjectId)
    requires Hex(a) == Hex(b)
    ensures a == b
  {
    ParseHexOfHex(a.id);
    ParseHexOfHex(b.id);
  }

  /** `from_binary` keeps exactly the first 20 bytes, and `binary()` gives them back. */
  lemma BinaryOfFromBinary(binary: seq<byte>)
    requires |binary| >= UNIQUE_ID_SIZE
    ensures Binary(FromBinary(binary)) == binary[..UNIQUE_ID_SIZE]
  {
  }

  /** Every id is rebuilt from its own bytes. */
  lemma FromBinaryOfBinary(o: ObjectId)
    ensures FromBinary(Binary(o)) == o
  {
  }

  /** `data()` and `binary()` are the same 20 bytes. */
  lemma DataIsBinary(o: ObjectId)
    ensures Data(o) == Binary(o)
    ensures |Data(o)| == Size() == 20
  {
  }

  /** Two ids are equal exactly when their bytes are; equal ids hash alike. */
  lemma EqualityIsBytewise(hasher: seq<byte> -> u64, a: ObjectId, b: ObjectId)
    ensures a == b <==> Binary(a) == Binary(b)
    ensures Binary(a) == Binary(b) ==> Hash(hasher, a) == Hash(hasher, b)
  {
  }

  /** A write through `mutable_data()` changes that one byte of the id and no other. */
  lemma WriteDataChangesOneByte(o: ObjectId, i: nat, b: byte)
    requires i < UNIQUE_ID_SIZE
    ensures Data(WriteData(o, i, b))[i] == b
    ensures forall j :: 0 <= j < UNIQUE_ID_SIZE && j != i ==> Data(WriteData(o, i, b))[j] == Data(o)[j]
    ensures WriteData(o, i, b) == o <==> o.id[i] == b
  {
    if WriteData(o, i, b) == o {
      assert Data(WriteData(o, i, b))[i] == Data(o)[i];
    }
  }

  /** The `Debug` string is `UniqueID(`, the 40 hex digits, `)`. */
  lemma DebugFormat(o: ObjectId)
    ensures |DebugString(o)| == 50
    ensures DebugString(o)[..9] == "UniqueID("
    ensures DebugString(o)[9..49] == Hex(o)
    ensures DebugString(o)[49] == ')'
  {
    HexOfLength(o.id);
  }
}
