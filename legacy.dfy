/**
 * The older codec of the common crate's root module: a little-endian u16 tag and
 * then the body, with no length field, over the two create messages only.
 */
module LegacyCodec {
  import opened Io
  import opened LittleEndian
  import opened Buffers
  import P = Payloads
  import ObjectIds

  const TAG_SIZE: nat := 2

  datatype LegacyMessage =
    | CreateRequest(createRequest: P.CreateRequest)
    | CreateResponse(createResponse: P.CreateResponse)

  /** The `MessageType` of this codec: CreateRequest is 0, CreateResponse is 1. */
  function MessageType(m: LegacyMessage): u16 {
    match m
    case CreateRequest(_) => 0
    case CreateResponse(_) => 1
  }

  function Body(schema: P.Schema, m: LegacyMessage): seq<byte> {
    match m
    case CreateRequest(b) => schema.encodeCreateRequest(b)
    case CreateResponse(b) => schema.encodeCreateResponse(b)
  }

  /** What `encode` appends: the tag, then the body. */
  function EncodeFrame(schema: P.Schema, m: LegacyMessage): seq<byte> {
    ToLE(MessageType(m), 2) + Body(schema, m)
  }

  /** The result of one `decode` call and the buffer it leaves behind. */
  datatype Decoding = Decoding(result: Result<Option<LegacyMessage>, IoError>, rest: seq<byte>)

  function Leftover<T>(payload: seq<byte>, p: P.Parsed<T>): seq<byte> {
    if p.Parsed? then [] else payload[if p.consumed <= |payload| then p.consumed else |payload|..]
  }

  /**
   * `decode`: below 2 bytes it waits; otherwise the tag picks the body decoder,
   * which runs on everything after the tag, and a body that does not decode is an
   * error (the `?` on the body decode).
   */
  function DecodeFrame(schema: P.Schema, buf: seq<byte>): Decoding {
    if |buf| < TAG_SIZE then Decoding(Ok(None), buf)
    else
      Pow256Widths();
      var tag: u16 := FromLE(buf[..TAG_SIZE]);
      var payload := buf[TAG_SIZE..];
      if tag == 0 then
        var p := schema.decodeCreateRequest(payload);
        Decoding(if p.Parsed? then Ok(Some(CreateRequest(p.value))) else Err(PROTOBUF_DECODE_ERROR), Leftover(payload, p))
      else if tag == 1 then
        var p := schema.decodeCreateResponse(payload);
        Decoding(if p.Parsed? then Ok(Some(CreateResponse(p.value))) else Err(PROTOBUF_DECODE_ERROR), Leftover(payload, p))
      else
        Decoding(Err(UNKNOWN_MESSAGE_TYPE), payload)
  }

  /** Fewer than 2 bytes: no message yet, nothing consumed. */
  lemma DecodeShortBuffer(schema: P.Schema, buf: seq<byte>)
    requires |buf| < TAG_SIZE
    ensures DecodeFrame(schema, buf) == Decoding(Ok(None), buf)
  {
  }

  /**
   * Once the tag is there `decode` never waits: it answers a message of the tag's
   * kind, or fails; tags other than 0 and 1 are an InvalidData "Unknown message type".
   */
  lemma DecodeOutcomes(schema: P.Schema, buf: seq<byte>)
    requires |buf| >= TAG_SIZE
    ensures var d := DecodeFrame(schema, buf);
      && d.result != Ok(None)
      && (d.result.Ok? ==> MessageType(d.result.value.value) == buf[0] as int + 256 * buf[1] as int)
      && (buf[0] as int + 256 * buf[1] as int >= 2 ==> d == Decoding(Err(UNKNOWN_MESSAGE_TYPE), buf[TAG_SIZE..]))
      && (d.result.Err? ==> d.result.error.kind == InvalidData)
  {
    assert buf[..TAG_SIZE] == [buf[0], buf[1]];
    FromLETwo(buf[..TAG_SIZE]);
  }

  /** A frame decodes to its message and leaves nothing behind. */
  lemma DecodeEncodedFrame(schema: P.Schema, m: LegacyMessage)
    requires P.Faithful(schema)
    ensures DecodeFrame(schema, EncodeFrame(schema, m)) == Decoding(Ok(Some(m)), [])
  {
    Pow256Widths();
    var frame := EncodeFrame(schema, m);
    assert frame[..TAG_SIZE] == ToLE(MessageType(m), 2);
    assert frame[TAG_SIZE..] == Body(schema, m);
    FromToLE(MessageType(m), 2);
  }

  /** Different messages have different frames. */
  lemma EncodeFrameInjective(schema: P.Schema, m: LegacyMessage, n: LegacyMessage)
    requires P.Faithful(schema)
    requires EncodeFrame(schema, m) == EncodeFrame(schema, n)
    ensures m == n
  {
    DecodeEncodedFrame(schema, m);
    DecodeEncodedFrame(schema, n);
  }

  /**
   * The root module's copy of `ObjectId` is the same type with the same methods:
   * `from_binary` keeps the first 20 bytes, `binary` returns them, and `hex` is 40
   * lower-case digits that read back as those bytes.
   */
  lemma RootObjectIdRoundTrip(binary: seq<byte>)
    requires |binary| >= ObjectIds.UNIQUE_ID_SIZE
    ensures ObjectIds.Binary(ObjectIds.FromBinary(binary)) == binary[..ObjectIds.UNIQUE_ID_SIZE]
    ensures |ObjectIds.Hex(ObjectIds.FromBinary(binary))| == 40
    ensures ObjectIds.ParseHex(ObjectIds.Hex(ObjectIds.FromBinary(binary))) == Some(binary[..ObjectIds.UNIQUE_ID_SIZE])
  {
    ObjectIds.HexFormat(ObjectIds.FromBinary(binary));
    ObjectIds.ParseHexOfHex(binary[..ObjectIds.UNIQUE_ID_SIZE]);
  }

  /** `MessageCodec` of the root module, run in place on the stream's buffers. */
  class MessageCodec {
    const schema: P.Schema

    constructor (schema: P.Schema)
      ensures this.schema == schema
    {
      this.schema := schema;
    }

    /** `decode`: consumes from the front of `src` exactly what `DecodeFrame` says. */
    method Decode(src: BytesMut) returns (r: Result<Option<LegacyMessage>, IoError>)
      modifies src
      ensures Decoding(r, src.data) == DecodeFrame(schema, old(src.data))
    {
      if |src.data| < TAG_SIZE {
        return Ok(None);
      }
      var messageType := src.GetU16Le();
      var payload := src.data;
      if messageType == 0 {
        var p := schema.decodeCreateRequest(payload);
        src.Advance(|payload| - |Leftover(payload, p)|);
        if p.Parsed? {
          return Ok(Some(CreateRequest(p.value)));
        }
        return Err(PROTOBUF_DECODE_ERROR);
      } else if messageType == 1 {
        var p := schema.decodeCreateResponse(payload);
        src.Advance(|payload| - |Leftover(payload, p)|);
        if p.Parsed? {
          return Ok(Some(CreateResponse(p.value)));
        }
        return Err(PROTOBUF_DECODE_ERROR);
      }
      return Err(UNKNOWN_MESSAGE_TYPE);
    }

    /** `encode`: appends the frame of `item` to `dst`. */
    method Encode(item: LegacyMessage, dst: BytesMut)
      modifies dst
      ensures dst.data == old(dst.data) + EncodeFrame(schema, item)
    {
      var tag := MessageType(item);
      var body := Body(schema, item);
      dst.PutU16Le(tag);
      dst.PutSlice(body);
    }
  }
}
