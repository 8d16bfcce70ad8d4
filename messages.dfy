/**
 * The frame codec: a little-endian u16 type tag, a little-endian u64 body length,
 * then the body. `DecodeFrame` and `EncodeFrame` state what `MessageCodec` does to a
 * buffer; the class `MessageCodec` does it in place on a `BytesMut`.
 */
module Messages {
  import opened Io
  import opened LittleEndian
  import opened Buffers
  import P = Payloads

  const HEADER_SIZE: nat := 10

  /**
   * The messages of the protocol. The last two are the reservation messages the
   * client sends and expects; they have no `MessageType` tag.
   */
  datatype Message =
    | ConnectRequest(connectRequest: P.ConnectRequest)
    | ConnectResponse(connectResponse: P.ConnectResponse)
    | CreateRequest(createRequest: P.CreateRequest)
    | CreateResponse(createResponse: P.CreateResponse)
    | OidReserveRequest(oidReserveRequest: P.OidReserveRequest)
    | OidReserveResponse(oidReserveResponse: P.OidReserveResponse)

  /** `MessageType`: the tag of each variant it covers. */
  function MessageType(m: Message): Option<u16> {
    match m
    case ConnectRequest(_) => Some(0)
    case ConnectResponse(_) => Some(1)
    case CreateRequest(_) => Some(2)
    case CreateResponse(_) => Some(3)
    case OidReserveRequest(_) => None
    case OidReserveResponse(_) => None
  }

  /** The tag the encoder writes; for the two untagged variants it is the schema's. */
  function FrameTag(schema: P.Schema, m: Message): u16 {
    match MessageType(m)
    case Some(t) => t
    case None => if m.OidReserveRequest? then schema.reserveRequestTag else schema.reserveResponseTag
  }

  /** What the body encoder `cr.encode(dst)` writes. */
  function Body(schema: P.Schema, m: Message): seq<byte> {
    match m
    case ConnectRequest(b) => schema.encodeConnectRequest(b)
    case ConnectResponse(b) => schema.encodeConnectResponse(b)
    case CreateRequest(b) => schema.encodeCreateRequest(b)
    case CreateResponse(b) => schema.encodeCreateResponse(b)
    case OidReserveRequest(b) => schema.encodeOidReserveRequest(b)
    case OidReserveResponse(b) => schema.encodeOidReserveResponse(b)
  }

  /** `encoded_len(&cr) as u64`; the conversion is exact for every buffer a 64-bit process holds. */
  function EncodedLen(schema: P.Schema, m: Message): u64 {
    |Body(schema, m)| % U64_LIMIT
  }

  /** The frame `encode` appends for `m`. */
  function EncodeFrame(schema: P.Schema, m: Message): seq<byte> {
    ToLE(FrameTag(schema, m), 2) + ToLE(EncodedLen(schema, m), 8) + Body(schema, m)
  }

  /**
   * The `match message_type`: tags 0 to 3 pick the body decoder of their variant,
   * which is run on `payload`; any other tag is unknown (None).
   */
  function DecodeBody(schema: P.Schema, tag: u16, payload: seq<byte>): Option<P.Parsed<Message>> {
    if tag == 0 then
      var p := schema.decodeConnectRequest(payload);
      Some(if p.Parsed? then P.Parsed(ConnectRequest(p.value)) else P.Malformed(p.consumed))
    else if tag == 1 then
      var p := schema.decodeConnectResponse(payload);
      Some(if p.Parsed? then P.Parsed(ConnectResponse(p.value)) else P.Malformed(p.consumed))
    else if tag == 2 then
      var p := schema.decodeCreateRequest(payload);
      Some(if p.Parsed? then P.Parsed(CreateRequest(p.value)) else P.Malformed(p.consumed))
    else if tag == 3 then
      var p := schema.decodeCreateResponse(payload);
      Some(if p.Parsed? then P.Parsed(CreateResponse(p.value)) else P.Malformed(p.consumed))
    else
      None
  }

  /** What is left of `payload` once a body decoder has run over it. */
  function Leftover(payload: seq<byte>, p: P.Parsed<Message>): seq<byte> {
    if p.Parsed? then [] else payload[if p.consumed <= |payload| then p.consumed else |payload|..]
  }

  /** The result of one `decode` call and the buffer it leaves behind. */
  datatype Decoding = Decoding(result: Result<Option<Message>, IoError>, rest: seq<byte>)

  function HeaderTag(buf: seq<byte>): u16
    requires |buf| >= HEADER_SIZE
  {
    Pow256Widths();
    FromLE(buf[..2])
  }

  function HeaderLength(buf: seq<byte>): u64
    requires |buf| >= HEADER_SIZE
  {
    Pow256Widths();
    FromLE(buf[2..HEADER_SIZE])
  }

  /**
   * `MessageCodec::decode` as written: below 10 bytes it waits; otherwise it takes
   * the header and hands everything after it to the body decoder, whatever the
   * length field says.
   */
  function DecodeFrame(schema: P.Schema, buf: seq<byte>): Decoding {
    if |buf| < HEADER_SIZE then Decoding(Ok(None), buf)
    else
      var payload := buf[HEADER_SIZE..];
      match DecodeBody(schema, HeaderTag(buf), payload)
      case None => Decoding(Err(UNKNOWN_MESSAGE_TYPE), payload)
      case Some(p) => Decoding(Ok(if p.Parsed? then Some(p.value) else None), Leftover(payload, p))
  }

  /**
   * The decoder the framing calls for: it waits until the whole frame is buffered,
   * gives the body decoder exactly the announced `length` bytes and leaves the bytes
   * after the frame for the next call.
   */
  function DecodeFramed(schema: P.Schema, buf: seq<byte>): Decoding {
    if |buf| < HEADER_SIZE then Decoding(Ok(None), buf)
    else if HeaderTag(buf) >= 4 then Decoding(Err(UNKNOWN_MESSAGE_TYPE), buf[HEADER_SIZE..])
    else if |buf| - HEADER_SIZE < HeaderLength(buf) then Decoding(Ok(None), buf)
    else
      var end := HEADER_SIZE + HeaderLength(buf);
      var p := DecodeBody(schema, HeaderTag(buf), buf[HEADER_SIZE..end]).value;
      Decoding(Ok(if p.Parsed? then Some(p.value) else None), buf[end..])
  }

  /** The bytes of a sequence of frames written one after another. */
  function EncodeAll(schema: P.Schema, ms: seq<Message>): seq<byte> {
    if ms == [] then [] else EncodeFrame(schema, ms[0]) + EncodeAll(schema, ms[1..])
  }

  /** The messages the framed decoder takes out of `buf`, call after call, until it waits or fails. */
  function DrainFramed(schema: P.Schema, buf: seq<byte>): seq<Message>
    decreases |buf|
  {
    var d := DecodeFramed(schema, buf);
    if d.result.Ok? && d.result.value.Some? && |d.rest| < |buf| then
      [d.result.value.value] + DrainFramed(schema, d.rest)
    else []
  }

  // ---- The tag table ----

  /** Tags 0 to 3 are the known ones, and each decodes to the variant `MessageType` gives it. */
  lemma {:induction false} DecodeBodyKinds(schema: P.Schema, tag: u16, payload: seq<byte>)
    ensures DecodeBody(schema, tag, payload).Some? <==> tag < 4
    ensures DecodeBody(schema, tag, payload).Some? && DecodeBody(schema, tag, payload).value.Parsed? ==>
      MessageType(DecodeBody(schema, tag, payload).value.value) == Some(tag)
  {
  }

  /** Distinct tagged variants carry distinct tags, and the four tags are 0 to 3. */
  lemma MessageTypeTable(m: Message, n: Message)
    ensures MessageType(m).Some? <==> !(m.OidReserveRequest? || m.OidReserveResponse?)
    ensures MessageType(m).Some? ==> MessageType(m).value < 4
    ensures MessageType(m).Some? && MessageType(m) == MessageType(n) ==>
      (m.ConnectRequest? <==> n.ConnectRequest?) && (m.ConnectResponse? <==> n.ConnectResponse?)
      && (m.CreateRequest? <==> n.CreateRequest?) && (m.CreateResponse? <==> n.CreateResponse?)
  {
  }

  // ---- The frame layout ----

  /** A frame is 10 + body bytes: the LE tag, the LE body length, the body. */
  lemma EncodeFrameLayout(schema: P.Schema, m: Message)
    requires |Body(schema, m)| < U64_LIMIT
    ensures var frame := EncodeFrame(schema, m);
      && |frame| == HEADER_SIZE + |Body(schema, m)|
      && HeaderTag(frame) == FrameTag(schema, m)
      && HeaderLength(frame) == |Body(schema, m)|
      && frame[HEADER_SIZE..] == Body(schema, m)
  {
    Pow256Widths();
    var frame := EncodeFrame(schema, m);
    assert frame[..2] == ToLE(FrameTag(schema, m), 2);
    assert frame[2..HEADER_SIZE] == ToLE(EncodedLen(schema, m), 8);
    FromToLE(FrameTag(schema, m), 2);
    FromToLE(EncodedLen(schema, m), 8);
  }

  /** Under faithful codecs the body decoder of a message's tag gives the message back. */
  lemma FaithfulBody(schema: P.Schema, m: Message)
    requires P.Faithful(schema)
    ensures MessageType(m).Some? ==>
      DecodeBody(schema, MessageType(m).value, Body(schema, m)) == Some(P.Parsed(m))
  {
  }

  // ---- The decoder as written ----

  /** Fewer than 10 bytes: no message yet, and nothing consumed. */
  lemma DecodeShortBuffer(schema: P.Schema, buf: seq<byte>)
    requires |buf| < HEADER_SIZE
    ensures DecodeFrame(schema, buf) == Decoding(Ok(None), buf)
  {
  }

  /**
   * With a header present, the header is consumed whatever happens next: an unknown
   * tag is an InvalidData error, a body that does not decode is "no message", and a
   * decoded message is of the tag's variant.
   */
  lemma DecodeAfterHeader(schema: P.Schema, buf: seq<byte>)
    requires |buf| >= HEADER_SIZE
    ensures var d := DecodeFrame(schema, buf);
      && HeaderTag(buf) == buf[0] as int + 256 * buf[1] as int
      && (HeaderTag(buf) >= 4 <==> d.result.Err?)
      && (d.result.Err? ==> d.result.error == IoError(InvalidData, "Unknown message type"))
      && (d.result.Ok? && d.result.value.Some? ==> MessageType(d.result.value.value) == Some(HeaderTag(buf)))
      && (HeaderTag(buf) < 4 && DecodeBody(schema, HeaderTag(buf), buf[HEADER_SIZE..]).value.Malformed? ==>
            d.result == Ok(None))
      && |d.rest| <= |buf| - HEADER_SIZE
      && (d.result.Err? ==> d.rest == buf[HEADER_SIZE..])
      && (d.result.Ok? && d.result.value.Some? ==> d.rest == [])
  {
    assert buf[..2] == [buf[0], buf[1]];
    FromLETwo(buf[..2]);
    DecodeBodyKinds(schema, HeaderTag(buf), buf[HEADER_SIZE..]);
  }

  /** The length field plays no part: two buffers that differ only there decode alike. */
  lemma DecodeIgnoresLength(schema: P.Schema, a: seq<byte>, b: seq<byte>)
    requires |a| >= HEADER_SIZE && |b| >= HEADER_SIZE
    requires a[..2] == b[..2] && a[HEADER_SIZE..] == b[HEADER_SIZE..]
    ensures DecodeFrame(schema, a) == DecodeFrame(schema, b)
  {
  }

  /** A lone frame of a tagged variant decodes to its message and leaves nothing. */
  lemma DecodeEncodedFrame(schema: P.Schema, m: Message)
    requires P.Faithful(schema)
    requires MessageType(m).Some? && |Body(schema, m)| < U64_LIMIT
    ensures DecodeFrame(schema, EncodeFrame(schema, m)) == Decoding(Ok(Some(m)), [])
  {
    FaithfulBody(schema, m);
    EncodeFrameLayout(schema, m);
  }

  /**
   * Two frames in one buffer: the first decode hands the second frame's bytes to
   * the body decoder with the first body, so it never answers the first message with
   * the second frame left over, and whenever it answers a message the buffer is empty.
   */
  lemma DecodeSwallowsNextFrame(schema: P.Schema, m1: Message, m2: Message)
    requires P.Faithful(schema)
    requires MessageType(m1).Some? && |Body(schema, m1)| < U64_LIMIT && |Body(schema, m2)| < U64_LIMIT
    ensures var d := DecodeFrame(schema, EncodeFrame(schema, m1) + EncodeFrame(schema, m2));
      && d.result.Ok?
      && (d.result.value.Some? ==> d.rest == [])
      && d != Decoding(Ok(Some(m1)), EncodeFrame(schema, m2))
  {
    FaithfulBody(schema, m1);
    FaithfulBody(schema, m2);
    EncodeFrameLayout(schema, m1);
    EncodeFrameLayout(schema, m2);
    var buf := EncodeFrame(schema, m1) + EncodeFrame(schema, m2);
    assert buf[..HEADER_SIZE] == EncodeFrame(schema, m1)[..HEADER_SIZE];
    assert buf[..2] == EncodeFrame(schema, m1)[..2];
    DecodeBodyKinds(schema, HeaderTag(buf), buf[HEADER_SIZE..]);
  }

  /**
   * A frame that arrives in pieces: once its header and part of its body are
   * buffered, the first decode consumes the header and hands the partial body to the
   * body decoder, so the bytes still to come are never read as this frame's body. The
   * framed decoder keeps the whole buffer and waits instead.
   */
  lemma DecodeLosesSplitFrame(schema: P.Schema, m: Message, k: nat)
    requires P.Faithful(schema)
    requires MessageType(m).Some? && |Body(schema, m)| < U64_LIMIT
    requires HEADER_SIZE <= k < |EncodeFrame(schema, m)|
    ensures var partial := EncodeFrame(schema, m)[..k];
      var d := DecodeFrame(schema, partial);
      && d.result.Ok?
      && |d.rest| <= k - HEADER_SIZE
      && d != DecodeFramed(schema, partial)
  {
    FaithfulBody(schema, m);
    EncodeFrameLayout(schema, m);
    var frame := EncodeFrame(schema, m);
    var partial := frame[..k];
    assert partial[..2] == frame[..2];
    DecodeAfterHeader(schema, partial);
    DecodeFramedWaits(schema, m, k);
  }

  // ---- The framed decoder ----

  /** A frame of a tagged variant decodes to its message, and what follows it is left untouched. */
  lemma DecodeFramedRoundTrip(schema: P.Schema, m: Message, rest: seq<byte>)
    requires P.Faithful(schema)
    requires MessageType(m).Some? && |Body(schema, m)| < U64_LIMIT
    ensures DecodeFramed(schema, EncodeFrame(schema, m) + rest) == Decoding(Ok(Some(m)), rest)
  {
    FaithfulBody(schema, m);
    EncodeFrameLayout(schema, m);
    var frame := EncodeFrame(schema, m);
    var buf := frame + rest;
    assert buf[..2] == frame[..2];
    assert buf[2..HEADER_SIZE] == frame[2..HEADER_SIZE];
    assert buf[HEADER_SIZE..|frame|] == Body(schema, m);
    assert buf[|frame|..] == rest;
  }

  /** Any strict prefix of a frame of a tagged variant: wait for more, consume nothing. */
  lemma DecodeFramedWaits(schema: P.Schema, m: Message, k: nat)
    requires P.Faithful(schema)
    requires MessageType(m).Some? && |Body(schema, m)| < U64_LIMIT
    requires k < |EncodeFrame(schema, m)|
    ensures DecodeFramed(schema, EncodeFrame(schema, m)[..k]) == Decoding(Ok(None), EncodeFrame(schema, m)[..k])
  {
    FaithfulBody(schema, m);
    EncodeFrameLayout(schema, m);
    var frame := EncodeFrame(schema, m);
    var buf := frame[..k];
    if k >= HEADER_SIZE {
      assert buf[..2] == frame[..2];
      assert buf[2..HEADER_SIZE] == frame[2..HEADER_SIZE];
    }
  }

  /** Every message has a frame tag, and a body short enough for the u64 length field. */
  predicate AllTagged(schema: P.Schema, ms: seq<Message>) {
    forall i :: 0 <= i < |ms| ==> MessageType(ms[i]).Some? && |Body(schema, ms[i])| < U64_LIMIT
  }

  /** Frames written back to back come out of the framed decoder as the same messages, in order. */
  lemma {:induction false} DrainFramedEncodeAll(schema: P.Schema, ms: seq<Message>)
    requires P.Faithful(schema)
    requires AllTagged(schema, ms)
    ensures DrainFramed(schema, EncodeAll(schema, ms)) == ms
  {
    if ms != [] {
      var tail := EncodeAll(schema, ms[1..]);
      DecodeFramedRoundTrip(schema, ms[0], tail);
      EncodeFrameLayout(schema, ms[0]);
      assert AllTagged(schema, ms[1..]) by {
        forall i | 0 <= i < |ms[1..]| ensures MessageType(ms[1..][i]).Some? && |Body(schema, ms[1..][i])| < U64_LIMIT {
          assert ms[1..][i] == ms[i + 1];
        }
      }
      DrainFramedEncodeAll(schema, ms[1..]);
    }
  }

  /** `MessageCodec`: the codec run in place on the framed stream's buffers. */
  class MessageCodec {
    const schema: P.Schema

    constructor (schema: P.Schema)
      ensures this.schema == schema
    {
      this.schema := schema;
    }

    /** `decode`: consumes from the front of `src` exactly what `DecodeFrame` says. */
    method Decode(src: BytesMut) returns (r: Result<Option<Message>, IoError>)
      modifies src
      ensures Decoding(r, src.data) == DecodeFrame(schema, old(src.data))
    {
      if |src.data| < HEADER_SIZE {
        return Ok(None);
      }
      var messageType := src.GetU16Le();
      var _ := src.GetU64Le();
      assert src.data == old(src.data)[HEADER_SIZE..];
      var body := DecodeBody(schema, messageType, src.data);
      match body {
        case None =>
          return Err(UNKNOWN_MESSAGE_TYPE);
        case Some(p) =>
          if p.Parsed? {
            src.Advance(|src.data|);
            return Ok(Some(p.value));
          }
          src.Advance(if p.consumed <= |src.data| then p.consumed else |src.data|);
          return Ok(None);
      }
    }

    /** `encode`: appends the frame of `item` to `dst`. */
    method Encode(item: Message, dst: BytesMut)
      modifies dst
      ensures dst.data == old(dst.data) + EncodeFrame(schema, item)
    {
      var tag, len, body := FrameTag(schema, item), EncodedLen(schema, item), Body(schema, item);
      dst.PutU16Le(tag);
      dst.PutU64Le(len);
      dst.PutSlice(body);
      AppendThree(old(dst.data), ToLE(tag, 2), ToLE(len, 8), body);
    }
  }
}
