/**
 * The client session: a `CrabClient` holds the socket path, an optional stream to
 * the store and its shared-memory allocator, and talks to the store one request and
 * one response at a time.
 */
module Client {
  import opened Io
  import opened LittleEndian
  import opened Buffers
  import opened ObjectIds
  import P = Payloads
  import M = Messages
  import A = Allocator

  /**
   * The client's end of the Unix socket: `incoming` is what the store has sent and
   * the client has not read yet, `written` what the client has sent. A peer that has
   * gone away refuses writes.
   */
  class UnixStream {
    var incoming: seq<byte>
    var written: seq<byte>
    const acceptsWrites: bool

    constructor (incoming: seq<byte>, acceptsWrites: bool)
      ensures this.incoming == incoming && written == [] && this.acceptsWrites == acceptsWrites
    {
      this.incoming := incoming;
      written := [];
      this.acceptsWrites := acceptsWrites;
    }

    /** `write_all`: all of `bs` goes out, or the write fails with a broken pipe. */
    method WriteAll(bs: seq<byte>) returns (r: Result<(), IoError>)
      modifies this
      ensures incoming == old(incoming)
      ensures acceptsWrites ==> r == Ok(()) && written == old(written) + bs
      ensures !acceptsWrites ==> r == Err(BROKEN_PIPE) && written == old(written)
    {
      if !acceptsWrites {
        return Err(BROKEN_PIPE);
      }
      written := written + bs;
      return Ok(());
    }

    /** `read_exact`: exactly `n` bytes, or an end-of-stream error once the peer has no more. */
    method ReadExact(n: nat) returns (r: Result<seq<byte>, IoError>)
      modifies this
      ensures written == old(written)
      ensures n <= |old(incoming)| ==> r == Ok(old(incoming)[..n]) && incoming == old(incoming)[n..]
      ensures |old(incoming)| < n ==> r == Err(EOF_ERROR) && incoming == []
    {
      if |incoming| < n {
        incoming := [];
        return Err(EOF_ERROR);
      }
      r := Ok(incoming[..n]);
      incoming := incoming[n..];
    }
  }

  /** The errors the Python-facing methods raise. */
  datatype ClientError =
    | PyIoError(ioError: IoError)        // an `io::Error` passed through `?`
    | PyValueError(message: string)
    | PyConnectionError(message: string)

  /** The memory view `create` hands out over freshly allocated shared memory. */
  datatype MemoryView = MemoryView(ptr: nat, len: nat)

  /** The 10-byte header `receive_response` reads: the u16 tag and the u64 body size. */
  function ParseHeader(h: seq<byte>): (u16, u64)
    requires |h| == M.HEADER_SIZE
  {
    Pow256Widths();
    (FromLE(h[..2]), FromLE(h[2..10]))
  }

  /** The `match msg_type` of `receive_response`, on a body of exactly the announced size. */
  function Dispatch(schema: P.Schema, tag: u16, payload: seq<byte>): Result<M.Message, IoError> {
    match M.DecodeBody(schema, tag, payload)
    case None => Err(UNKNOWN_MESSAGE_TYPE)
    case Some(p) => if p.Parsed? then Ok(p.value) else Err(DECODING_FAILED)
  }

  /** `isize::MAX` on a 64-bit target: the most bytes a `Vec<u8>` can hold. */
  const ISIZE_MAX: nat := 0x7fff_ffff_ffff_ffff

  /**
   * `receive_response` makes its body buffer before reading the body: for an announced
   * size above `isize::MAX`, `vec![0u8; msg_size as usize]` panics with a capacity
   * overflow. This holds when no header is buffered or its size can be allocated.
   */
  predicate BodyAllocatable(incoming: seq<byte>) {
    |incoming| < M.HEADER_SIZE || M.HeaderLength(incoming) <= ISIZE_MAX
  }

  /** What `receive_response` answers on a connected stream, and the bytes it leaves unread. */
  function ReadResponse(schema: P.Schema, incoming: seq<byte>): (Result<M.Message, IoError>, seq<byte>) {
    if |incoming| < M.HEADER_SIZE then (Err(EOF_ERROR), [])
    else
      var (tag, size) := ParseHeader(incoming[..M.HEADER_SIZE]);
      if |incoming| - M.HEADER_SIZE < size then (Err(EOF_ERROR), [])
      else (Dispatch(schema, tag, incoming[M.HEADER_SIZE..M.HEADER_SIZE + size]), incoming[M.HEADER_SIZE + size..])
  }

  /** How `reserve_oid` judges a response. */
  function ReserveVerdict(resp: Result<M.Message, IoError>): Result<bool, IoError> {
    match resp
    case Ok(m) => if m.OidReserveResponse? then Ok(true) else Err(INVALID_RESPONSE)
    case Err(e) => Err(e)
  }

  /** How `connect` judges the handshake's response. */
  function ConnectVerdict(resp: Result<M.Message, IoError>): Result<(), ClientError> {
    match resp
    case Ok(m) => if m.ConnectResponse? then Ok(()) else Err(PyValueError("Invalid response received from sever"))
    case Err(_) => Err(PyConnectionError(""))
  }

  /** The reservation request for `size` bytes under `oid`. */
  function ReserveRequest(oid: ObjectId, size: u64): M.Message {
    M.OidReserveRequest(P.OidReserveRequest(Binary(oid), size))
  }

  const CONNECT_REQUEST: M.Message := M.ConnectRequest(P.ConnectRequest)

  class CrabClient {
    const socketName: string
    const schema: P.Schema
    var stream: UnixStream?
    const allocator: A.UnixShm

    /** `new`: not connected, with a fresh allocator whose path counter starts at 0. */
    constructor (socketName: string, schema: P.Schema)
      ensures this.socketName == socketName && this.schema == schema
      ensures stream == null
      ensures fresh(allocator) && fresh(allocator.mmaps) && allocator.Valid()
      ensures allocator.counter == 0 && allocator.namesTaken == 0 && allocator.mmaps.addr2fdsize == map[]
    {
      this.socketName := socketName;
      this.schema := schema;
      stream := null;
      allocator := new A.UnixShm();
    }

    /** `send_request`: the request's frame goes out whole on the stream. */
    method SendRequest(request: M.Message) returns (r: Result<(), IoError>)
      modifies stream
      ensures stream == null ==> r == Err(NOT_CONNECTED)
      ensures stream != null ==> stream.incoming == old(stream.incoming)
      ensures stream != null && stream.acceptsWrites ==>
        r == Ok(()) && stream.written == old(stream.written) + M.EncodeFrame(schema, request)
      ensures stream != null && !stream.acceptsWrites ==>
        r == Err(BROKEN_PIPE) && stream.written == old(stream.written)
    {
      if stream == null {
        return Err(NOT_CONNECTED);
      }
      var mc := new M.MessageCodec(schema);
      var b := new BytesMut();
      mc.Encode(request, b);
      r := stream.WriteAll(b.data);
    }

    /** `receive_response`: reads one header and one body of the announced size. */
    method ReceiveResponse() returns (r: Result<M.Message, IoError>)
      requires stream != null ==> BodyAllocatable(stream.incoming)
      modifies stream
      ensures stream == null ==> r == Err(NOT_CONNECTED)
      ensures stream != null ==> stream.written == old(stream.written)
      ensures stream != null ==> (r, stream.incoming) == ReadResponse(schema, old(stream.incoming))
    {
      if stream == null {
        return Err(NOT_CONNECTED);
      }
      var header := stream.ReadExact(M.HEADER_SIZE);
      if header.Err? {
        return Err(header.error);
      }
      var (msgType, msgSize) := ParseHeader(header.value);
      var body := stream.ReadExact(msgSize);
      if body.Err? {
        return Err(body.error);
      }
      assert body.value == old(stream.incoming)[M.HEADER_SIZE..M.HEADER_SIZE + msgSize];
      r := Dispatch(schema, msgType, body.value);
    }

    /**
     * `reserve_oid`: sends the reservation and waits for its answer. No response
     * `receive_response` can produce is a reservation response, so it always fails.
     */
    method ReserveOid(oid: ObjectId, size: u64) returns (r: Result<bool, IoError>)
      requires stream != null ==> BodyAllocatable(stream.incoming)
      modifies stream
      ensures r.Err?
      ensures stream == null ==> r == Err(NOT_CONNECTED)
      ensures stream != null && !stream.acceptsWrites ==>
        r == Err(BROKEN_PIPE) && stream.written == old(stream.written) && stream.incoming == old(stream.incoming)
      ensures stream != null && stream.acceptsWrites ==>
        && stream.written == old(stream.written) + M.EncodeFrame(schema, ReserveRequest(oid, size))
        && (ReserveVerdict(ReadResponse(schema, old(stream.incoming)).0), stream.incoming)
           == (r, ReadResponse(schema, old(stream.incoming)).1)
    {
      var sent := SendRequest(ReserveRequest(oid, size));
      if sent.Err? {
        return Err(sent.error);
      }
      var resp := ReceiveResponse();
      ReadResponseNeverReserves(schema, old(stream.incoming));
      r := ReserveVerdict(resp);
    }

    /**
     * `connect`: `dial` is what connecting to `socketName` gave. The stream is kept
     * as soon as it is open, then the handshake is sent and its answer judged.
     */
    method Connect(dial: Result<UnixStream, IoError>) returns (r: Result<(), ClientError>)
      requires dial.Ok? ==> BodyAllocatable(dial.value.incoming)
      modifies this, if dial.Ok? then {dial.value} else {}
      ensures dial.Err? ==> r == Err(PyIoError(dial.error)) && stream == old(stream)
      ensures dial.Ok? ==> stream == dial.value
      ensures dial.Ok? && !dial.value.acceptsWrites ==>
        r == Err(PyIoError(BROKEN_PIPE))
        && stream.written == old(dial.value.written) && stream.incoming == old(dial.value.incoming)
      ensures dial.Ok? && dial.value.acceptsWrites ==>
        && stream.written == old(dial.value.written) + M.EncodeFrame(schema, CONNECT_REQUEST)
        && r == ConnectVerdict(ReadResponse(schema, old(dial.value.incoming)).0)
        && stream.incoming == ReadResponse(schema, old(dial.value.incoming)).1
    {
      if dial.Err? {
        return Err(PyIoError(dial.error));
      }
      stream := dial.value;
      var sent := SendRequest(CONNECT_REQUEST);
      if sent.Err? {
        return Err(PyIoError(sent.error));
      }
      var resp := ReceiveResponse();
      r := ConnectVerdict(resp);
    }

    /**
     * `create`: reserves the id first, sending the reservation for `dataSize` bytes
     * and reading its answer; as the reservation never succeeds, it always ends in
     * "Error in sever connection" before any memory is allocated.
     */
    method Create(oid: ObjectId, dataSize: usize) returns (r: Result<MemoryView, ClientError>)
      requires stream != null ==> BodyAllocatable(stream.incoming)
      modifies stream
      ensures r == Err(PyValueError("Error in sever connection"))
      ensures stream != null && !stream.acceptsWrites ==>
        stream.written == old(stream.written) && stream.incoming == old(stream.incoming)
      ensures stream != null && stream.acceptsWrites ==>
        && stream.written == old(stream.written) + M.EncodeFrame(schema, ReserveRequest(oid, dataSize))
        && stream.incoming == ReadResponse(schema, old(stream.incoming)).1
    {
      var reserved := ReserveOid(oid, dataSize);
      if reserved.Err? {
        return Err(PyValueError("Error in sever connection"));
      }
      assert false;
      return Err(PyValueError("ObjectID not available"));
    }
  }

  // ---- Properties of the session ----

  /** `receive_response` never yields a reservation response (nor a reservation request). */
  lemma ReadResponseNeverReserves(schema: P.Schema, incoming: seq<byte>)
    ensures var resp := ReadResponse(schema, incoming).0;
      resp.Ok? ==> !resp.value.OidReserveResponse? && !resp.value.OidReserveRequest?
    ensures ReserveVerdict(ReadResponse(schema, incoming).0).Err?
  {
    if |incoming| >= M.HEADER_SIZE {
      var (tag, size) := ParseHeader(incoming[..M.HEADER_SIZE]);
      if |incoming| - M.HEADER_SIZE >= size {
        M.DecodeBodyKinds(schema, tag, incoming[M.HEADER_SIZE..M.HEADER_SIZE + size]);
      }
    }
  }

  /** The reservation verdict: true only on a reservation response, and never false. */
  lemma ReserveVerdictCases(resp: Result<M.Message, IoError>)
    ensures ReserveVerdict(resp) == Ok(true) <==> resp.Ok? && resp.value.OidReserveResponse?
    ensures ReserveVerdict(resp) != Ok(false)
    ensures resp.Ok? && !resp.value.OidReserveResponse? ==> ReserveVerdict(resp) == Err(INVALID_RESPONSE)
    ensures resp.Err? ==> ReserveVerdict(resp) == Err(resp.error)
  {
  }

  /** The handshake verdict: success exactly on a connect response. */
  lemma ConnectVerdictCases(resp: Result<M.Message, IoError>)
    ensures ConnectVerdict(resp).Ok? <==> resp.Ok? && resp.value.ConnectResponse?
    ensures resp.Ok? && !resp.value.ConnectResponse? ==>
      ConnectVerdict(resp) == Err(PyValueError("Invalid response received from sever"))
    ensures resp.Err? ==> ConnectVerdict(resp) == Err(PyConnectionError(""))
  {
  }

  /**
   * A response frame of a tagged variant, followed by anything, is read back as its
   * message, and what follows it stays unread.
   */
  lemma ReadResponseRoundTrip(schema: P.Schema, m: M.Message, more: seq<byte>)
    requires P.Faithful(schema)
    requires M.MessageType(m).Some? && |M.Body(schema, m)| < U64_LIMIT
    ensures ReadResponse(schema, M.EncodeFrame(schema, m) + more) == (Ok(m), more)
  {
    M.FaithfulBody(schema, m);
    M.EncodeFrameLayout(schema, m);
    var frame := M.EncodeFrame(schema, m);
    var buf := frame + more;
    assert buf[..M.HEADER_SIZE] == frame[..M.HEADER_SIZE];
    assert buf[..M.HEADER_SIZE][..2] == frame[..2];
    assert buf[..M.HEADER_SIZE][2..10] == frame[2..M.HEADER_SIZE];
    assert buf[M.HEADER_SIZE..|frame|] == M.Body(schema, m);
    assert buf[|frame|..] == more;
  }

  /**
   * On a buffer holding a whole frame with a known tag, `receive_response` and the
   * length-respecting frame decoder agree: same message, same bytes left over.
   */
  lemma ReadResponseMatchesFramedDecoder(schema: P.Schema, buf: seq<byte>)
    requires |buf| >= M.HEADER_SIZE && M.HeaderTag(buf) < 4
    requires |buf| - M.HEADER_SIZE >= M.HeaderLength(buf)
    ensures var resp := ReadResponse(schema, buf);
      var d := M.DecodeFramed(schema, buf);
      && resp.1 == d.rest
      && (forall m :: resp.0 == Ok(m) <==> d.result == Ok(Some(m)))
      && (resp.0.Err? <==> d.result == Ok(None))
  {
    var h := buf[..M.HEADER_SIZE];
    assert h[..2] == buf[..2];
    assert h[2..10] == buf[2..M.HEADER_SIZE];
  }

  /**
   * How `receive_response` fails: a short stream at either read is an end-of-stream
   * error that drains it; once a whole frame is there it is consumed, an unknown tag
   * is "Unknown message type" and a known tag whose body does not decode is "Message
   * decoding failed". These are its only errors.
   */
  lemma ReadResponseErrors(schema: P.Schema, buf: seq<byte>)
    ensures |buf| < M.HEADER_SIZE ==> ReadResponse(schema, buf) == (Err(EOF_ERROR), [])
    ensures |buf| >= M.HEADER_SIZE && |buf| - M.HEADER_SIZE < M.HeaderLength(buf) ==>
      ReadResponse(schema, buf) == (Err(EOF_ERROR), [])
    ensures |buf| >= M.HEADER_SIZE && |buf| - M.HEADER_SIZE >= M.HeaderLength(buf) ==>
      var end := M.HEADER_SIZE + M.HeaderLength(buf);
      var resp := ReadResponse(schema, buf);
      && resp.1 == buf[end..]
      && (M.HeaderTag(buf) >= 4 <==> resp.0 == Err(UNKNOWN_MESSAGE_TYPE))
      && (M.HeaderTag(buf) < 4 ==>
            (resp.0 == Err(DECODING_FAILED) <==>
             M.DecodeBody(schema, M.HeaderTag(buf), buf[M.HEADER_SIZE..end]).value.Malformed?))
    ensures ReadResponse(schema, buf).0.Err? ==>
      ReadResponse(schema, buf).0.error in {EOF_ERROR, UNKNOWN_MESSAGE_TYPE, DECODING_FAILED}
  {
    if |buf| >= M.HEADER_SIZE {
      var h := buf[..M.HEADER_SIZE];
      assert h[..2] == buf[..2];
      assert h[2..10] == buf[2..M.HEADER_SIZE];
      if |buf| - M.HEADER_SIZE >= M.HeaderLength(buf) {
        M.DecodeBodyKinds(schema, M.HeaderTag(buf), buf[M.HEADER_SIZE..M.HEADER_SIZE + M.HeaderLength(buf)]);
      }
    }
  }

  /** Connecting to a store that answers the handshake with its connect response succeeds. */
  lemma ConnectAgainstStore(schema: P.Schema, capacity: int, more: seq<byte>)
    requires P.Faithful(schema)
    requires |M.Body(schema, M.ConnectResponse(P.ConnectResponse(capacity)))| < U64_LIMIT
    ensures ConnectVerdict(ReadResponse(schema,
      M.EncodeFrame(schema, M.ConnectResponse(P.ConnectResponse(capacity))) + more).0) == Ok(())
  {
    ReadResponseRoundTrip(schema, M.ConnectResponse(P.ConnectResponse(capacity)), more);
  }

  /** The reservation request carries the id's 20 bytes and the requested size. */
  lemma ReserveRequestContents(oid: ObjectId, size: u64)
    ensures ReserveRequest(oid, size).oidReserveRequest.objectId == oid.id
    ensures FromBinary(ReserveRequest(oid, size).oidReserveRequest.objectId) == oid
    ensures ReserveRequest(oid, size).oidReserveRequest.size == size
  {
  }
}
