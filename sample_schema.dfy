/**
 * A concrete `Schema` whose decoders invert its encoders, so that the `Faithful`
 * hypothesis of the frame lemmas is met by at least one set of codecs. It is not
 * Protobuf's wire format: every body is written as a tree of integers, and a tree
 * as a self-delimiting string of bytes (a tag byte, then unary counts).
 */
module SampleSchema {
  import opened Io
  import opened LittleEndian
  import P = Payloads
  import M = Messages

  /** A body flattened to integers: a leaf holds one field, a node a list of parts. */
  datatype Tree = Leaf(n: int) | Node(kids: seq<Tree>)

  // ---- Bytes of a tree ----

  /** `n` as n one-bytes closed by a zero byte. */
  function Unary(n: nat): seq<byte> {
    if n == 0 then [0] else [1] + Unary(n - 1)
  }

  /** Integers onto naturals: 0, -1, 1, -2, 2, ... become 0, 1, 2, 3, 4, ... */
  function ZigZag(i: int): nat {
    if i >= 0 then 2 * i else -2 * i - 1
  }

  function UnZigZag(n: nat): int {
    if n % 2 == 0 then n / 2 else -((n + 1) / 2)
  }

  function Ser(t: Tree): seq<byte>
    decreases t
  {
    match t
    case Leaf(n) => [0] + Unary(ZigZag(n))
    case Node(kids) => [1] + Unary(|kids|) + SerList(kids)
  }

  function SerList(ts: seq<Tree>): seq<byte>
    decreases ts
  {
    if ts == [] then [] else Ser(ts[0]) + SerList(ts[1..])
  }

  /** Reads a unary count off the front of `s`, answering it and what follows. */
  function ReadUnary(s: seq<byte>): (r: Option<(nat, seq<byte>)>)
    ensures r.Some? ==> |r.value.1| < |s|
    decreases |s|
  {
    if s == [] then None
    else if s[0] == 0 then Some((0, s[1..]))
    else if s[0] == 1 then
      match ReadUnary(s[1..])
      case None => None
      case Some((n, rest)) => Some((n + 1, rest))
    else None
  }

  /** Reads one tree off the front of `s`. */
  function Parse(s: seq<byte>): (r: Option<(Tree, seq<byte>)>)
    ensures r.Some? ==> |r.value.1| < |s|
    decreases |s|, 0
  {
    if s == [] then None
    else if s[0] == 0 then
      match ReadUnary(s[1..])
      case None => None
      case Some((z, rest)) => Some((Leaf(UnZigZag(z)), rest))
    else if s[0] == 1 then
      match ReadUnary(s[1..])
      case None => None
      case Some((k, rest)) =>
        match ParseList(k, rest)
        case None => None
        case Some((kids, rest')) => Some((Node(kids), rest'))
    else None
  }

  /** Reads `k` trees, one after another, off the front of `s`. */
  function ParseList(k: nat, s: seq<byte>): (r: Option<(seq<Tree>, seq<byte>)>)
    ensures r.Some? ==> |r.value.1| <= |s|
    decreases |s|, 1, k
  {
    if k == 0 then Some(([], s))
    else
      match Parse(s)
      case None => None
      case Some((t, rest)) =>
        match ParseList(k - 1, rest)
        case None => None
        case Some((ts, rest')) => Some(([t] + ts, rest'))
  }

  lemma {:induction false} ReadUnaryOfUnary(n: nat, x: seq<byte>)
    ensures ReadUnary(Unary(n) + x) == Some((n, x))
  {
    if n > 0 {
      var s := Unary(n) + x;
      assert s[0] == 1;
      assert s[1..] == Unary(n - 1) + x;
      ReadUnaryOfUnary(n - 1, x);
    } else {
      assert (Unary(0) + x)[1..] == x;
    }
  }

  lemma ZigZagInverse(i: int)
    ensures UnZigZag(ZigZag(i)) == i
  {
  }

  /** A tree's bytes, followed by anything, read back as the tree with that left over. */
  lemma {:induction false} ParseOfSer(t: Tree, x: seq<byte>)
    ensures Parse(Ser(t) + x) == Some((t, x))
    decreases t
  {
    match t
    case Leaf(n) =>
      var s := Ser(t) + x;
      assert s[1..] == Unary(ZigZag(n)) + x;
      ReadUnaryOfUnary(ZigZag(n), x);
      ZigZagInverse(n);
    case Node(kids) =>
      var s := Ser(t) + x;
      assert s[1..] == Unary(|kids|) + (SerList(kids) + x);
      ReadUnaryOfUnary(|kids|, SerList(kids) + x);
      ParseListOfSerList(kids, x);
  }

  lemma {:induction false} ParseListOfSerList(ts: seq<Tree>, x: seq<byte>)
    ensures ParseList(|ts|, SerList(ts) + x) == Some((ts, x))
    decreases ts
  {
    if ts == [] {
      assert SerList(ts) + x == x;
    } else {
      var tail := SerList(ts[1..]) + x;
      assert SerList(ts) + x == Ser(ts[0]) + tail;
      ParseOfSer(ts[0], tail);
      ParseListOfSerList(ts[1..], x);
      assert |ts[1..]| == |ts| - 1;
      assert ParseList(|ts| - 1, tail) == Some((ts[1..], x));
      assert [ts[0]] + ts[1..] == ts;
    }
  }

  /** Parses a whole buffer as one tree, nothing left over. */
  function ParseAll(s: seq<byte>): Option<Tree> {
    match Parse(s)
    case Some((t, rest)) => if rest == [] then Some(t) else None
    case None => None
  }

  lemma ParseAllOfSer(t: Tree)
    ensures ParseAll(Ser(t)) == Some(t)
  {
    ParseOfSer(t, []);
    assert Ser(t) + [] == Ser(t);
  }

  // ---- Bodies as trees ----

  function BytesTree(s: seq<byte>): Tree {
    Node(seq(|s|, i requires 0 <= i < |s| => Leaf(s[i])))
  }

  function TreeBytes(t: Tree): Option<seq<byte>> {
    if t.Node? && forall i :: 0 <= i < |t.kids| ==> t.kids[i].Leaf? && 0 <= t.kids[i].n < 0x100 then
      Some(seq(|t.kids|, i requires 0 <= i < |t.kids| => t.kids[i].n as byte))
    else None
  }

  lemma TreeBytesOfBytesTree(s: seq<byte>)
    ensures TreeBytes(BytesTree(s)) == Some(s)
  {
    var t := BytesTree(s);
    assert forall i :: 0 <= i < |t.kids| ==> t.kids[i] == Leaf(s[i]);
    assert seq(|t.kids|, i requires 0 <= i < |t.kids| => t.kids[i].n as byte) == s;
  }

  function BoolLeaf(b: bool): Tree {
    Leaf(if b then 1 else 0)
  }

  function SpecTree(o: P.ObjectSpec): Tree {
    Node([Leaf(o.segmentIndex), Leaf(o.uniqueFdId), Leaf(o.headerOffset), Leaf(o.dataOffset),
          Leaf(o.dataSize), Leaf(o.metadataOffset), Leaf(o.metadataSize), Leaf(o.allocatedSize),
          BoolLeaf(o.fallbackAllocated), Leaf(o.deviceNum), BoolLeaf(o.isExperimentalMutableObject)])
  }

  function TreeSpec(t: Tree): Option<P.ObjectSpec> {
    if t.Node? && |t.kids| == 11 && forall i :: 0 <= i < 11 ==> t.kids[i].Leaf? then
      var k := t.kids;
      Some(P.ObjectSpec(k[0].n, k[1].n, k[2].n, k[3].n, k[4].n, k[5].n, k[6].n, k[7].n,
                        k[8].n == 1, k[9].n, k[10].n == 1))
    else None
  }

  function HandleTree(h: P.CudaHandle): Tree {
    Node(seq(|h.handle|, i requires 0 <= i < |h.handle| => BytesTree(h.handle[i])))
  }

  function TreeHandle(t: Tree): Option<P.CudaHandle> {
    if t.Node? && forall i :: 0 <= i < |t.kids| ==> TreeBytes(t.kids[i]).Some? then
      Some(P.CudaHandle(seq(|t.kids|, i requires 0 <= i < |t.kids| => TreeBytes(t.kids[i]).value)))
    else None
  }

  lemma TreeHandleOfHandleTree(h: P.CudaHandle)
    ensures TreeHandle(HandleTree(h)) == Some(h)
  {
    var t := HandleTree(h);
    forall i | 0 <= i < |t.kids| ensures TreeBytes(t.kids[i]) == Some(h.handle[i]) {
      assert t.kids[i] == BytesTree(h.handle[i]);
      TreeBytesOfBytesTree(h.handle[i]);
    }
    assert seq(|t.kids|, i requires 0 <= i < |t.kids| => TreeBytes(t.kids[i]).value) == h.handle;
  }

  /** An optional part: no kids for None, one kid for Some. */
  function OptTree(t: Option<Tree>): Tree {
    if t.Some? then Node([t.value]) else Node([])
  }

  function CreateResponseTree(c: P.CreateResponse): Tree {
    Node([BytesTree(c.objectId), Leaf(c.retryWithRequestId),
          OptTree(if c.plasmaObject.Some? then Some(SpecTree(c.plasmaObject.value)) else None),
          Leaf(c.error), Leaf(c.storeFd), Leaf(c.uniqueFdId), Leaf(c.mmapSize),
          OptTree(if c.ipcHandle.Some? then Some(HandleTree(c.ipcHandle.value)) else None)])
  }

  function TreeOptSpec(t: Tree): Option<Option<P.ObjectSpec>> {
    if t == Node([]) then Some(None)
    else if t.Node? && |t.kids| == 1 && TreeSpec(t.kids[0]).Some? then Some(TreeSpec(t.kids[0]))
    else None
  }

  function TreeOptHandle(t: Tree): Option<Option<P.CudaHandle>> {
    if t == Node([]) then Some(None)
    else if t.Node? && |t.kids| == 1 && TreeHandle(t.kids[0]).Some? then Some(TreeHandle(t.kids[0]))
    else None
  }

  function TreeCreateResponse(t: Tree): Option<P.CreateResponse> {
    if t.Node? && |t.kids| == 8 && TreeBytes(t.kids[0]).Some?
       && t.kids[1].Leaf? && TreeOptSpec(t.kids[2]).Some? && t.kids[3].Leaf? && t.kids[4].Leaf?
       && t.kids[5].Leaf? && t.kids[6].Leaf? && TreeOptHandle(t.kids[7]).Some?
    then
      var k := t.kids;
      Some(P.CreateResponse(TreeBytes(k[0]).value, k[1].n, TreeOptSpec(k[2]).value, k[3].n, k[4].n,
                            k[5].n, k[6].n, TreeOptHandle(k[7]).value))
    else None
  }

  lemma TreeCreateResponseOfTree(c: P.CreateResponse)
    ensures TreeCreateResponse(CreateResponseTree(c)) == Some(c)
  {
    TreeBytesOfBytesTree(c.objectId);
    if c.ipcHandle.Some? {
      TreeHandleOfHandleTree(c.ipcHandle.value);
    }
  }

  // ---- The codecs ----

  function EncodeConnectRequest(b: P.ConnectRequest): seq<byte> { Ser(Node([])) }
  function EncodeConnectResponse(b: P.ConnectResponse): seq<byte> { Ser(Leaf(b.memoryCapacity)) }
  function EncodeCreateRequest(b: P.CreateRequest): seq<byte> { Ser(BytesTree(b.objectId)) }
  function EncodeCreateResponse(b: P.CreateResponse): seq<byte> { Ser(CreateResponseTree(b)) }
  function EncodeOidReserveRequest(b: P.OidReserveRequest): seq<byte> {
    Ser(Node([BytesTree(b.objectId), Leaf(b.size)]))
  }
  function EncodeOidReserveResponse(b: P.OidReserveResponse): seq<byte> { Ser(Node([])) }

  function DecodeConnectRequest(s: seq<byte>): P.Parsed<P.ConnectRequest> {
    if ParseAll(s) == Some(Node([])) then P.Parsed(P.ConnectRequest) else P.Malformed(0)
  }

  function DecodeConnectResponse(s: seq<byte>): P.Parsed<P.ConnectResponse> {
    match ParseAll(s)
    case Some(Leaf(n)) => P.Parsed(P.ConnectResponse(n))
    case _ => P.Malformed(0)
  }

  function DecodeCreateRequest(s: seq<byte>): P.Parsed<P.CreateRequest> {
    match ParseAll(s)
    case Some(t) => if TreeBytes(t).Some? then P.Parsed(P.CreateRequest(TreeBytes(t).value)) else P.Malformed(0)
    case None => P.Malformed(0)
  }

  function DecodeCreateResponse(s: seq<byte>): P.Parsed<P.CreateResponse> {
    match ParseAll(s)
    case Some(t) => if TreeCreateResponse(t).Some? then P.Parsed(TreeCreateResponse(t).value) else P.Malformed(0)
    case None => P.Malformed(0)
  }

  const SAMPLE: P.Schema := P.Schema(
    EncodeConnectRequest, EncodeConnectResponse, EncodeCreateRequest, EncodeCreateResponse,
    EncodeOidReserveRequest, EncodeOidReserveResponse,
    DecodeConnectRequest, DecodeConnectResponse, DecodeCreateRequest, DecodeCreateResponse,
    4, 5)

  /** The sample codecs round-trip every body, so `Faithful` can be met. */
  lemma SampleIsFaithful()
    ensures P.Faithful(SAMPLE)
  {
    forall b: P.ConnectRequest ensures SAMPLE.decodeConnectRequest(SAMPLE.encodeConnectRequest(b)) == P.Parsed(b) {
      ParseAllOfSer(Node([]));
      assert b == P.ConnectRequest;
    }
    forall b: P.ConnectResponse ensures DecodeConnectResponse(EncodeConnectResponse(b)) == P.Parsed(b) {
      ParseAllOfSer(Leaf(b.memoryCapacity));
    }
    forall b: P.CreateRequest ensures DecodeCreateRequest(EncodeCreateRequest(b)) == P.Parsed(b) {
      ParseAllOfSer(BytesTree(b.objectId));
      TreeBytesOfBytesTree(b.objectId);
    }
    forall b: P.CreateResponse ensures DecodeCreateResponse(EncodeCreateResponse(b)) == P.Parsed(b) {
      ParseAllOfSer(CreateResponseTree(b));
      TreeCreateResponseOfTree(b);
    }
  }

  /**
   * The frame lemmas apply to the sample codecs: the two-byte body of a connect
   * request fits the length field, and its frame decodes back to it with either
   * decoder.
   */
  lemma SampleConnectFrame(rest: seq<byte>)
    ensures M.DecodeFrame(SAMPLE, M.EncodeFrame(SAMPLE, M.ConnectRequest(P.ConnectRequest)))
      == M.Decoding(Ok(Some(M.ConnectRequest(P.ConnectRequest))), [])
    ensures M.DecodeFramed(SAMPLE, M.EncodeFrame(SAMPLE, M.ConnectRequest(P.ConnectRequest)) + rest)
      == M.Decoding(Ok(Some(M.ConnectRequest(P.ConnectRequest))), rest)
  {
    SampleIsFaithful();
    assert |M.Body(SAMPLE, M.ConnectRequest(P.ConnectRequest))| == 2;
    M.DecodeEncodedFrame(SAMPLE, M.ConnectRequest(P.ConnectRequest));
    M.DecodeFramedRoundTrip(SAMPLE, M.ConnectRequest(P.ConnectRequest), rest);
  }
}
