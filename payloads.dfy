/**
 * The Protobuf message bodies, as records with the fields the modelled code builds or
 * reads. Their wire encoding is generated code outside the model: a `Schema` supplies
 * one encoder per body and one decoder per body that a modelled decoder calls, and
 * `Faithful` is the round trip those codecs are expected to satisfy.
 */
module Payloads {
  import opened Io
  import opened LittleEndian

  datatype ConnectRequest = ConnectRequest

  datatype ConnectResponse = ConnectResponse(memoryCapacity: int)

  /** Only `object_id` is read by the modelled code; no other field is modelled. */
  datatype CreateRequest = CreateRequest(objectId: seq<byte>)

  datatype ObjectSpec = ObjectSpec(
    segmentIndex: int,
    uniqueFdId: int,
    headerOffset: int,
    dataOffset: int,
    dataSize: int,
    metadataOffset: int,
    metadataSize: int,
    allocatedSize: int,
    fallbackAllocated: bool,
    deviceNum: int,
    isExperimentalMutableObject: bool)

  datatype CudaHandle = CudaHandle(handle: seq<seq<byte>>)

  datatype CreateResponse = CreateResponse(
    objectId: seq<byte>,
    retryWithRequestId: int,
    plasmaObject: Option<ObjectSpec>,
    error: int,
    storeFd: int,
    uniqueFdId: int,
    mmapSize: int,
    ipcHandle: Option<CudaHandle>)

  datatype OidReserveRequest = OidReserveRequest(objectId: seq<byte>, size: u64)

  /** No field of it is read by the modelled code. */
  datatype OidReserveResponse = OidReserveResponse

  /**
   * A body decode over a buffer: a successful decode consumes the whole buffer; a
   * failed one has consumed some prefix of it.
   */
  datatype Parsed<+T> = Parsed(value: T) | Malformed(consumed: nat)

  /**
   * The generated codecs, and the two frame tags the reservation messages travel
   * under: the frame encoder of messages.rs has no arm for those two variants.
   */
  datatype Schema = Schema(
    encodeConnectRequest: ConnectRequest -> seq<byte>,
    encodeConnectResponse: ConnectResponse -> seq<byte>,
    encodeCreateRequest: CreateRequest -> seq<byte>,
    encodeCreateResponse: CreateResponse -> seq<byte>,
    encodeOidReserveRequest: OidReserveRequest -> seq<byte>,
    encodeOidReserveResponse: OidReserveResponse -> seq<byte>,
    decodeConnectRequest: seq<byte> -> Parsed<ConnectRequest>,
    decodeConnectResponse: seq<byte> -> Parsed<ConnectResponse>,
    decodeCreateRequest: seq<byte> -> Parsed<CreateRequest>,
    decodeCreateResponse: seq<byte> -> Parsed<CreateResponse>,
    reserveRequestTag: u16,
    reserveResponseTag: u16)

  /**
   * Decoding an encoded body gives the body back. (Nothing bounds the length of an
   * encoding here: the bodies take infinitely many values, so no injective encoder
   * keeps them all below a fixed size; the frame lemmas require the bound of the
   * bodies they handle instead.)
   */
  ghost predicate Faithful(schema: Schema) {
    && (forall b :: schema.decodeConnectRequest(schema.encodeConnectRequest(b)) == Parsed(b))
    && (forall b :: schema.decodeConnectResponse(schema.encodeConnectResponse(b)) == Parsed(b))
    && (forall b :: schema.decodeCreateRequest(schema.encodeCreateRequest(b)) == Parsed(b))
    && (forall b :: schema.decodeCreateResponse(schema.encodeCreateResponse(b)) == Parsed(b))
  }
}
