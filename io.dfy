/** Option, Result and the parts of `std::io::Error` the core produces or inspects. */
module Io {

  datatype Option<+T> = None | Some(value: T)

  datatype Result<+T, +E> = Ok(value: T) | Err(error: E)

  /** The `io::ErrorKind`s that occur in the core. */
  datatype IoErrorKind =
    | NotConnected    // a request on a client without a stream
    | InvalidData     // unknown message type, undecodable body, unexpected response kind
    | UnexpectedEof   // `read_exact` ran out of bytes
    | BrokenPipe      // `write_all` on a stream whose peer is gone
    | ConnectFailed   // `UnixStream::connect` did not reach a listener

  datatype IoError = IoError(kind: IoErrorKind, message: string)

  const NOT_CONNECTED: IoError := IoError(NotConnected, "Client is not connected")
  const UNKNOWN_MESSAGE_TYPE: IoError := IoError(InvalidData, "Unknown message type")
  const DECODING_FAILED: IoError := IoError(InvalidData, "Message decoding failed")
  const INVALID_RESPONSE: IoError := IoError(InvalidData, "Invalid response received from sever")
  /** `read_exact` at end of stream. */
  const EOF_ERROR: IoError := IoError(UnexpectedEof, "failed to fill whole buffer")
  const BROKEN_PIPE: IoError := IoError(BrokenPipe, "Broken pipe")
  /** A `prost::DecodeError` turned into an `io::Error` by `?` (its kind is InvalidData). */
  const PROTOBUF_DECODE_ERROR: IoError := IoError(InvalidData, "failed to decode Protobuf message")
}
