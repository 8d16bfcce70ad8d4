# crabstore core, modelled in Dafny

crabstore is a shared-memory object store with a Plasma-style protocol. A client
process (`CrabClient`, exposed to Python) connects to the store over a Unix socket.
It exchanges length-prefixed Protobuf frames with the store and takes its object
memory from POSIX shared-memory segments. A dlmalloc instance provides that memory,
backed by the `UnixSHM` page source. This project models the parts of the
repository that decide behaviour:

- **`Allocator`** (`allocator.dfy`) is the `UnixSHM` page source and its `MMapRecord`
  table, written as classes whose methods update their fields:
  - the `i32` path counter, which wraps in a release build;
  - the shm_open → shm_unlink → ftruncate → mmap chain and what each failure returns;
  - the table of live mappings, and `free`'s remove-then-compare order;
  - the fixed answers of the other backend methods.

  A ghost log records the system calls made, closing a descriptor included.
- **`Messages`** (`messages.dfy`) is the frame codec. A frame is a little-endian u16
  tag, a little-endian u64 body length, then the body. `DecodeFrame` and
  `EncodeFrame` state what `MessageCodec::decode`/`encode` do to a buffer. The class
  `Messages.MessageCodec` does it in place on a `Buffers.BytesMut`. `DecodeFramed` is
  the decoder the framing calls for (see Findings).
- **`LegacyCodec`** (`legacy.dfy`) is the older codec of the common crate's root
  module. Its frame is a u16 tag followed by the body, with no length field.
- **`Client`** (`client.dfy`) is the client session. `CrabClient` has
  `send_request`, `receive_response` (the hand-written 10-byte-header reader),
  `reserve_oid`, `connect` and `create`. They run over a `UnixStream` object whose
  unread input and written output are fields.
- **`Store`** (`store.dfy`) is the store's per-connection loop. `HandleClient`
  answers create and connect requests, skips everything else, and stops at the first
  failed send.
- **`ObjectIds`** (`objectid.dfy`) is the 20-byte `ObjectId`: its construction, byte
  access, hex rendering, `Debug` string and hashing. The copy of `ObjectId` in the
  common crate's root module is identical line for line, so it is modelled by the
  same module.
- **`Statuses`** (`status.dfy`) is the status type: its constructors, accessors,
  predicates, code names and `Display`.
- Support modules:
  - `Io` holds Option, Result and the I/O errors the core produces.
  - `LittleEndian` holds the byte conversions.
  - `Decimal` is `i32::to_string` with its inverse.
  - `Payloads` holds the Protobuf bodies.
  - `SampleSchema` is a concrete (non-Protobuf) set of body codecs that meets `Faithful`.

Protobuf bodies are records (`Payloads`). Their generated wire codecs are a
`Schema` value: one encoder per body, and one decoder per body that the modelled code
decodes. `Payloads.Faithful(schema)` says that decoding an encoded body gives the
body back. It is a hypothesis of the round-trip lemmas, never an axiom. The frame
lemmas also require each body they handle to be shorter than 2^64 bytes, so that its
length fits the u64 length field. `SampleSchema` is a concrete set of codecs that
meets `Faithful`, so these hypotheses can be met together.

The operating system and the socket peer are parameters:
- Each `Alloc` receives the answers of its four system calls as a `ShmOutcome`.
- Each `Free` receives munmap's answer.
- `Alloc` requires that mmap never answers the null address or an address still recorded as mapped. This assumption about the OS is what keeps the duplicate-entry `assert!` of `MMapRecord::insert` from firing.
- `Connect` receives the stream that connecting produced, or the error.
- The store's loop receives the decoded items and the outcome of each send.

Panics are preconditions:
- `from_binary` on fewer than 20 bytes;
- `free` of the null pointer;
- a second `MMapRecord` entry for one address;
- reads of a `BytesMut` past its end;
- a response header announcing more than `isize::MAX` body bytes.

## Model

| member | source | states |
|---|---|---|
| Allocator.CounterAfterNoWrap | crates/crabstore-client/src/allocator.rs:46-61 | from a fresh backend (counter 0), after k ≤ 2^31-1 names the counter is exactly k |
| Allocator.CounterAfterWraps | crates/crabstore-client/src/allocator.rs:60-66 | from a fresh backend, after k ≤ 2^32 names the counter is k up to the i32 limit and k - 2^32 after it wraps, so it is back at 0 after 2^32 names |
| Allocator.ShmPathInjective | crates/crabstore-client/src/allocator.rs:60-66 | two counter values with the same segment name `/dlmalloc-unixshm-<counter>` are the same value |
| Allocator.FreshPathsDistinct | crates/crabstore-client/src/allocator.rs:60-66 | the i-th and j-th names handed out by a fresh backend differ for all 1 ≤ i < j ≤ 2^32, the wrapped negative counter values included |
| Allocator.FreshPathsRepeat | crates/crabstore-client/src/allocator.rs:60-66 | the bound is tight: name 2^32 + 1 is name 1 again |
| Allocator.AllocCallsShape | crates/crabstore-client/src/allocator.rs:75-121 | every non-zero alloc calls shm_open under its name first and shm_unlink right after a successful open; failing chains end by closing the descriptor; only a successful chain keeps it open; alloc never unmaps |
| Allocator.MMapRecord.constructor | crates/crabstore-client/src/allocator.rs:15-19 | the table starts empty |
| Allocator.MMapRecord.Insert | crates/crabstore-client/src/allocator.rs:20-30 | requires the address to be new (a duplicate is a fatal assert); adds exactly that entry |
| Allocator.MMapRecord.Remove | crates/crabstore-client/src/allocator.rs:32-37 | returns the entry of a known address and drops it; an unknown address gives None and leaves the table as it was |
| Allocator.UnixShm.constructor | crates/crabstore-client/src/allocator.rs:52-58 | counter 0, no names taken, an empty table, no system calls made |
| Allocator.UnixShm.GetNextPath | crates/crabstore-client/src/allocator.rs:60-66 | advances the counter by one (wrapping at the i32 limit), counts one more name taken, and returns the name built from the new value |
| Allocator.UnixShm.Alloc | crates/crabstore-client/src/allocator.rs:70-123 | size 0 answers (null, 0, 0) and changes nothing; otherwise the counter advances, one more name is counted, and the calls of `AllocCalls` are made; success adds exactly addr ↦ (fd, size) and answers (addr, size, 0); any failed call answers (null, 0, 0) and adds no entry; the invariant is kept, so the counter stays `CounterAfter(names taken)`, the value the `Allocator.Fresh…` rows reason about, and the table holds no null or empty mapping |
| Allocator.UnixShm.Free | crates/crabstore-client/src/allocator.rs:166-181 | requires a non-null pointer; the entry is always removed; an unknown address answers false; a size mismatch answers false having closed the descriptor without unmapping; a match unmaps then closes and answers munmap's outcome |
| Allocator.FixedAnswers | crates/crabstore-client/src/allocator.rs:137-145 | remap answers null, free_part and can_release_part false, allocates_zeros true and page_size 4096, whatever the state and arguments (free_part at lines 162-164, the rest at 183-193) |
| Allocator.UnixShm.Remap | crates/crabstore-client/src/allocator.rs:137-146 | definition of `remap`: the null pointer, whatever the arguments (properties in `Allocator.FixedAnswers`) |
| Allocator.UnixShm.FreePart | crates/crabstore-client/src/allocator.rs:162-164 | definition of `free_part`: false (properties in `Allocator.FixedAnswers`) |
| Allocator.UnixShm.CanReleasePart | crates/crabstore-client/src/allocator.rs:183-185 | definition of `can_release_part`: false (properties in `Allocator.FixedAnswers`) |
| Allocator.UnixShm.AllocatesZeros | crates/crabstore-client/src/allocator.rs:187-189 | definition of `allocates_zeros`: true (properties in `Allocator.FixedAnswers`) |
| Allocator.UnixShm.PageSize | crates/crabstore-client/src/allocator.rs:191-193 | definition of `page_size`: 4096 (properties in `Allocator.FixedAnswers`) |
| Decimal.IntToStringRoundTrip | crates/crabstore-client/src/allocator.rs:64 | the decimal rendering of an i32 counter reads back as that counter |
| Decimal.IntToStringInjective | crates/crabstore-client/src/allocator.rs:64 | distinct counters render to distinct decimal strings |
| LittleEndian.FromToLE | crates/crabstore-common/src/messages.rs:43-44 | reading back n little-endian bytes written for a value gives the value |
| LittleEndian.ToFromLE | crates/crabstore-common/src/messages.rs:100-101 | writing back the value read from little-endian bytes gives the bytes |
| Buffers.BytesMut.GetU16Le | crates/crabstore-common/src/messages.rs:43 | takes two bytes off the front and answers their little-endian value |
| Buffers.BytesMut.GetU64Le | crates/crabstore-common/src/messages.rs:44 | takes eight bytes off the front and answers their little-endian value |
| Buffers.BytesMut.PutU16Le | crates/crabstore-common/src/messages.rs:100 | appends the two little-endian bytes of the value |
| Buffers.BytesMut.PutU64Le | crates/crabstore-common/src/messages.rs:101 | appends the eight little-endian bytes of the value |
| Messages.DecodeBodyKinds | crates/crabstore-common/src/messages.rs:47-82 | exactly the tags 0 to 3 are known, and each decodes only to the variant its `MessageType` names |
| Messages.MessageTypeTable | crates/crabstore-common/src/messages.rs:11-17 | the four tagged variants carry the distinct tags 0 to 3 |
| Messages.EncodeFrame | crates/crabstore-common/src/messages.rs:92-138 | definition of the frame `encode` appends: u16 LE tag, `encoded_len` as u64 LE, body (properties in `Messages.EncodeFrameLayout`) |
| Messages.DecodeFrame | crates/crabstore-common/src/messages.rs:33-86 | definition of `decode` as written: wait below 10 bytes, else the whole rest of the buffer goes to the body decoder of the tag (properties in the `Messages.Decode…` rows) |
| Messages.DecodeFramed | crates/crabstore-common/src/messages.rs:33-86 | definition of the decoder the framing calls for: wait until the announced length is buffered, decode exactly that many body bytes, keep the rest (the corrected member of Findings) |
| Messages.EncodeFrameLayout | crates/crabstore-common/src/messages.rs:97-138 | a frame is 10 + body bytes: the tag as 2 LE bytes, the body length as 8 LE bytes, then the body |
| Messages.DecodeShortBuffer | crates/crabstore-common/src/messages.rs:38-40 | fewer than 10 bytes: Ok(None), nothing consumed |
| Messages.DecodeAfterHeader | crates/crabstore-common/src/messages.rs:43-85 | a header is always consumed; the tag is bytes 0-1 LE; tag ≥ 4 (and only that) is InvalidData "Unknown message type" and leaves everything after the header; a decoded message has the tag's variant and leaves nothing; a body that does not decode is Ok(None) |
| Messages.DecodeIgnoresLength | crates/crabstore-common/src/messages.rs:44-75 | two buffers that differ only in the length field decode alike |
| Messages.DecodeEncodedFrame | crates/crabstore-common/src/messages.rs:29-138 | for faithful codecs and a body under 2^64 bytes, a lone frame of a tagged message decodes to that message and leaves nothing |
| Messages.DecodeSwallowsNextFrame | crates/crabstore-common/src/messages.rs:44-75 | for faithful codecs and bodies under 2^64 bytes, with a second frame after the first, decode never answers the first message with the second frame left over; whenever it answers, the buffer is empty |
| Messages.DecodeLosesSplitFrame | crates/crabstore-common/src/messages.rs:44-49 | for faithful codecs and a body under 2^64 bytes, when a frame's header and only part of its body are buffered, decode consumes the header anyway and so differs from the length-respecting decoder, which waits |
| Messages.DecodeFramedRoundTrip | crates/crabstore-common/src/messages.rs:29-138 | for faithful codecs and a body under 2^64 bytes, the length-respecting decoder gives back a frame's message and leaves whatever follows |
| Messages.DecodeFramedWaits | crates/crabstore-common/src/messages.rs:37-44 | for faithful codecs and a body under 2^64 bytes, on any strict prefix of a frame the length-respecting decoder waits and consumes nothing |
| Messages.DrainFramedEncodeAll | crates/crabstore-common/src/messages.rs:29-138 | for faithful codecs and bodies under 2^64 bytes, frames written back to back come out of the length-respecting decoder as the same messages in the same order |
| SampleSchema.SampleIsFaithful | crates/crabstore-common/src/messages.rs:47-82 | the body decoders these lines call, given concrete (non-Protobuf) definitions, decode every encoded body back to itself, so `Faithful` can be met and the lemmas that assume it are not vacuous |
| SampleSchema.SampleConnectFrame | crates/crabstore-common/src/messages.rs:29-138 | with the sample codecs, a connect request's frame decodes back to it with the decoder as written, and with the length-respecting decoder followed by anything |
| Messages.MessageCodec.Decode | crates/crabstore-common/src/messages.rs:33-86 | answers and consumes exactly what `DecodeFrame` says of the old buffer |
| Messages.MessageCodec.Encode | crates/crabstore-common/src/messages.rs:92-139 | appends exactly the frame of the item |
| LegacyCodec.DecodeShortBuffer | crates/crabstore-common/src/lib.rs:37-39 | fewer than 2 bytes: Ok(None), nothing consumed |
| LegacyCodec.EncodeFrame | crates/crabstore-common/src/lib.rs:72-99 | definition of the old frame: u16 LE tag, then the body, no length (properties in `LegacyCodec.DecodeEncodedFrame` and `LegacyCodec.EncodeFrameInjective`) |
| LegacyCodec.DecodeFrame | crates/crabstore-common/src/lib.rs:32-66 | definition of the old `decode`: wait below 2 bytes, else the rest goes to the body decoder of the tag (properties in `LegacyCodec.DecodeOutcomes`) |
| LegacyCodec.DecodeOutcomes | crates/crabstore-common/src/lib.rs:42-65 | with a tag present it never answers Ok(None); a message has the tag's kind (0 create request, 1 create response); other tags are "Unknown message type"; every error, a failed body decode included, is InvalidData |
| LegacyCodec.DecodeEncodedFrame | crates/crabstore-common/src/lib.rs:28-100 | a frame (tag then body, no length) decodes to its message and leaves nothing |
| LegacyCodec.EncodeFrameInjective | crates/crabstore-common/src/lib.rs:72-99 | different messages have different frames |
| LegacyCodec.RootObjectIdRoundTrip | crates/crabstore-common/src/lib.rs:110-133 | the root module's ObjectId: from_binary keeps the first 20 bytes, binary returns them, hex is 40 characters that read back as them |
| LegacyCodec.MessageCodec.Decode | crates/crabstore-common/src/lib.rs:32-66 | answers and consumes exactly what `LegacyCodec.DecodeFrame` says |
| LegacyCodec.MessageCodec.Encode | crates/crabstore-common/src/lib.rs:72-99 | appends the 2-byte LE tag and the body |
| Client.UnixStream.WriteAll | crates/crabstore-client/src/client.rs:55 | all of the bytes are written, or the write fails with a broken pipe and nothing is written |
| Client.UnixStream.ReadExact | crates/crabstore-client/src/client.rs:69 | exactly n bytes are taken off the input, or end of stream is an UnexpectedEof error |
| Client.CrabClient.constructor | crates/crabstore-client/src/client.rs:171-178 | not connected, with a fresh allocator whose counter is 0 and whose table is empty |
| Client.CrabClient.SendRequest | crates/crabstore-client/src/client.rs:49-62 | without a stream: NotConnected and nothing written; otherwise the encoded frame is written whole, or the write error is returned |
| Client.CrabClient.ReceiveResponse | crates/crabstore-client/src/client.rs:64-142 | requires an announced body size of at most `isize::MAX` (above it line 83 panics); without a stream: NotConnected; otherwise the answer and the bytes left are those of `ReadResponse`; nothing is written |
| Client.CrabClient.ReserveOid | crates/crabstore-client/src/client.rs:144-166 | always an error: NotConnected, the send error, or the verdict on the response read after the reservation frame |
| Client.CrabClient.Connect | crates/crabstore-client/src/client.rs:180-205 | a dial error is returned as is; otherwise the stream is kept before the handshake; the connect frame is written; the result is the verdict on the response |
| Client.CrabClient.Create | crates/crabstore-client/src/client.rs:207-223 | always ValueError "Error in sever connection" before anything is allocated; on a stream that takes writes, the reservation frame for `data_size` is written and one response is read off the stream, as in `reserve_oid`; a refused write leaves the stream as it was |
| Client.ReadResponseNeverReserves | crates/crabstore-client/src/client.rs:87-135 | the header-and-body reader never produces a reservation message, so the reservation verdict on it is always an error |
| Client.ReserveVerdictCases | crates/crabstore-client/src/client.rs:152-165 | Ok(true) exactly on a reservation response, never Ok(false); any other response is InvalidData "Invalid response received from sever"; transport errors are passed through |
| Client.ConnectVerdictCases | crates/crabstore-client/src/client.rs:192-204 | success exactly on a connect response; any other response is ValueError "Invalid response received from sever"; a read error is a ConnectionError |
| Client.ReadResponseRoundTrip | crates/crabstore-client/src/client.rs:68-135 | for faithful codecs and a body under 2^64 bytes, a frame of a tagged message followed by anything is read back as the message, and what follows stays unread |
| Client.ReadResponseMatchesFramedDecoder | crates/crabstore-client/src/client.rs:68-135 | on a buffer holding a whole frame with a known tag, the client's reader and the length-respecting decoder answer the same message and leave the same bytes |
| Client.ConnectAgainstStore | crates/crabstore-client/src/client.rs:192-196 | for faithful codecs, a handshake answered with a connect response frame (body under 2^64 bytes) succeeds |
| Client.ReserveRequestContents | crates/crabstore-client/src/client.rs:145-148 | the reservation carries the id's 20 bytes (which rebuild the id) and the requested size |
| Client.BodyAllocatable | crates/crabstore-client/src/client.rs:83 | definition of the condition under which `vec![0u8; msg_size as usize]` does not panic: no header buffered, or an announced size of at most `isize::MAX` |
| Client.ReadResponse | crates/crabstore-client/src/client.rs:64-135 | definition of `receive_response` on a connected stream: the 10-byte header, exactly the announced body, then the tag dispatch (properties in `Client.ReadResponseRoundTrip` and `Client.ReadResponseErrors`) |
| Client.Dispatch | crates/crabstore-client/src/client.rs:87-134 | definition of the `match msg_type`: tags 0-3 decode their variant, a failed decode is "Message decoding failed", other tags "Unknown message type" |
| Client.ReserveVerdict | crates/crabstore-client/src/client.rs:152-165 | definition of `reserve_oid`'s judgement of the response (properties in `Client.ReserveVerdictCases`) |
| Client.ConnectVerdict | crates/crabstore-client/src/client.rs:192-204 | definition of `connect`'s judgement of the handshake response (properties in `Client.ConnectVerdictCases`) |
| Client.ReadResponseErrors | crates/crabstore-client/src/client.rs:68-134 | a stream shorter than 10 bytes, or than 10 + the announced size, is UnexpectedEof and is drained; with a whole frame buffered its bytes are consumed, a tag ≥ 4 (and only that) is "Unknown message type", and for a tag < 4 "Message decoding failed" comes exactly when the body does not decode; no other error occurs |
| Store.HandleClient | crates/crabstore-server/src/store.rs:58-108 | the responses sent are those owed for the items, in order; the result is Ok exactly when every owed send succeeds; a failed send ends the loop with that error, after a prefix of the responses |
| Store.ResponsesAppend | crates/crabstore-server/src/store.rs:61-106 | the responses owed for two runs of items are the concatenation of the responses owed for each |
| Store.ResponsesPrefix | crates/crabstore-server/src/store.rs:61-106 | the responses owed for a prefix of the items are a prefix of all the responses owed |
| Store.CreateIsAnswered | crates/crabstore-server/src/store.rs:63-90 | a create request gets one create response that echoes its object id, with every counter 0, an all-zero object spec and four four-byte zero handles |
| Store.ConnectIsAnswered | crates/crabstore-server/src/store.rs:92-97 | a connect request gets one connect response with capacity 200 |
| Store.OthersAreSkipped | crates/crabstore-server/src/store.rs:99-104 | any other message, and any decoding error, gets no response |
| Store.ResponsesKinds | crates/crabstore-server/src/store.rs:61-106 | only create and connect responses are sent, never more than there are items |
| Store.SkippedItemChangesNothing | crates/crabstore-server/src/store.rs:99-104 | removing a skipped item leaves the responses unchanged |
| Store.ResponsesAreTagged | crates/crabstore-server/src/store.rs:63-97 | every response the store sends has a frame tag |
| Store.Respond | crates/crabstore-server/src/store.rs:61-104 | definition of the answer to one decoded request: create and connect requests are answered, others are not (properties in `Store.CreateIsAnswered`, `Store.ConnectIsAnswered`, `Store.OthersAreSkipped`) |
| Store.Responses | crates/crabstore-server/src/store.rs:58-106 | definition of the responses owed for a run of items, in order (properties in `Store.HandleClient` and the `Store.Responses…` rows) |
| ObjectIds.BinaryOfFromBinary | crates/crabstore-common/src/objectid.rs:12-28 | from_binary keeps exactly the first 20 bytes and binary returns them |
| ObjectIds.FromBinaryOfBinary | crates/crabstore-common/src/objectid.rs:12-28 | every id is rebuilt from its own bytes |
| ObjectIds.DataIsBinary | crates/crabstore-common/src/objectid.rs:4-46 | data and binary are the same bytes, and size is 20 |
| ObjectIds.WriteDataChangesOneByte | crates/crabstore-common/src/objectid.rs:22-24 | a write through mutable_data changes that byte and no other |
| ObjectIds.HexOfAt | crates/crabstore-common/src/objectid.rs:30-35 | byte i is rendered as its two digits at positions 2i and 2i+1 |
| ObjectIds.HexFormat | crates/crabstore-common/src/objectid.rs:30-35 | hex is 40 lower-case hex digits, and each pair of digits reads back as its byte |
| ObjectIds.ParseHexOfHex | crates/crabstore-common/src/objectid.rs:30-35 | reading the digit pairs back gives the bytes rendered |
| ObjectIds.HexInjective | crates/crabstore-common/src/objectid.rs:30-35 | different ids have different hex strings |
| ObjectIds.EqualityIsBytewise | crates/crabstore-common/src/objectid.rs:6-59 | ids are equal exactly when their bytes are, and equal bytes hash alike |
| ObjectIds.DebugFormat | crates/crabstore-common/src/objectid.rs:49-53 | the Debug string is "UniqueID(", the 40 hex digits, ")" |
| ObjectIds.FromBinary | crates/crabstore-common/src/objectid.rs:12-16 | definition of `from_binary`: requires at least 20 bytes (`copy_from_slice` panics otherwise) and keeps the first 20 (properties in `ObjectIds.BinaryOfFromBinary`) |
| ObjectIds.Hex | crates/crabstore-common/src/objectid.rs:30-35 | definition of `hex`: the bytes as two lower-case digits each (properties in `ObjectIds.HexFormat`, `ObjectIds.ParseHexOfHex`) |
| ObjectIds.DebugString | crates/crabstore-common/src/objectid.rs:49-53 | definition of the `Debug` string (properties in `ObjectIds.DebugFormat`) |
| ObjectIds.Hash | crates/crabstore-common/src/objectid.rs:37-42 | definition of `hash`: the hasher's digest of the id bytes, the hasher being a parameter (properties in `ObjectIds.EqualityIsBytewise`) |
| ObjectIds.Data | crates/crabstore-common/src/objectid.rs:18-20 | definition of `data`: the 20 id bytes (properties in `ObjectIds.DataIsBinary`) |
| ObjectIds.WriteData | crates/crabstore-common/src/objectid.rs:22-24 | definition of a write through `mutable_data`: requires an index below 20 (the slice panics otherwise) and replaces that byte (properties in `ObjectIds.WriteDataChangesOneByte`) |
| ObjectIds.Binary | crates/crabstore-common/src/objectid.rs:26-28 | definition of `binary`: a copy of the 20 id bytes (properties in `ObjectIds.BinaryOfFromBinary`, `ObjectIds.FromBinaryOfBinary`) |
| ObjectIds.Size | crates/crabstore-common/src/objectid.rs:44-46 | definition of `size`: 20 (properties in `ObjectIds.DataIsBinary`) |
| Statuses.OkAccessors | crates/crabstore-common/src/status.rs:40-93 | the success status is ok, has code OK, rpc code -1 and an empty message, and no error predicate holds |
| Statuses.FromErrorAccessors | crates/crabstore-common/src/status.rs:29-93 | an error status gives back its code, message and rpc code, and is not ok even with code OK |
| Statuses.NamedConstructors | crates/crabstore-common/src/status.rs:45-59 | each named constructor sets its code and rpc code -1, and its predicate holds |
| Statuses.PredicatesFollowCode | crates/crabstore-common/src/status.rs:65-79 | each predicate holds exactly for the statuses whose code it names |
| Statuses.CodeNameRoundTrip | crates/crabstore-common/src/status.rs:95-108 | every code's name reads back as that code |
| Statuses.CodeNameInjective | crates/crabstore-common/src/status.rs:95-108 | no two codes share a name |
| Statuses.DisplayFormat | crates/crabstore-common/src/status.rs:110-118 | the display is "OK" exactly for the success status; an error shows "<code name>: <message>" |
| Statuses.FromError | crates/crabstore-common/src/status.rs:29-38 | definition of `from_error`: a status holding the code, message and rpc code (properties in `Statuses.FromErrorAccessors`) |
| Statuses.Code | crates/crabstore-common/src/status.rs:81-85 | definition of `code`: OK for the success status, the stored code otherwise (properties in `Statuses.OkAccessors`) |
| Statuses.CodeName | crates/crabstore-common/src/status.rs:95-108 | definition of `code_as_string`'s table (properties in `Statuses.CodeNameRoundTrip`, `Statuses.CodeNameInjective`) |
| Statuses.Display | crates/crabstore-common/src/status.rs:110-118 | definition of the `Display` string (properties in `Statuses.DisplayFormat`) |
| Statuses.OkStatus | crates/crabstore-common/src/status.rs:40-42 | definition of `ok`: a status holding no error (properties in `Statuses.OkAccessors`) |
| Statuses.OutOfMemoryStatus | crates/crabstore-common/src/status.rs:45-47 | definition of `out_of_memory`: `from_error` with code OutOfMemory and rpc code -1 (properties in `Statuses.NamedConstructors`) |
| Statuses.KeyErrorStatus | crates/crabstore-common/src/status.rs:49-51 | definition of `key_error`: `from_error` with code KeyError and rpc code -1 (properties in `Statuses.NamedConstructors`) |
| Statuses.ObjectRefEndOfStreamStatus | crates/crabstore-common/src/status.rs:53-55 | definition of `object_ref_end_of_stream`: `from_error` with code ObjectRefEndOfStream and rpc code -1 (properties in `Statuses.NamedConstructors`) |
| Statuses.TypeErrorStatus | crates/crabstore-common/src/status.rs:57-59 | definition of `type_error`: `from_error` with code TypeError and rpc code -1 (properties in `Statuses.NamedConstructors`) |
| Statuses.IsOk | crates/crabstore-common/src/status.rs:61-63 | definition of `is_ok`: no error is held (properties in `Statuses.OkAccessors`, `Statuses.FromErrorAccessors`, `Statuses.DisplayFormat`) |
| Statuses.IsOutOfMemory | crates/crabstore-common/src/status.rs:65-67 | definition of `is_out_of_memory`: the code is OutOfMemory (properties in `Statuses.PredicatesFollowCode`) |
| Statuses.IsKeyError | crates/crabstore-common/src/status.rs:69-71 | definition of `is_key_error`: the code is KeyError (properties in `Statuses.PredicatesFollowCode`) |
| Statuses.IsObjectRefEndOfStream | crates/crabstore-common/src/status.rs:73-75 | definition of `is_object_ref_end_of_stream`: the code is ObjectRefEndOfStream (properties in `Statuses.PredicatesFollowCode`) |
| Statuses.IsTypeError | crates/crabstore-common/src/status.rs:77-79 | definition of `is_type_error`: the code is TypeError (properties in `Statuses.PredicatesFollowCode`) |
| Statuses.RpcCode | crates/crabstore-common/src/status.rs:87-89 | definition of `rpc_code`: -1 for the success status, the stored rpc code otherwise (properties in `Statuses.OkAccessors`, `Statuses.FromErrorAccessors`) |
| Statuses.Message | crates/crabstore-common/src/status.rs:91-93 | definition of `message`: empty for the success status, the stored message otherwise (properties in `Statuses.OkAccessors`, `Statuses.FromErrorAccessors`) |
| Statuses.CodeAsString | crates/crabstore-common/src/status.rs:95-108 | definition of `code_as_string`: the name of the status's code (properties in `Statuses.CodeNameRoundTrip`, `Statuses.DisplayFormat`) |

## Left out

- dlmalloc itself and Python bindings (`pyo3`, memory views): external crates. `create`'s `malloc(data_size, 1)` and the view over it are unreachable here, and are not modelled.
- Client.CrabClient.Create: does not model the allocation after a successful reservation. No response `receive_response` can produce is a reservation response, so `reserve_oid` never answers `Ok`.
- The reservation messages: `client.rs` sends `OidReserveRequest` and expects `OidReserveResponse`, but neither has an arm in the `Messages` enum or the encoder of `messages.rs`. Their frame tags and body encoders are therefore parameters of the `Schema`.
- Protobuf wire encoding: generated code. Bodies, and the fields the modelled code reads or builds, are records. Decoders and encoders are `Schema` functions, and their round trip is the `Faithful` hypothesis in the lemmas that need it. `SampleSchema`'s codecs are not Protobuf's wire format; they only show that the hypothesis can hold.
- `Messages.EncodedLen`: `encoded_len() as u64` is taken modulo 2^64. A lemma about a frame requires that frame's body to be shorter than 2^64 bytes. Frames with longer bodies, whose length field wraps, are not covered.
- The socket, async runtime and `Framed` adapter: `HandleClient` takes the items the framed stream yields as a sequence. Whether the stream ends after a decoding error is a property of `tokio_util`, which is not part of this model. The server's listener and accept loop (`CrabStore::start`) are left out, and so is its `RamAllocator`.
- Client.CrabClient.ReceiveResponse: the capacity-overflow panic of `vec![0u8; msg_size as usize]` for an announced size above `isize::MAX` is a precondition (`Client.BodyAllocatable`), and so of `reserve_oid`, `connect` and `create`. A smaller size the allocator cannot supply aborts the process on allocation failure; the model does not capture that and answers from the bytes at hand (UnexpectedEof when they are missing).
- Allocator.NextCounter: `self.counter += 1` is modelled as a release build computes it, wrapping at the i32 limit. A debug build panics on that overflow, at the 2^31-th name; that panic is not modelled.
- Messages.MessageCodec.Encode: the `cr.encode(dst)?` error path of each arm is not modelled. prost fails there only when `dst` cannot grow to hold the body, which `BytesMut` does not refuse short of running out of memory.
- Client.UnixStream.WriteAll: a failing write writes nothing. A real partial write before the error is not modelled.
- Client.UnixStream.ReadExact: at end of stream the input is emptied. The source leaves open how much a short `read_exact` consumes.
- Logging, `println!`/`eprintln!` diagnostics and `Mutex` locking (the client's `get_mut().unwrap()` cannot block) are left out. So is the hasher behind `ObjectId::hash`: `Hash` takes it as a parameter, and only the bytes fed to it are modelled.
- `Status` derives `Debug` and `Clone`; those are not modelled.

## Findings

| source | as written | input that shows it | evidently intended | confidence | as-written member | corrected member |
|---|---|---|---|---|---|---|
| crates/crabstore-common/src/messages.rs:44-49 | `decode` reads the u64 length into `_message_size`, then hands the whole rest of the buffer to the body decoder. When a frame is decoded, the buffer is left empty. | Two frames in one read buffer, e.g. ConnectRequest followed by CreateRequest. The first body decode also sees the second frame's ten header bytes and body. The second frame is never decoded as a frame of its own. | Decode exactly `length` body bytes, wait until they are all buffered, and leave the following bytes for the next call. This is the framing the client's own reader follows. | not executed | Messages.DecodeSwallowsNextFrame | Messages.DecodeFramedRoundTrip |
| crates/crabstore-common/src/messages.rs:44-49 | Once ten bytes are buffered, `decode` consumes the header even when the body has not all arrived, and runs the body decoder on the partial body. | A CreateRequest frame whose socket read stops after the header and part of the body. The header is gone from the buffer, so the rest of the body, arriving later, is read as the start of a new frame. | Wait, consuming nothing, until all `length` body bytes are buffered. | not executed | Messages.DecodeLosesSplitFrame | Messages.DecodeFramedWaits |
