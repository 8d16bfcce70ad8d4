/** `Status`: success, or an error carrying a code, a message and an RPC code. */
module Statuses {
  import opened Io
  import opened LittleEndian

  datatype StatusCode =
    | OK
    | OutOfMemory
    | KeyError
    | ObjectRefEndOfStream
    | TypeError
    | OutOfDisk
    | Invalid
    | IOError
    | InvalidArgument

  datatype State = State(code: StatusCode, msg: string, rpcCode: i32)

  /** No state is success; a present state is an error, whatever its code. */
  datatype Status = Status(state: Option<State>)

  function FromError(code: StatusCode, msg: string, rpcCode: i32): Status {
    Status(Some(State(code, msg, rpcCode)))
  }

  /** `Status::ok()` */
  function OkStatus(): Status {
    Status(None)
  }

  function OutOfMemoryStatus(msg: string): Status {
    FromError(OutOfMemory, msg, -1)
  }

  function KeyErrorStatus(msg: string): Status {
    FromError(KeyError, msg, -1)
  }

  function ObjectRefEndOfStreamStatus(msg: string): Status {
    FromError(ObjectRefEndOfStream, msg, -1)
  }

  function TypeErrorStatus(msg: string): Status {
    FromError(TypeError, msg, -1)
  }

  predicate IsOk(s: Status) {
    s.state.None?
  }

  function Code(s: Status): StatusCode {
    match s.state
    case None => OK
    case Some(st) => st.code
  }

  function RpcCode(s: Status): i32 {
    match s.state
    case None => -1
    case Some(st) => st.rpcCode
  }

  function Message(s: Status): string {
    match s.state
    case None => ""
    case Some(st) => st.msg
  }

  predicate IsOutOfMemory(s: Status) {
    Code(s) == OutOfMemory
  }

  predicate IsKeyError(s: Status) {
    Code(s) == KeyError
  }

  predicate IsObjectRefEndOfStream(s: Status) {
    Code(s) == ObjectRefEndOfStream
  }

  predicate IsTypeError(s: Status) {
    Code(s) == TypeError
  }

  /** The variant name of a code. */
  function CodeName(c: StatusCode): string {
    match c
    case OK => "OK"
    case OutOfMemory => "OutOfMemory"
    case KeyError => "KeyError"
    case ObjectRefEndOfStream => "ObjectRefEndOfStream"
    case TypeError => "TypeError"
    case OutOfDisk => "OutOfDisk"
    case Invalid => "Invalid"
    case IOError => "IOError"
    case InvalidArgument => "InvalidArgument"
  }

  function CodeAsString(s: Status): string {
    CodeName(Code(s))
  }

  /** The code a variant name stands for: the reference inverse of `CodeName`. */
  function CodeFromName(name: string): Option<StatusCode> {
    if name == "OK" then Some(OK)
    else if name == "OutOfMemory" then Some(OutOfMemory)
    else if name == "KeyError" then Some(KeyError)
    else if name == "ObjectRefEndOfStream" then Some(ObjectRefEndOfStream)
    else if name == "TypeError" then Some(TypeError)
    else if name == "OutOfDisk" then Some(OutOfDisk)
    else if name == "Invalid" then Some(Invalid)
    else if name == "IOError" then Some(IOError)
    else if name == "InvalidArgument" then Some(InvalidArgument)
    else None
  }

  /** The `Display` format. */
  function Display(s: Status): string {
    if IsOk(s) then "OK" else CodeAsString(s) + ": " + Message(s)
  }

  /** The success status answers OK, -1 and the empty message, and no error predicate holds. */
  lemma OkAccessors()
    ensures IsOk(OkStatus())
    ensures Code(OkStatus()) == OK && RpcCode(OkStatus()) == -1 && Message(OkStatus()) == ""
    ensures !IsOutOfMemory(OkStatus()) && !IsKeyError(OkStatus())
    ensures !IsObjectRefEndOfStream(OkStatus()) && !IsTypeError(OkStatus())
  {
  }

  /** An error status gives back what it was built from, and is never ok, even with code OK. */
  lemma FromErrorAccessors(code: StatusCode, msg: string, rpcCode: i32)
    ensures Code(FromError(code, msg, rpcCode)) == code
    ensures Message(FromError(code, msg, rpcCode)) == msg
    ensures RpcCode(FromError(code, msg, rpcCode)) == rpcCode
    ensures !IsOk(FromError(code, msg, rpcCode))
  {
  }

  /** The named constructors set their code and RPC code -1. */
  lemma NamedConstructors(msg: string)
    ensures OutOfMemoryStatus(msg) == FromError(OutOfMemory, msg, -1) && IsOutOfMemory(OutOfMemoryStatus(msg))
    ensures KeyErrorStatus(msg) == FromError(KeyError, msg, -1) && IsKeyError(KeyErrorStatus(msg))
    ensures ObjectRefEndOfStreamStatus(msg) == FromError(ObjectRefEndOfStream, msg, -1)
    ensures IsObjectRefEndOfStream(ObjectRefEndOfStreamStatus(msg))
    ensures TypeErrorStatus(msg) == FromError(TypeError, msg, -1) && IsTypeError(TypeErrorStatus(msg))
    ensures RpcCode(OutOfMemoryStatus(msg)) == RpcCode(KeyErrorStatus(msg)) == -1
    ensures RpcCode(ObjectRefEndOfStreamStatus(msg)) == RpcCode(TypeErrorStatus(msg)) == -1
  {
  }

  /** Each predicate holds exactly for the statuses carrying its code. */
  lemma PredicatesFollowCode(s: Status)
    ensures IsOutOfMemory(s) <==> s.state.Some? && s.state.value.code == OutOfMemory
    ensures IsKeyError(s) <==> s.state.Some? && s.state.value.code == KeyError
    ensures IsObjectRefEndOfStream(s) <==> s.state.Some? && s.state.value.code == ObjectRefEndOfStream
    ensures IsTypeError(s) <==> s.state.Some? && s.state.value.code == TypeError
  {
  }

  /** Every code is named by its variant name, and reading the name back gives the code. */
  lemma CodeNameRoundTrip(c: StatusCode)
    ensures CodeFromName(CodeName(c)) == Some(c)
  {
  }

  /** No two codes share a name. */
  lemma CodeNameInjective(c: StatusCode, d: StatusCode)
    requires CodeName(c) == CodeName(d)
    ensures c == d
  {
    CodeNameRoundTrip(c);
    CodeNameRoundTrip(d);
  }

  /** The display is "OK" exactly for the success status; an error shows its code name and message. */
  lemma DisplayFormat(s: Status)
    ensures Display(s) == "OK" <==> IsOk(s)
    ensures !IsOk(s) ==> Display(s) == CodeName(s.state.value.code) + ": " + s.state.value.msg
  {
    if !IsOk(s) {
      var name := CodeAsString(s);
      assert |name| >= 2;
      assert |Display(s)| >= 4;
    }
  }
}
