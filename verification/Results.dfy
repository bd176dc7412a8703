/** The result struct and the panic boundary (rust/src/errors.rs), and the call pipeline built on
    them (rust/src/bridge.rs). */
module Results {
  import opened Wrappers
  import opened Machine
  import opened Errors
  import opened Memory

  datatype FfiResult = FfiResult(code: FfiErrorCode, message: FfiString, payload: FfiBuffer)

  function ResultOk(payload: FfiBuffer): FfiResult {
    FfiResult(FfiOk, NULL_STRING, payload)
  }

  function ResultErr(h: Heap, e: FfiError): (Heap, FfiResult) {
    var (h1, msg) := StringNew(h, Message(e));
    (h1, FfiResult(Code(e), msg, NULL_BUFFER))
  }

  function ResultFree(h: Heap, r: FfiResult): Heap {
    BufferFree(StringFree(h, r.message), r.payload)
  }

  /** What a Rust panic carries. */
  datatype PanicPayload = Text(text: seq<byte>) | Opaque

  function PanicText(p: PanicPayload): seq<byte> {
    match p
    case Text(t) => t
    case Opaque => Ascii("unknown panic payload")
  }

  /** How a closure that returns `Result<FfiBuffer, FfiError>` ends. */
  datatype Outcome = Value(buffer: FfiBuffer) | Failed(error: FfiError) | Unwound(payload: PanicPayload)

  function CatchPanic(h: Heap, o: Outcome): (Heap, FfiResult) {
    match o
    case Value(b) => (h, ResultOk(b))
    case Failed(e) => ResultErr(h, e)
    case Unwound(p) => ResultErr(h, PanicCaught(PanicText(p)))
  }

  // ---------- BridgeCall ----------

  type Handler = (Heap, FfiBuffer) -> (Heap, Outcome)

  function BridgeRun(h: Heap, input: FfiBuffer, handler: Handler): (Heap, FfiResult) {
    var (h1, o) := handler(h, input);
    CatchPanic(h1, o)
  }

  /** The closure of `ffi_echo`: copy the bytes into a vector and hand the vector over. */
  function EchoHandler(slack: nat): Handler {
    (h: Heap, input: FfiBuffer) =>
      var (h1, bytes) := AsSlice(h, input);
      var (h2, b) := FromVec(h1, bytes, slack);
      (h2, Value(b))
  }

  function Echo(h: Heap, input: FfiBuffer, slack: nat): (Heap, FfiResult) {
    BridgeRun(h, input, EchoHandler(slack))
  }

  /** How a typed handler ends. */
  datatype Reply<O> = Answer(value: O) | Refused(error: FfiError) | Crashed(payload: PanicPayload)

  /** The closure of `run_json`: decode, handle, encode. */
  function JsonHandler<I, O>(decode: seq<byte> -> Result<I, seq<byte>>, handle: I -> Reply<O>,
                             encode: O -> Result<seq<byte>, seq<byte>>, slack: nat): Handler
  {
    (h: Heap, input: FfiBuffer) =>
      var (h1, bytes) := AsSlice(h, input);
      match decode(bytes)
      case Err(d) => (h1, Failed(BadData(d)))
      case Ok(value) =>
        match handle(value)
        case Refused(e) => (h1, Failed(e))
        case Crashed(p) => (h1, Unwound(p))
        case Answer(out) =>
          match encode(out)
          case Err(d) => (h1, Failed(BadData(d)))
          case Ok(json) => var (h2, b) := FromVec(h1, json, slack); (h2, Value(b))
  }

  // ---------- In place ----------

  method MakeErr(a: Allocator, e: FfiError) returns (r: FfiResult)
    modifies a
    ensures (a.State(), r) == ResultErr(old(a.State()), e)
  {
    var msg := a.NewString(Message(e));
    r := FfiResult(Code(e), msg, NULL_BUFFER);
  }

  method FreeResult(a: Allocator, r: FfiResult)
    modifies a
    ensures a.State() == ResultFree(old(a.State()), r)
  {
    a.FreeString(r.message);
    a.FreeBuffer(r.payload);
  }

  method CatchUnwind(a: Allocator, o: Outcome) returns (r: FfiResult)
    modifies a
    ensures (a.State(), r) == CatchPanic(old(a.State()), o)
  {
    match o
    case Value(b) => r := ResultOk(b);
    case Failed(e) => r := MakeErr(a, e);
    case Unwound(p) => r := MakeErr(a, PanicCaught(PanicText(p)));
  }
}
