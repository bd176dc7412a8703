/** Go's calls into Rust: the hand-over of a result (go/errors.go) and the call path with its
    deferred frees (go/callback.go). */
module GoCalls {
  import opened Wrappers
  import opened Machine
  import opened Errors
  import opened Names
  import opened Memory
  import opened Results
  import opened Registry
  import opened Invoke
  import opened GoBuffer

  /** What the caller of `CheckResult` gets; `GoPanic` is a copy with a negative length. */
  datatype Checked = Received(buffer: Owner) | Refused(code: FfiErrorCode, message: seq<byte>) | GoPanic

  function CheckResult(h: Heap, r: FfiResult): (Heap, Checked) {
    if r.code != FfiOk then
      var (h1, msg) := GoString(h, r.message);
      (match msg
       case Bytes(text) => (ResultFree(h1, r), Checked.Refused(r.code, text))
       case _ => (h1, GoPanic))
    else
      var (h1, copy) := CopyBuffer(h, r.payload);
      match copy
      case None => (h1, GoPanic)
      case Some(b) => (ResultFree(h1, r.(payload := NULL_BUFFER)), Received(b))
  }

  function InvokeCallback(h: Heap, t: Table, goName: seq<byte>, input: FfiBuffer, cb: Callback)
    : (Heap, Table, Checked)
  {
    var (h1, t1, r) := FfiInvoke(h, t, Some(CString(goName)), input, cb);
    var (h2, c) := CheckResult(h1, r);
    (h2, t1, c)
  }

  /** How `InvokeCallbackJSON` returns. */
  datatype JsonOutcome<T> =
    | MarshalError
    | CallError(code: FfiErrorCode, message: seq<byte>)
    | EmptyResponse
    | BadResponse
    | Response(value: T)
    | CallPanic

  /** The final state of a typed call, with the owners it created in order of creation. */
  datatype JsonCall<T> = JsonCall(heap: Heap, table: Table, created: seq<Owner>, outcome: JsonOutcome<T>)

  /** What the response buffer decodes to. */
  function DecodeResponse<T>(s: Slice, decode: seq<byte> -> Option<T>): JsonOutcome<T> {
    match s
    case Nil => EmptyResponse
    case OutOfRange => CallPanic
    case Bytes(bytes) => match decode(bytes) case None => BadResponse case Some(v) => Response(v)
  }

  /** From the invoke to the return: the deferred frees run on every path, last in first out. */
  function FinishJson<T>(h: Heap, t: Table, buf: Owner, c: Checked, decode: seq<byte> -> Option<T>): JsonCall<T> {
    match c
    case Refused(code, text) =>
      var (h1, freed) := FreeOwner(h, buf);
      JsonCall(h1, t, [freed], CallError(code, text))
    case GoPanic =>
      var (h1, freed) := FreeOwner(h, buf);
      JsonCall(h1, t, [freed], CallPanic)
    case Received(result) =>
      var (h1, s) := Contents(h, result);
      var (h2, freedResult) := FreeOwner(h1, result);
      var (h3, freed) := FreeOwner(h2, buf);
      JsonCall(h3, t, [freed, freedResult], DecodeResponse(s, decode))
  }

  /** `request` is the marshalled request, or nothing if marshalling failed. */
  function InvokeJson<T>(h: Heap, t: Table, goName: seq<byte>, request: Option<seq<byte>>,
                         decode: seq<byte> -> Option<T>, cb: Callback): JsonCall<T>
  {
    match request
    case None => JsonCall(h, t, [], MarshalError)
    case Some(json) =>
      var (h1, buf) := FromBytes(h, json);
      var (h2, t2, c) := InvokeCallback(h1, t, goName, buf.inner, cb);
      FinishJson(h2, t2, buf, c, decode)
  }

  // ---------- In place ----------

  method CheckResultInPlace(a: Allocator, result: FfiResult) returns (c: Checked, buf: Buffer?)
    modifies a
    ensures (a.State(), c) == CheckResult(old(a.State()), result)
    ensures buf != null <==> c.Received?
    ensures buf != null ==> fresh(buf) && buf.Value() == c.buffer
  {
    buf := null;
    if result.code != FfiOk {
      if result.message.data.Null? || result.message.len == 0 {
        FreeResult(a, result);
        return Checked.Refused(result.code, []), null;
      }
      if CInt(result.message.len) < 0 {
        return GoPanic, null;
      }
      var text := a.Load(result.message.data, CInt(result.message.len));
      FreeResult(a, result);
      return Checked.Refused(result.code, text), null;
    }
    buf := CopyOf(a, result.payload);
    if buf == null {
      return GoPanic, null;
    }
    var rest := result.(payload := NULL_BUFFER);
    FreeResult(a, rest);
    c := Received(buf.Value());
  }

  method InvokeCallbackInPlace(a: Allocator, reg: CallbackRegistry, goName: seq<byte>, input: Buffer?, cb: Callback)
    returns (c: Checked, buf: Buffer?)
    modifies a, reg
    ensures (a.State(), reg.State(), c)
         == InvokeCallback(old(a.State()), old(reg.State()), goName,
                           if input == null then NULL_BUFFER else input.inner, cb)
    ensures buf != null <==> c.Received?
    ensures buf != null ==> fresh(buf) && buf.Value() == c.buffer
  {
    var raw := NULL_BUFFER;
    if input != null {
      raw := input.inner;
    }
    var result := FfiInvokeCallback(a, reg, Some(CString(goName)), raw, cb);
    c, buf := CheckResultInPlace(a, result);
  }

  method InvokeCallbackJson<T>(a: Allocator, reg: CallbackRegistry, goName: seq<byte>, request: Option<seq<byte>>,
                               decode: seq<byte> -> Option<T>, cb: Callback)
    returns (outcome: JsonOutcome<T>, ghost created: seq<Owner>)
    modifies a, reg
    ensures JsonCall(a.State(), reg.State(), created, outcome)
         == InvokeJson(old(a.State()), old(reg.State()), goName, request, decode, cb)
  {
    created := [];
    if request.None? {
      return MarshalError, [];
    }
    var buf := Buffer.OfBytes(a, request.value);
    var c, result := InvokeCallbackInPlace(a, reg, goName, buf, cb);
    if result == null {
      buf.Free(a);   // deferred
      created := [buf.Value()];
      outcome := if c.GoPanic? then CallPanic else CallError(c.code, c.message);
      return;
    }
    var s := result.Bytes(a);
    outcome := DecodeResponse(s, decode);
    result.Free(a);  // deferred, last in first out
    buf.Free(a);
    created := [buf.Value(), result.Value()];
  }
}
