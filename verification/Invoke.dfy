/** `ffi_invoke_callback` (rust/src/callback.rs), where the registry and the heap meet. */
module Invoke {
  import opened Wrappers
  import opened Machine
  import opened Errors
  import opened Names
  import opened Memory
  import opened Results
  import opened Registry
  import opened Ownership

  /** How a registered closure ends: with a result struct, or by panicking. */
  datatype Ending = Gave(result: FfiResult) | Threw(payload: PanicPayload)

  /** What one run of a closure does to the heap, given its borrowed input. */
  type Callback = (Heap, FfiBuffer) -> (Heap, Ending)

  function CallbackError(name: Name, code: FfiErrorCode): FfiError {
    Other(Ascii("callback '") + name + Ascii("' returned error code ") + CodeName(code))
  }

  ghost predicate Mentions(text: seq<byte>, part: seq<byte>) {
    exists before: seq<byte>, after: seq<byte> :: text == before + part + after
  }

  lemma MentionsAndEnds(u: seq<byte>, a: seq<byte>, part: seq<byte>, b: seq<byte>, tail: seq<byte>)
    ensures var text := u + (a + part + b + tail); Mentions(text, part) && EndsWith(text, tail)
  {
    var text := u + (a + part + b + tail);
    assert text == (u + a) + part + (b + tail);
    assert text == (u + a + part + b) + tail;
    EndsWithTail(u + a + part + b, tail);
  }

  lemma ReportText(name: Name, tail: seq<byte>)
    ensures var a, b := Ascii("callback '"), Ascii("' returned error code ");
      var text := Message(Other(a + name + b + tail));
      Mentions(text, name) && EndsWith(text, tail)
  {
    var a, b := Ascii("callback '"), Ascii("' returned error code ");
    MentionsAndEnds(Ascii("unknown error: "), a, name, b, tail);
  }

  /** The report of a failing callback mentions the callback by name and ends with the name of its
      code, which it identifies. */
  lemma CallbackErrorText(name: Name, code: FfiErrorCode, other: FfiErrorCode)
    ensures var e := CallbackError(name, code);
      && Code(e) == Unknown && Mentions(Message(e), name) && EndsWith(Message(e), CodeName(code))
      && (Message(e) == Message(CallbackError(name, other)) <==> code == other)
  {
    ReportText(name, CodeName(code));
    OtherCode(name, code, other);
  }

  lemma OtherCode(name: Name, code: FfiErrorCode, other: FfiErrorCode)
    ensures Message(CallbackError(name, code)) == Message(CallbackError(name, other)) <==> code == other
  {
    var before := Ascii("callback '") + name + Ascii("' returned error code ");
    TextIdentifiesError(CallbackError(name, code), CallbackError(name, other));
    SameTail(before, CodeName(code), CodeName(other));
    CodeNamesDiffer(code, other);
  }

  lemma SameTail(a: seq<byte>, b: seq<byte>, c: seq<byte>)
    ensures a + b == a + c <==> b == c
  {
    assert (a + b)[|a|..] == b && (a + c)[|a|..] == c;
  }

  /** The heap, the table and the result. */
  function FfiInvoke(h: Heap, t: Table, raw: Option<seq<byte>>, input: FfiBuffer, cb: Callback)
    : (Heap, Table, FfiResult)
  {
    match CstrToString(raw)
    case Err(e) => var (h1, r) := ResultErr(h, e); (h1, t, r)
    case Ok(name) =>
      if t.poisoned then
        var (h1, r) := CatchPanic(h, Failed(Poisoned)); (h1, t, r)
      else if name !in t.entries then
        var (h1, r) := CatchPanic(h, Failed(Missing(name))); (h1, t, r)
      else
        var (h1, ending) := cb(h, input);
        match ending
        case Threw(p) =>
          var (h2, r) := CatchPanic(h1, Unwound(p)); (h2, t.(poisoned := true), r)
        case Gave(res) =>
          var (h2, r) := CatchPanic(h1, if res.code == FfiOk then Value(res.payload)
                                        else Failed(CallbackError(name, res.code)));
          (h2, t, r)
  }

  method FfiInvokeCallback(a: Allocator, reg: CallbackRegistry, raw: Option<seq<byte>>, input: FfiBuffer,
                           cb: Callback)
    returns (r: FfiResult)
    modifies a, reg
    ensures (a.State(), reg.State(), r) == FfiInvoke(old(a.State()), old(reg.State()), raw, input, cb)
  {
    var name := CstrToString(raw);
    if name.Err? {
      r := MakeErr(a, name.error);
      return;
    }
    if reg.poisoned {
      r := CatchUnwind(a, Failed(Poisoned));
      return;
    }
    if name.value !in reg.entries {
      r := CatchUnwind(a, Failed(Missing(name.value)));
      return;
    }
    var (after, ending) := cb(a.State(), input);
    a.blocks, a.frees, a.fault := after.blocks, after.frees, after.fault;
    match ending {
      case Threw(p) =>
        reg.poisoned := true;
        r := CatchUnwind(a, Unwound(p));
      case Gave(res) =>
        if res.code == FfiOk {
          r := CatchUnwind(a, Value(res.payload));
        } else {
          r := CatchUnwind(a, Failed(CallbackError(name.value, res.code)));
        }
    }
  }

  // ---------- The two halves of the answer ----------

  predicate RunsClosure(t: Table, raw: Option<seq<byte>>) {
    Runs(t, CInvoke(raw)).Some?
  }

  /** The heap after the closure, if one is run. */
  function AfterClosure(h: Heap, t: Table, raw: Option<seq<byte>>, input: FfiBuffer, cb: Callback): Heap {
    if RunsClosure(t, raw) then cb(h, input).0 else h
  }

  /** Why an invoke fails, or nothing if it succeeds. */
  function Failure(h: Heap, t: Table, raw: Option<seq<byte>>, input: FfiBuffer, cb: Callback): Option<FfiError> {
    match Target(CInvoke(raw))
    case Err(e) => Some(e)
    case Ok(name) =>
      if t.poisoned then Some(Poisoned)
      else if name !in t.entries then Some(Missing(name))
      else match cb(h, input).1
        case Threw(p) => Some(PanicCaught(PanicText(p)))
        case Gave(res) => if res.code == FfiOk then None else Some(CallbackError(name, res.code))
  }

  function ExitOf(e: Ending): Exit {
    match e
    case Threw(_) => Exit.Panicked
    case Gave(res) => Returned(res.code == FfiOk)
  }

  /** Whatever the closure does, the result is normalised: a success carries the closure's payload
      and no message, a failure carries no payload and a fresh message. */
  lemma ResultShape(h: Heap, t: Table, raw: Option<seq<byte>>, input: FfiBuffer, cb: Callback)
    ensures var (h2, _, r) := FfiInvoke(h, t, raw, input, cb);
      var h1 := AfterClosure(h, t, raw, input, cb);
      match Failure(h, t, raw, input, cb)
      case None => h2 == h1 && r.code == FfiOk && r.message == NULL_STRING
                   && RunsClosure(t, raw) && cb(h, input).1.Gave? && r.payload == cb(h, input).1.result.payload
      case Some(e) => (h2, r) == ResultErr(h1, e)
    ensures Failure(h, t, raw, input, cb).Some? ==> Code(Failure(h, t, raw, input, cb).value) != FfiOk
  {
  }

  /** The message of a failure: a block of its own, never empty, holding the error's text. */
  lemma FailureMessage(h: Heap, t: Table, raw: Option<seq<byte>>, input: FfiBuffer, cb: Callback)
    requires var h1 := AfterClosure(h, t, raw, input, cb); Sound(h1)
    requires var f := Failure(h, t, raw, input, cb); f.Some? && |Message(f.value)| <= ISIZE_MAX
    ensures var (h2, _, r) := FfiInvoke(h, t, raw, input, cb);
      var h1 := AfterClosure(h, t, raw, input, cb);
      var e := Failure(h, t, raw, input, cb).value;
      && r.code == Code(e) && r.code != FfiOk && r.payload == NULL_BUFFER
      && r.message.len > 0 && r.message.data == At(|h1.blocks|)
      && !IsLive(h1, r.message.data) && IsLive(h2, r.message.data)
      && Read(h2, r.message.data, r.message.len) == (h2, Message(e))
  {
    ResultShape(h, t, raw, input, cb);
    var h1, e := AfterClosure(h, t, raw, input, cb), Failure(h, t, raw, input, cb).value;
    ErrEffect(h1, e);
    assert Message(e)[..|Message(e)|] == Message(e);
  }

  /** The registry's part of an invoke: the same table and the same code as the lock protocol's. */
  lemma InvokeFollowsRegistry(h: Heap, t: Table, raw: Option<seq<byte>>, input: FfiBuffer, cb: Callback)
    ensures var (_, t2, r) := FfiInvoke(h, t, raw, input, cb);
      (t2, Coded(r.code)) == Apply(t, CInvoke(raw), ExitOf(cb(h, input).1))
  {
  }

  // ---------- Closures made with BridgeCall ----------

  function BridgeClosure(handler: Handler): Callback {
    (h: Heap, input: FfiBuffer) =>
      var (h1, r) := BridgeRun(h, input, handler);
      (h1, Gave(r))
  }

  /** A handler wrapped in `BridgeCall` may panic without poisoning the registry: its panic has
      already become a result, and the caller sees an unknown error instead. */
  lemma BridgeNeverPoisons(h: Heap, t: Table, raw: Option<seq<byte>>, input: FfiBuffer, handler: Handler)
    ensures var (_, t2, r) := FfiInvoke(h, t, raw, input, BridgeClosure(handler));
      t2 == t && (RunsClosure(t, raw) && !handler(h, input).1.Value? ==> r.code == Unknown)
  {
    InvokeFollowsRegistry(h, t, raw, input, BridgeClosure(handler));
    if RunsClosure(t, raw) {
      var (h1, o) := handler(h, input);
      assert BridgeClosure(handler)(h, input) == (CatchPanic(h1, o).0, Gave(CatchPanic(h1, o).1));
    }
  }
}
