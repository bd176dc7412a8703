/** `InvokeCallbackJSON` (go/callback.go) end to end: what it returns, and what it frees. The JSON
    codecs are parameters; only what they do to the values of one call is assumed. */
module TypedCalls {
  import opened Wrappers
  import opened Machine
  import opened Errors
  import opened Names
  import opened Memory
  import opened Results
  import opened Registry
  import opened Ownership
  import opened Invoke
  import opened GoBuffer
  import opened GoCalls
  import opened GoRuns
  import opened HandOver

  // ---------- What it frees ----------

  /** The state of a Go client that has made the request buffer and invoked the callback with it. */
  function Invoked(s: GoState, json: seq<byte>, goName: seq<byte>, cb: Callback): GoState {
    Step(Step(s, Make(json)), GoOp.Invoke(goName, Some(|s.owners|), cb))
  }

  /** The deferred frees of the last one or two owners, from owner `n` on. */
  function FreeLast(s: GoState, n: nat): GoState {
    Step(if |s.owners| > n + 1 then Step(s, CallFree(n + 1)) else s, CallFree(n))
  }

  /** The same call as steps of a Go client: make, invoke, then the deferred frees. */
  function JsonRun(s: GoState, json: seq<byte>, goName: seq<byte>, cb: Callback): GoState {
    FreeLast(Invoked(s, json, goName, cb), |s.owners|)
  }

  lemma FreeLastEffect(s: GoState, n: nat)
    requires Safe(s) && n < |s.owners| <= n + 2
    ensures var s' := FreeLast(s, n);
      && Safe(s') && s'.orphans == s.orphans && |s'.owners| == |s.owners|
      && s'.owners[..n] == s.owners[..n] && (forall i :: n <= i < |s'.owners| ==> s'.owners[i].freed)
      && (Accounted(s) ==> Accounted(s'))
  {
    if |s.owners| > n + 1 {
      FreeStep(s, n + 1);
      FreeStep(Step(s, CallFree(n + 1)), n);
    } else {
      FreeStep(s, n);
    }
  }

  lemma FinishIsFreeLast<T>(s: GoState, before: seq<Owner>, buf: Owner, c: Checked, decode: seq<byte> -> Option<T>)
    requires Safe(s) && s.owners == before + [buf] + (if c.Received? then [c.buffer] else [])
    ensures var j := FinishJson(s.heap, s.table, buf, c, decode);
      var s' := FreeLast(s, |before|);
      j.heap == s'.heap && j.table == s'.table && s'.owners == before + j.created
  {
    var n := |before|;
    if c.Received? {
      ReadStep(s, n + 1);
      assert Contents(s.heap, c.buffer).0 == s.heap;
    }
  }

  /** The request fits in memory, and the callback keeps its contract with the request made. */
  ghost predicate CallAllowed(s: GoState, json: seq<byte>, goName: seq<byte>, cb: Callback) {
    |json| <= ISIZE_MAX && Legal(Step(s, Make(json)), GoOp.Invoke(goName, Some(|s.owners|), cb))
  }

  ghost predicate CallTidy(s: GoState, json: seq<byte>, goName: seq<byte>, cb: Callback) {
    TidyOp(Step(s, Make(json)), GoOp.Invoke(goName, Some(|s.owners|), cb))
  }

  lemma InvokedState(s: GoState, json: seq<byte>, goName: seq<byte>, cb: Callback)
    requires Safe(s) && CallAllowed(s, json, goName, cb)
    ensures var (h1, buf) := FromBytes(s.heap, json);
      var (h2, t2, c) := InvokeCallback(h1, s.table, goName, buf.inner, cb);
      var s2 := Invoked(s, json, goName, cb);
      && Safe(s2) && (Accounted(s) && CallTidy(s, json, goName, cb) ==> Accounted(s2))
      && s2 == GoState(h2, t2, s.owners + [buf] + (if c.Received? then [c.buffer] else []),
                       s.orphans + Lost(h1, s.table, Some(CString(goName)), buf.inner, cb))
  {
    var s1 := Step(s, Make(json));
    StepIsSafe(s, Make(json));
    StepIsSafe(s1, GoOp.Invoke(goName, Some(|s.owners|), cb));
    var (h1, buf) := FromBytes(s.heap, json);
    assert s1.owners == s.owners + [buf] && s1.owners[|s.owners|] == buf;
    assert s1.owners == s1.owners + [];
  }

  lemma JsonIsRun<T>(s: GoState, json: seq<byte>, goName: seq<byte>, decode: seq<byte> -> Option<T>, cb: Callback)
    requires Safe(s) && CallAllowed(s, json, goName, cb)
    ensures var j := InvokeJson(s.heap, s.table, goName, Some(json), decode, cb);
      var s' := JsonRun(s, json, goName, cb);
      j.heap == s'.heap && j.table == s'.table && s'.owners == s.owners + j.created
  {
    InvokedState(s, json, goName, cb);
    var (h1, buf) := FromBytes(s.heap, json);
    var (h2, t2, c) := InvokeCallback(h1, s.table, goName, buf.inner, cb);
    FinishIsFreeLast(Invoked(s, json, goName, cb), s.owners, buf, c, decode);
  }

  /** On every return path each owner the call created is freed: none if marshalling failed, one if
      the invoke failed, two otherwise. The callback may do anything its contract allows. */
  lemma JsonFreesItsOwners<T>(s: GoState, request: Option<seq<byte>>, goName: seq<byte>,
                              decode: seq<byte> -> Option<T>, cb: Callback)
    requires Safe(s) && (request.Some? ==> CallAllowed(s, request.value, goName, cb))
    ensures var j := InvokeJson(s.heap, s.table, goName, request, decode, cb);
      && !j.heap.fault
      && (forall i :: 0 <= i < |j.created| ==> j.created[i].freed)
      && |j.created| == (match j.outcome case MarshalError => 0 case CallError(_, _) => 1
                         case CallPanic => 1 case _ => 2)
  {
    if request.Some? {
      var j := InvokeJson(s.heap, s.table, goName, request, decode, cb);
      JsonCreates(s, request.value, goName, decode, cb);
      JsonIsRun(s, request.value, goName, decode, cb);
      RunOfJson(s, request.value, goName, cb);
      CreatedFreed(s.owners, JsonRun(s, request.value, goName, cb).owners, j.created);
    }
  }

  /** If the callback is tidy, all that a typed call leaves behind is what the result lost. */
  lemma JsonLeavesOnlyLost<T>(s: GoState, json: seq<byte>, goName: seq<byte>, decode: seq<byte> -> Option<T>,
                              cb: Callback)
    requires Safe(s) && CallAllowed(s, json, goName, cb) && CallTidy(s, json, goName, cb)
    ensures var (h1, buf) := FromBytes(s.heap, json);
      Live(InvokeJson(s.heap, s.table, goName, Some(json), decode, cb).heap)
        == Live(s.heap) + Lost(h1, s.table, Some(CString(goName)), buf.inner, cb)
  {
    var s0 := s.(orphans := Live(s.heap) - Union(Slots(s.owners)));
    BalancedByOrphans(s);
    assert Step(s0, Make(json)) == Step(s, Make(json)).(orphans := s0.orphans);
    JsonIsRun(s0, json, goName, decode, cb);
    LiveOfRun(s0, json, goName, cb);
  }

  /** Any safe state is balanced if every block that no owner has is called an orphan. */
  lemma BalancedByOrphans(s: GoState)
    requires Safe(s)
    ensures var s0 := s.(orphans := Live(s.heap) - Union(Slots(s.owners))); Safe(s0) && Accounted(s0)
  {
    forall id | id in Union(Slots(s.owners))
      ensures id in Live(s.heap)
    {
      var i :| 0 <= i < |s.owners| && id in Slots(s.owners)[i];
      SlotIsOld(s, i);
    }
  }

  lemma CreatedFreed(owners: seq<Owner>, more: seq<Owner>, created: seq<Owner>)
    requires more == owners + created && forall i :: |owners| <= i < |more| ==> more[i].freed
    ensures forall i :: 0 <= i < |created| ==> created[i].freed
  {
    assert forall i :: 0 <= i < |created| ==> created[i] == more[|owners| + i];
  }

  lemma RunOfJson(s: GoState, json: seq<byte>, goName: seq<byte>, cb: Callback)
    requires Safe(s) && CallAllowed(s, json, goName, cb)
    ensures var s' := JsonRun(s, json, goName, cb);
      && Safe(s') && |s.owners| < |s'.owners| <= |s.owners| + 2
      && s.owners <= s'.owners && (forall i :: |s.owners| <= i < |s'.owners| ==> s'.owners[i].freed)
      && s'.orphans == Invoked(s, json, goName, cb).orphans
      && (Accounted(s) && CallTidy(s, json, goName, cb) ==> Accounted(s'))
  {
    InvokedState(s, json, goName, cb);
    var s2 := Invoked(s, json, goName, cb);
    FreeLastEffect(s2, |s.owners|);
    assert FreeLast(s2, |s.owners|).owners[..|s.owners|] == s.owners;
  }

  lemma LiveOfRun(s: GoState, json: seq<byte>, goName: seq<byte>, cb: Callback)
    requires Safe(s) && Accounted(s) && CallAllowed(s, json, goName, cb) && CallTidy(s, json, goName, cb)
    ensures var (h1, buf) := FromBytes(s.heap, json);
      Live(JsonRun(s, json, goName, cb).heap)
        == Live(s.heap) + Lost(h1, s.table, Some(CString(goName)), buf.inner, cb)
  {
    RunOfJson(s, json, goName, cb);
    InvokedState(s, json, goName, cb);
    OnlyFreedAdded(s.owners, JsonRun(s, json, goName, cb).owners);
  }

  lemma OnlyFreedAdded(owners: seq<Owner>, more: seq<Owner>)
    requires owners <= more && forall i :: |owners| <= i < |more| ==> more[i].freed
    ensures Union(Slots(more)) == Union(Slots(owners))
  {
    var a, b := Slots(owners), Slots(more);
    assert forall i :: 0 <= i < |a| ==> a[i] == b[i];
    assert forall i :: |a| <= i < |b| ==> b[i] == {};
  }

  lemma FinishCreates<T>(h: Heap, t: Table, buf: Owner, c: Checked, decode: seq<byte> -> Option<T>)
    requires c.Received? ==> !Contents(h, c.buffer).1.OutOfRange?
    ensures var j := FinishJson(h, t, buf, c, decode);
      && !j.outcome.MarshalError?
      && |j.created| == if j.outcome.CallError? || j.outcome.CallPanic? then 1 else 2
  {
  }

  /** The response buffer is short enough to read, so a panic can only come from the hand-over. */
  lemma JsonCreates<T>(s: GoState, json: seq<byte>, goName: seq<byte>, decode: seq<byte> -> Option<T>, cb: Callback)
    requires Safe(s) && CallAllowed(s, json, goName, cb)
    ensures var j := InvokeJson(s.heap, s.table, goName, Some(json), decode, cb);
      && !j.outcome.MarshalError?
      && |j.created| == if j.outcome.CallError? || j.outcome.CallPanic? then 1 else 2
  {
    var (h1, buf) := FromBytes(s.heap, json);
    var s1 := Step(s, Make(json));
    StepIsSafe(s, Make(json));
    assert InputOf(s1, Some(|s.owners|)) == buf.inner;
    ReceivedIsShort(h1, s.table, Untouchable(s1), goName, buf.inner, cb);
    var (h2, t2, c) := InvokeCallback(h1, s.table, goName, buf.inner, cb);
    FinishCreates(h2, t2, buf, c, decode);
  }

  lemma ReceivedIsShort(h: Heap, t: Table, keep: set<nat>, goName: seq<byte>, input: FfiBuffer, cb: Callback)
    requires Sound(h) && CallOK(h, t, keep, Some(CString(goName)), input, cb)
    ensures var (h2, _, c) := InvokeCallback(h, t, goName, input, cb);
      c.Received? ==> c.buffer.inner.len < INT_LIMIT && !Contents(h2, c.buffer).1.OutOfRange?
  {
    var raw := Some(CString(goName));
    ResultShape(h, t, raw, input, cb);
    if Failure(h, t, raw, input, cb).None? {
      var h1, payload := AfterClosure(h, t, raw, input, cb), cb(h, input).1.result.payload;
      CheckOkEffect(h1, payload);
      var n := CInt(payload.len);
      if payload.len > 0 && n >= 0 {
        FromBytesEffect(h1, h1.blocks[payload.data.id].bytes[..n]);
        CIntExact(n);
      }
    } else {
      CheckErrEffect(AfterClosure(h, t, raw, input, cb), Failure(h, t, raw, input, cb).value);
    }
  }

  // ---------- What it returns ----------

  /** The typed call makes of its response what `ToJSON` makes of it. */
  lemma ResponseIsToJson<T>(h: Heap, b: Owner, decode: seq<byte> -> Option<T>)
    ensures DecodeResponse(Contents(h, b).1, decode) ==
      (match ToJson(h, b, decode).1
       case EmptyOrFreed => EmptyResponse
       case Malformed => BadResponse
       case Decoded(v) => Response(v)
       case ReadPanic => CallPanic)
  {
  }

  /** A typed callback: decode, handle, encode, under `BridgeCall`. */
  function TypedClosure<I, O>(decode: seq<byte> -> Result<I, seq<byte>>, handle: I -> Reply<O>,
                              encode: O -> Result<seq<byte>, seq<byte>>, slack: nat): Callback
  {
    BridgeClosure(JsonHandler(decode, handle, encode, slack))
  }

  /** What such a callback makes of the bytes of a request: the bytes of an answer, or an error. */
  function TypedReply<I, O>(request: seq<byte>, decode: seq<byte> -> Result<I, seq<byte>>, handle: I -> Reply<O>,
                            encode: O -> Result<seq<byte>, seq<byte>>): Result<seq<byte>, FfiError>
  {
    match decode(request)
    case Err(d) => Err(BadData(d))
    case Ok(value) =>
      match handle(value)
      case Refused(e) => Err(e)
      case Crashed(p) => Err(PanicCaught(PanicText(p)))
      case Answer(out) => match encode(out) case Err(d) => Err(BadData(d)) case Ok(bytes) => Ok(bytes)
  }

  /** The result struct of a reply. */
  function ReplyResult(h: Heap, reply: Result<seq<byte>, FfiError>, slack: nat): (Heap, FfiResult) {
    match reply
    case Ok(out) => var (h1, v) := FromVec(h, out, slack); (h1, ResultOk(v))
    case Err(e) => ResultErr(h, e)
  }

  /** The answer, or the error's text, is of a size that can be allocated. */
  predicate ReplyFits(reply: Result<seq<byte>, FfiError>, slack: nat) {
    match reply
    case Ok(out) => |out| + slack <= ISIZE_MAX
    case Err(e) => |Message(e)| <= ISIZE_MAX
  }

  /** The one block a reply allocates, if any. */
  function ReplyBlock(h: Heap, reply: Result<seq<byte>, FfiError>, slack: nat): set<nat> {
    if reply == Ok([]) && slack == 0 then {} else {|h.blocks|}
  }

  lemma TypedClosureReplies<I, O>(h: Heap, input: FfiBuffer, decode: seq<byte> -> Result<I, seq<byte>>,
                                  handle: I -> Reply<O>, encode: O -> Result<seq<byte>, seq<byte>>, slack: nat)
    requires AsSlice(h, input).0 == h
    ensures var (h1, r) := ReplyResult(h, TypedReply(AsSlice(h, input).1, decode, handle, encode), slack);
      TypedClosure(decode, handle, encode, slack)(h, input) == (h1, Gave(r))
  {
  }

  lemma AnswerObeys(h: Heap, borrowed: set<nat>, input: FfiBuffer, out: seq<byte>, slack: nat, cb: Callback)
    requires Sound(h) && |out| + slack <= ISIZE_MAX
    requires cb(h, input) == (FromVec(h, out, slack).0, Gave(ResultOk(FromVec(h, out, slack).1)))
    ensures Obeys(h, borrowed, cb, input) && Tidy(h, cb, input)
    ensures Fresh(h, Fields(cb(h, input).1)) == if |out| + slack == 0 then {} else {|h.blocks|}
  {
    VecIsOK(h, borrowed, out, slack);
    FromVecEffect(h, out, slack);
  }

  lemma RefusalObeys(h: Heap, borrowed: set<nat>, input: FfiBuffer, e: FfiError, cb: Callback)
    requires Sound(h) && |Message(e)| <= ISIZE_MAX
    requires cb(h, input) == (ResultErr(h, e).0, Gave(ResultErr(h, e).1))
    ensures Obeys(h, borrowed, cb, input) && Tidy(h, cb, input)
    ensures Fresh(h, Fields(cb(h, input).1)) == {|h.blocks|}
  {
    ErrEffect(h, e);
    NewVecIsOK(h, borrowed, |Message(e)|, Message(e));
  }

  lemma ReplyObeys(h: Heap, borrowed: set<nat>, input: FfiBuffer, reply: Result<seq<byte>, FfiError>, slack: nat,
                   cb: Callback)
    requires Sound(h) && ReplyFits(reply, slack)
    requires cb(h, input) == (ReplyResult(h, reply, slack).0, Gave(ReplyResult(h, reply, slack).1))
    ensures Obeys(h, borrowed, cb, input) && Tidy(h, cb, input)
    ensures Fresh(h, Fields(cb(h, input).1)) == ReplyBlock(h, reply, slack)
  {
    match reply {
      case Ok(out) => AnswerObeys(h, borrowed, input, out, slack, cb);
      case Err(e) => RefusalObeys(h, borrowed, input, e, cb);
    }
  }

  /** A typed callback keeps the contract of callbacks and is tidy, whatever its handler does. */
  lemma TypedObeys<I, O>(h: Heap, borrowed: set<nat>, input: FfiBuffer, decode: seq<byte> -> Result<I, seq<byte>>,
                         handle: I -> Reply<O>, encode: O -> Result<seq<byte>, seq<byte>>, slack: nat)
    requires Sound(h) && BufferOK(h, input)
    requires ReplyFits(TypedReply(AsSlice(h, input).1, decode, handle, encode), slack)
    ensures var cb := TypedClosure(decode, handle, encode, slack);
      var reply := TypedReply(AsSlice(h, input).1, decode, handle, encode);
      && Obeys(h, borrowed, cb, input) && Tidy(h, cb, input)
      && Fresh(h, Fields(cb(h, input).1)) == ReplyBlock(h, reply, slack)
  {
    var reply := TypedReply(AsSlice(h, input).1, decode, handle, encode);
    TypedClosureReplies(h, input, decode, handle, encode, slack);
    ReplyObeys(h, borrowed, input, reply, slack, TypedClosure(decode, handle, encode, slack));
  }

  /** The text that reports a refused call to Go. */
  function Report(name: Name, e: FfiError): seq<byte> {
    Message(CallbackError(name, Code(e)))
  }

  /** What Go gets of a failure: its code and text, or a run-time panic if the text cannot be read. */
  function Reported<T>(code: FfiErrorCode, text: seq<byte>): JsonOutcome<T> {
    if CInt(|text|) < 0 then CallPanic else CallError(code, text[..CInt(|text|)])
  }

  /** What Go gets of an answer: the decoded value of the part it can read. */
  function Answered<T>(out: seq<byte>, decode: seq<byte> -> Option<T>): JsonOutcome<T> {
    var n := CInt(|out|);
    if n < 0 then CallPanic
    else if n == 0 then EmptyResponse
    else if decode(out[..n]).None? then BadResponse
    else Response(decode(out[..n]).value)
  }

  /** What Go gets for a reply: the decoded answer, or code 99 with a text that names the callback
      and the code it returned. */
  function ExpectedOutcome<T>(name: Name, reply: Result<seq<byte>, FfiError>, decode: seq<byte> -> Option<T>)
    : JsonOutcome<T>
  {
    match reply
    case Ok(out) => Answered(out, decode)
    case Err(e) => Reported(Unknown, Report(name, e))
  }

  /** The report, if one is made, is of a size that can be allocated. */
  predicate ReportFits(name: Name, reply: Result<seq<byte>, FfiError>) {
    reply.Err? ==> |Report(name, reply.error)| <= ISIZE_MAX
  }

  /** The blocks a typed call leaves behind: the reply's, and a report that is too long to read. */
  function LeftBehind(h: Heap, name: Name, reply: Result<seq<byte>, FfiError>, slack: nat): set<nat> {
    ReplyBlock(h, reply, slack)
    + if reply.Err? && CInt(|Report(name, reply.error)|) < 0 then {|h.blocks| + 1} else {}
  }

  lemma AnswerDelivered<T>(h: Heap, t: Table, goName: seq<byte>, input: FfiBuffer, buf: Owner, cb: Callback,
                           out: seq<byte>, slack: nat, decode: seq<byte> -> Option<T>)
    requires Sound(h) && HasCallback(t, goName) && |out| + slack <= ISIZE_MAX
    requires cb(h, input) == (ReplyResult(h, Ok(out), slack).0, Gave(ReplyResult(h, Ok(out), slack).1))
    ensures var (h2, t2, c) := InvokeCallback(h, t, goName, input, cb);
      && t2 == t && FinishJson(h2, t2, buf, c, decode).outcome == ExpectedOutcome(GoName(goName).value, Ok(out), decode)
  {
    var raw := Some(CString(goName));
    var (h2, v) := FromVec(h, out, slack);
    VecIsOK(h, {}, out, slack);
    FromVecEffect(h, out, slack);
    ResultShape(h, t, raw, input, cb);
    InvokeFollowsRegistry(h, t, raw, input, cb);
    ReceivedCopy(h2, v, out);
  }

  lemma FailureDelivered<T>(h: Heap, t: Table, goName: seq<byte>, input: FfiBuffer, buf: Owner, cb: Callback,
                            e: FfiError, decode: seq<byte> -> Option<T>)
    requires Failure(h, t, Some(CString(goName)), input, cb) == Some(e) && |Message(e)| <= ISIZE_MAX
    requires Sound(AfterClosure(h, t, Some(CString(goName)), input, cb))
    ensures var (h2, t2, c) := InvokeCallback(h, t, goName, input, cb);
      FinishJson(h2, t2, buf, c, decode).outcome == Reported(Code(e), Message(e))
  {
    ResultShape(h, t, Some(CString(goName)), input, cb);
    CheckErrEffect(AfterClosure(h, t, Some(CString(goName)), input, cb), e);
  }

  lemma RefusalIsFailure(h: Heap, t: Table, goName: seq<byte>, input: FfiBuffer, cb: Callback, e: FfiError)
    requires Sound(h) && HasCallback(t, goName) && |Message(e)| <= ISIZE_MAX
    requires cb(h, input) == (ResultErr(h, e).0, Gave(ResultErr(h, e).1))
    ensures Failure(h, t, Some(CString(goName)), input, cb) == Some(CallbackError(GoName(goName).value, Code(e)))
    ensures InvokeCallback(h, t, goName, input, cb).1 == t
    ensures Sound(AfterClosure(h, t, Some(CString(goName)), input, cb))
  {
    ErrorsAreNotOk(e);
    NameIsPrefix(goName);
    RefusalObeys(h, {}, input, e, cb);
    ClosureFailure(h, t, goName, input, cb);
  }

  lemma ErrorDelivered<T>(h: Heap, t: Table, goName: seq<byte>, input: FfiBuffer, buf: Owner, cb: Callback,
                          e: FfiError, decode: seq<byte> -> Option<T>)
    requires Sound(h) && HasCallback(t, goName) && |Message(e)| <= ISIZE_MAX
    requires cb(h, input) == (ResultErr(h, e).0, Gave(ResultErr(h, e).1))
    requires |Report(GoName(goName).value, e)| <= ISIZE_MAX
    ensures var (h2, t2, c) := InvokeCallback(h, t, goName, input, cb);
      && t2 == t && FinishJson(h2, t2, buf, c, decode).outcome == Reported(Unknown, Report(GoName(goName).value, e))
  {
    RefusalIsFailure(h, t, goName, input, cb, e);
    FailureDelivered(h, t, goName, input, buf, cb, CallbackError(GoName(goName).value, Code(e)), decode);
  }

  /** A typed call from end to end, on any heap and for replies of any length: it returns the decoded
      answer of the handler or the error it made, frees the owners it created, and leaves behind
      exactly one block - the callback's own payload or message - unless the answer had no block or
      the report was too long to read. */
  lemma TypedCall<I, O>(h: Heap, t: Table, goName: seq<byte>, json: seq<byte>,
                        decodeRequest: seq<byte> -> Result<I, seq<byte>>, handle: I -> Reply<O>,
                        encodeResponse: O -> Result<seq<byte>, seq<byte>>,
                        decodeResponse: seq<byte> -> Option<O>, slack: nat)
    requires Sound(h) && HasCallback(t, goName) && |json| <= ISIZE_MAX
    requires var reply := TypedReply(json, decodeRequest, handle, encodeResponse);
      ReplyFits(reply, slack) && ReportFits(GoName(goName).value, reply)
    ensures var reply := TypedReply(json, decodeRequest, handle, encodeResponse);
      var cb := TypedClosure(decodeRequest, handle, encodeResponse, slack);
      var j := InvokeJson(h, t, goName, Some(json), decodeResponse, cb);
      && j.outcome == ExpectedOutcome(GoName(goName).value, reply, decodeResponse) && j.table == t
      && !j.heap.fault
      && |j.created| == (if reply.Err? || j.outcome.CallPanic? then 1 else 2)
      && (forall i :: 0 <= i < |j.created| ==> j.created[i].freed)
      && Live(j.heap) == Live(h) + LeftBehind(FromBytes(h, json).0, GoName(goName).value, reply, slack)
  {
    var reply := TypedReply(json, decodeRequest, handle, encodeResponse);
    var cb := TypedClosure(decodeRequest, handle, encodeResponse, slack);
    var (h1, buf) := FromBytes(h, json);
    MadeBuffer(h, json);
    TypedClosureReplies(h1, buf.inner, decodeRequest, handle, encodeResponse, slack);
    if reply.Ok? {
      AnswerDelivered(h1, t, goName, buf.inner, buf, cb, reply.value, slack, decodeResponse);
    } else {
      ErrorDelivered(h1, t, goName, buf.inner, buf, cb, reply.error, decodeResponse);
    }
    ReplyCallIsClean(h, t, goName, json, reply, slack, cb, decodeResponse);
  }

  /** In particular, if both codecs round-trip the values of the call, the response is the answer. */
  lemma TypedCallAnswers<I, O>(h: Heap, t: Table, goName: seq<byte>, json: seq<byte>,
                               decodeRequest: seq<byte> -> Result<I, seq<byte>>, handle: I -> Reply<O>,
                               encodeResponse: O -> Result<seq<byte>, seq<byte>>,
                               decodeResponse: seq<byte> -> Option<O>, slack: nat)
    requires Sound(h) && HasCallback(t, goName) && |json| <= ISIZE_MAX
    requires decodeRequest(json).Ok? && handle(decodeRequest(json).value).Answer?
    requires var answer := handle(decodeRequest(json).value).value;
      && encodeResponse(answer).Ok? && decodeResponse(encodeResponse(answer).value) == Some(answer)
      && 0 < |encodeResponse(answer).value| < INT_LIMIT
      && |encodeResponse(answer).value| + slack <= ISIZE_MAX
    ensures InvokeJson(h, t, goName, Some(json), decodeResponse,
                       TypedClosure(decodeRequest, handle, encodeResponse, slack)).outcome
         == Response(handle(decodeRequest(json).value).value)
  {
    TypedCall(h, t, goName, json, decodeRequest, handle, encodeResponse, decodeResponse, slack);
    var out := encodeResponse(handle(decodeRequest(json).value).value).value;
    CIntExact(|out|);
    assert out[..|out|] == out;
  }

  lemma ReplyCallAllowed(h: Heap, t: Table, goName: seq<byte>, json: seq<byte>, reply: Result<seq<byte>, FfiError>,
                         slack: nat, cb: Callback)
    requires Sound(h) && HasCallback(t, goName) && |json| <= ISIZE_MAX
    requires ReplyFits(reply, slack) && ReportFits(GoName(goName).value, reply)
    requires var (h1, buf) := FromBytes(h, json);
      cb(h1, buf.inner) == (ReplyResult(h1, reply, slack).0, Gave(ReplyResult(h1, reply, slack).1))
    ensures var s := GoState(h, t, [], {});
      var (h1, buf) := FromBytes(h, json);
      && Safe(s) && CallAllowed(s, json, goName, cb) && CallTidy(s, json, goName, cb)
      && Lost(h1, t, Some(CString(goName)), buf.inner, cb) == LeftBehind(h1, GoName(goName).value, reply, slack)
  {
    var s := GoState(h, t, [], {});
    var (h1, buf) := FromBytes(h, json);
    MadeBuffer(h, json);
    ReplyCallOK(h1, t, Untouchable(Step(s, Make(json))), goName, buf.inner, reply, slack, cb);
    ReplyLost(h1, t, goName, buf.inner, reply, slack, cb);
    SafeStart(h, t);
    AllowedIfOK(s, json, goName, cb);
  }

  /** The contract of a call, seen from the heap with the request made. */
  lemma AllowedIfOK(s: GoState, json: seq<byte>, goName: seq<byte>, cb: Callback)
    requires |json| <= ISIZE_MAX
    requires var (h1, buf) := FromBytes(s.heap, json);
      CallOK(h1, s.table, Untouchable(Step(s, Make(json))), Some(CString(goName)), buf.inner, cb)
    ensures CallAllowed(s, json, goName, cb)
    ensures Tidy(FromBytes(s.heap, json).0, cb, FromBytes(s.heap, json).1.inner) ==> CallTidy(s, json, goName, cb)
  {
    var s1 := Step(s, Make(json));
    var (h1, buf) := FromBytes(s.heap, json);
    assert s1 == s.(heap := h1, owners := s.owners + [buf]);
    assert s1.owners[|s.owners|] == buf && InputOf(s1, Some(|s.owners|)) == buf.inner;
    MadeIsUnfreed(s.heap, json);
  }

  lemma MadeIsUnfreed(h: Heap, json: seq<byte>)
    ensures !FromBytes(h, json).1.freed
  {
  }

  lemma SafeStart(h: Heap, t: Table)
    requires Sound(h)
    ensures Safe(GoState(h, t, [], {}))
  {
  }

  lemma ReplyCallOK(h: Heap, t: Table, borrowed: set<nat>, goName: seq<byte>, input: FfiBuffer,
                    reply: Result<seq<byte>, FfiError>, slack: nat, cb: Callback)
    requires Sound(h) && HasCallback(t, goName) && ReplyFits(reply, slack)
    requires ReportFits(GoName(goName).value, reply)
    requires cb(h, input) == (ReplyResult(h, reply, slack).0, Gave(ReplyResult(h, reply, slack).1))
    ensures CallOK(h, t, borrowed, Some(CString(goName)), input, cb) && Tidy(h, cb, input)
  {
    ReplyObeys(h, borrowed, input, reply, slack, cb);
    ReplyLost(h, t, goName, input, reply, slack, cb);
  }

  lemma ReplyLost(h: Heap, t: Table, goName: seq<byte>, input: FfiBuffer, reply: Result<seq<byte>, FfiError>,
                  slack: nat, cb: Callback)
    requires Sound(h) && HasCallback(t, goName) && ReplyFits(reply, slack)
    requires ReportFits(GoName(goName).value, reply)
    requires cb(h, input) == (ReplyResult(h, reply, slack).0, Gave(ReplyResult(h, reply, slack).1))
    ensures Lost(h, t, Some(CString(goName)), input, cb) == LeftBehind(h, GoName(goName).value, reply, slack)
    ensures var f := Failure(h, t, Some(CString(goName)), input, cb); f.Some? ==> |Message(f.value)| <= ISIZE_MAX
  {
    var raw := Some(CString(goName));
    ReplyObeys(h, {}, input, reply, slack, cb);
    ResultShape(h, t, raw, input, cb);
    if reply.Err? {
      ErrorsAreNotOk(reply.error);
      LostOnErr(h, t, raw, input, cb);
      ErrEffect(h, reply.error);
    }
  }

  lemma ReplyCallIsClean<T>(h: Heap, t: Table, goName: seq<byte>, json: seq<byte>,
                            reply: Result<seq<byte>, FfiError>, slack: nat, cb: Callback,
                            decode: seq<byte> -> Option<T>)
    requires Sound(h) && HasCallback(t, goName) && |json| <= ISIZE_MAX
    requires ReplyFits(reply, slack) && ReportFits(GoName(goName).value, reply)
    requires var (h1, buf) := FromBytes(h, json);
      cb(h1, buf.inner) == (ReplyResult(h1, reply, slack).0, Gave(ReplyResult(h1, reply, slack).1))
    ensures var j := InvokeJson(h, t, goName, Some(json), decode, cb);
      && !j.heap.fault
      && (forall i :: 0 <= i < |j.created| ==> j.created[i].freed)
      && |j.created| == (match j.outcome case MarshalError => 0 case CallError(_, _) => 1
                         case CallPanic => 1 case _ => 2)
      && Live(j.heap) == Live(h) + LeftBehind(FromBytes(h, json).0, GoName(goName).value, reply, slack)
  {
    var s := GoState(h, t, [], {});
    ReplyCallAllowed(h, t, goName, json, reply, slack, cb);
    JsonFreesItsOwners(s, Some(json), goName, decode, cb);
    JsonLeavesOnlyLost(s, json, goName, decode, cb);
  }

  /** A typed callback that cannot answer - its request does not decode, its handler refuses or
      panics, its answer does not encode - is one error to Go, and never poisons the registry. */
  lemma TypedCallRefuses<I, O>(h: Heap, t: Table, goName: seq<byte>, input: FfiBuffer,
                               decode: seq<byte> -> Result<I, seq<byte>>, handle: I -> Reply<O>,
                               encode: O -> Result<seq<byte>, seq<byte>>, slack: nat)
    requires HasCallback(t, goName)
    ensures var bytes := AsSlice(h, input).1;
      var cb := TypedClosure(decode, handle, encode, slack);
      var (_, t2, r) := FfiInvoke(h, t, Some(CString(goName)), input, cb);
      && t2 == t
      && (r.code == FfiOk <==> decode(bytes).Ok? && handle(decode(bytes).value).Answer?
                               && encode(handle(decode(bytes).value).value).Ok?)
      && (r.code != FfiOk ==> r.code == Unknown)
  {
    var handler := JsonHandler(decode, handle, encode, slack);
    var cb := BridgeClosure(handler);
    BridgeNeverPoisons(h, t, Some(CString(goName)), input, handler);
    InvokeFollowsRegistry(h, t, Some(CString(goName)), input, cb);
    HandlerValue(h, input, decode, handle, encode, slack);
    ClosureCode(h, input, handler);
  }

  lemma HandlerValue<I, O>(h: Heap, input: FfiBuffer, decode: seq<byte> -> Result<I, seq<byte>>, handle: I -> Reply<O>,
                           encode: O -> Result<seq<byte>, seq<byte>>, slack: nat)
    ensures var bytes := AsSlice(h, input).1;
      JsonHandler(decode, handle, encode, slack)(h, input).1.Value? <==>
        decode(bytes).Ok? && handle(decode(bytes).value).Answer? && encode(handle(decode(bytes).value).value).Ok?
  {
  }

  lemma ClosureCode(h: Heap, input: FfiBuffer, handler: Handler)
    ensures var e := BridgeClosure(handler)(h, input).1;
      e.Gave? && (e.result.code == FfiOk <==> handler(h, input).1.Value?)
  {
  }
}
