/** What crosses the boundary arrives, and what is left behind: round trips of bytes, strings and
    errors, and the exact point where `CheckResult` departs from its description. */
module HandOver {
  import opened Wrappers
  import opened Machine
  import opened Errors
  import opened Names
  import opened Memory
  import opened Results
  import opened Registry
  import opened Ownership
  import opened Invoke
  import opened GoBuffer
  import opened GoCalls
  import opened GoRuns

  // ---------- Bytes ----------

  /** What Go can read back of `d`: nothing if it is empty, its first `CInt(|d|)` bytes, or a
      run-time panic. */
  function Readable(d: seq<byte>): Slice {
    if d == [] then Nil else if CInt(|d|) < 0 then OutOfRange else Bytes(d[..CInt(|d|)])
  }

  lemma ReadableIff(d: seq<byte>)
    ensures Readable(d) == Bytes(d) <==> 0 < |d| < INT_LIMIT
  {
    CIntExact(|d|);
  }

  /** Writing bytes into a Rust buffer and reading them back. */
  lemma BytesRoundTrip(h: Heap, d: seq<byte>)
    requires Sound(h) && |d| <= ISIZE_MAX
    ensures var (h1, b) := FromBytes(h, d);
      && Contents(h1, b) == (h1, Readable(d))
      && (Contents(h1, b).1 == Bytes(d) <==> 0 < |d| < INT_LIMIT)
  {
    FromBytesEffect(h, d);
    ReadableIff(d);
  }

  /** `ToJSON` of a buffer made of `d`: the value of exactly those bytes, an error if they do not
      decode, and an error of its own if there are none. */
  lemma JsonOfBytes<T>(h: Heap, d: seq<byte>, decode: seq<byte> -> Option<T>)
    requires Sound(h) && |d| <= ISIZE_MAX
    ensures var (h1, b) := FromBytes(h, d);
      && Len(b) == |d|
      && (d == [] ==> ToJson(h1, b, decode) == (h1, EmptyOrFreed))
      && (0 < |d| < INT_LIMIT ==>
            ToJson(h1, b, decode) == (h1, if decode(d).Some? then Decoded(decode(d).value) else Malformed))
      && (d != [] && CInt(|d|) < 0 ==> ToJson(h1, b, decode) == (h1, ReadPanic))
  {
    FromBytesEffect(h, d);
    BytesRoundTrip(h, d);
    CIntExact(|d|);
    if 0 < |d| < INT_LIMIT {
      assert d[..|d|] == d;
    }
  }

  function EchoClosure(slack: nat): Callback {
    BridgeClosure(EchoHandler(slack))
  }

  lemma EchoResult(h: Heap, input: FfiBuffer, slack: nat)
    requires Sound(h) && BufferOK(h, input) && input.len + slack <= ISIZE_MAX
    ensures EchoClosure(slack)(h, input) ==
      var bytes := AsSlice(h, input).1;
      (FromVec(h, bytes, slack).0, Gave(ResultOk(FromVec(h, bytes, slack).1)))
    ensures |AsSlice(h, input).1| == input.len
  {
  }

  lemma GrownReadsBack(h: Heap, n: nat, bytes: seq<byte>)
    requires |bytes| <= n
    ensures AsSlice(Grown(h, n, bytes), FfiBuffer(At(|h.blocks|), |bytes|, n)) == (Grown(h, n, bytes), bytes)
  {
    assert bytes[..|bytes|] == bytes;
  }

  /** A vector handed over is read back whole. */
  lemma VecReadsBack(h: Heap, bytes: seq<byte>, slack: nat)
    requires |bytes| + slack <= ISIZE_MAX
    ensures var (h2, v) := FromVec(h, bytes, slack); v.len == |bytes| && AsSlice(h2, v) == (h2, bytes)
  {
    FromVecEffect(h, bytes, slack);
    GrownReadsBack(h, |bytes| + slack, bytes);
  }

  /** It has a block of its own, and no other block changes. */
  lemma VecIsNew(h: Heap, bytes: seq<byte>, slack: nat)
    requires Sound(h) && |bytes| + slack <= ISIZE_MAX
    ensures var (h2, v) := FromVec(h, bytes, slack);
      && Same(h, h2, All(h)) && (forall id :: id in Owns(v.data, v.capacity) ==> id >= |h.blocks|)
      && Live(h2) == Live(h) + Owns(v.data, v.capacity)
  {
    FromVecEffect(h, bytes, slack);
    if |bytes| + slack > 0 {
      GrownEffect(h, |bytes| + slack, bytes);
    }
  }

  /** `ffi_echo` itself: success without a message, and a payload of its own that holds the bytes of
      the input, which stays as it is. */
  lemma EchoReturnsInput(h: Heap, input: FfiBuffer, slack: nat)
    requires Sound(h) && BufferOK(h, input) && input.len + slack <= ISIZE_MAX
    ensures var (h2, r) := Echo(h, input, slack);
      && r.code == FfiOk && r.message == NULL_STRING && r.payload.len == input.len
      && AsSlice(h2, r.payload) == (h2, AsSlice(h, input).1)
      && Same(h, h2, All(h)) && (forall id :: id in Owns(r.payload.data, r.payload.capacity) ==> id >= |h.blocks|)
      && Live(h2) == Live(h) + Owns(r.payload.data, r.payload.capacity)
  {
    EchoResult(h, input, slack);
    VecReadsBack(h, AsSlice(h, input).1, slack);
    VecIsNew(h, AsSlice(h, input).1, slack);
  }

  /** The echo closure keeps the contract of callbacks and leaves nothing else behind. */
  lemma EchoObeys(h: Heap, borrowed: set<nat>, input: FfiBuffer, slack: nat)
    requires Sound(h) && BufferOK(h, input) && input.len + slack <= ISIZE_MAX
    ensures Obeys(h, borrowed, EchoClosure(slack), input) && Tidy(h, EchoClosure(slack), input)
  {
    var bytes := AsSlice(h, input).1;
    EchoResult(h, input, slack);
    VecIsOK(h, borrowed, bytes, slack);
  }

  lemma VecIsOK(h: Heap, keep: set<nat>, bytes: seq<byte>, slack: nat)
    requires Sound(h) && |bytes| + slack <= ISIZE_MAX
    ensures var (h1, b) := FromVec(h, bytes, slack);
      && Sound(h1) && Keeps(h, h1, keep) && CanRead(h1, b.data, b.len)
      && PtrBlock(b.data) == Fresh(h, PtrBlock(b.data)) && Live(h1) == Live(h) + PtrBlock(b.data)
  {
    FromVecEffect(h, bytes, slack);
    var n := |bytes| + slack;
    if n == 0 {
      assert FromVec(h, bytes, slack) == (h, FfiBuffer(Dangling, 0, 0));
    } else {
      NewVecIsOK(h, keep, n, bytes);
    }
  }

  lemma NewVecIsOK(h: Heap, keep: set<nat>, n: nat, bytes: seq<byte>)
    requires Sound(h) && 0 < n <= ISIZE_MAX && |bytes| <= n
    ensures var h1, p := Grown(h, n, bytes), At(|h.blocks|);
      && Sound(h1) && Keeps(h, h1, keep) && CanRead(h1, p, |bytes|)
      && PtrBlock(p) == Fresh(h, PtrBlock(p)) && Live(h1) == Live(h) + PtrBlock(p)
  {
    GrownEffect(h, n, bytes);
    GrowKeeps(h, h, keep, n, bytes);
  }

  function IdentityClosure(): Callback {
    (h: Heap, input: FfiBuffer) => (h, Gave(ResultOk(input)))
  }

  /** So does the closure that returns its own input as payload. */
  lemma IdentityObeys(h: Heap, borrowed: set<nat>, input: FfiBuffer)
    requires Sound(h) && BufferOK(h, input) && (input.data.At? ==> input.capacity > 0)
    ensures Obeys(h, borrowed, IdentityClosure(), input) && Tidy(h, IdentityClosure(), input)
  {
  }

  /** A callback that reads its input faults exactly when the input's bytes are not there; what that
      means for an owner is in `Lifetimes`. */
  lemma EchoFaultsIff(h: Heap, input: FfiBuffer, slack: nat)
    requires !h.fault && input.len + slack <= ISIZE_MAX
    ensures EchoClosure(slack)(h, input).0.fault <==> !input.data.Null? && !CanRead(h, input.data, input.len)
  {
    var (h1, bytes) := AsSlice(h, input);
    FromVecEffect(h1, bytes, slack);
  }

  predicate HasCallback(t: Table, goName: seq<byte>) {
    RunsClosure(t, Some(CString(goName)))
  }

  lemma ReceivedCopy(h: Heap, payload: FfiBuffer, d: seq<byte>)
    requires Sound(h) && payload.len == |d| && CanRead(h, payload.data, |d|)
    requires d != [] ==> payload.data.At? && d <= h.blocks[payload.data.id].bytes
    ensures var (h2, c) := CheckResult(h, ResultOk(payload));
      if Readable(d).OutOfRange? then c.GoPanic? && h2 == h
      else c.Received? && Contents(h2, c.buffer) == (h2, if CInt(|d|) == 0 then Nil else Bytes(d[..CInt(|d|)]))
  {
    CheckOkEffect(h, payload);
    var n := CInt(|d|);
    if d != [] && n >= 0 {
      assert h.blocks[payload.data.id].bytes[..n] == d[..n];
      FromBytesEffect(h, d[..n]);
      if n > 0 {
        BytesRoundTrip(h, d[..n]);
        CIntIdempotent(|d|);
        assert d[..n][..n] == d[..n];
      }
    }
  }

  lemma CIntIdempotent(n: nat)
    requires CInt(n) >= 0
    ensures CInt(CInt(n)) == CInt(n)
  {
    CIntExact(CInt(n));
  }

  /** Bytes sent to a registered echo come back: all of them exactly below two gigabytes. */
  lemma EchoRoundTrip(h: Heap, t: Table, goName: seq<byte>, d: seq<byte>, slack: nat)
    requires Sound(h) && HasCallback(t, goName) && |d| + slack <= ISIZE_MAX
    ensures var (h1, b) := FromBytes(h, d);
      var (h2, t2, c) := InvokeCallback(h1, t, goName, b.inner, EchoClosure(slack));
      && t2 == t
      && (if Readable(d).OutOfRange? then c.GoPanic?
          else c.Received? && Contents(h2, c.buffer) == (h2, if CInt(|d|) == 0 then Nil else Bytes(d[..CInt(|d|)])))
      && (c.Received? && Contents(h2, c.buffer).1 == Bytes(d) <==> 0 < |d| < INT_LIMIT)
  {
    var raw := Some(CString(goName));
    var (h1, b) := FromBytes(h, d);
    MadeBuffer(h, d);
    var cb := EchoClosure(slack);
    EchoResult(h1, b.inner, slack);
    FromVecEffect(h1, d, slack);
    EchoObeys(h1, {}, b.inner, slack);
    ResultShape(h1, t, raw, b.inner, cb);
    InvokeFollowsRegistry(h1, t, raw, b.inner, cb);
    ReceivedCopy(cb(h1, b.inner).0, cb(h1, b.inner).1.result.payload, d);
    CIntExact(|d|);
  }

  lemma MadeBuffer(h: Heap, d: seq<byte>)
    requires Sound(h) && |d| <= ISIZE_MAX
    ensures var (h1, b) := FromBytes(h, d);
      Sound(h1) && BufferOK(h1, b.inner) && b.inner.len == |d| && AsSlice(h1, b.inner) == (h1, d)
  {
    FromBytesEffect(h, d);
    if d != [] {
      GrownEffect(h, |d|, d);
      assert d[..|d|] == d;
    }
  }

  // ---------- Strings ----------

  /** A Go string survives the trip through a Rust string, NULs included, exactly when it is empty
      or valid UTF-8 below two gigabytes; an invalid one becomes empty and allocates nothing. */
  lemma StringRoundTrip(h: Heap, s: seq<byte>)
    requires Sound(h) && |s| <= ISIZE_MAX
    ensures var (h1, f) := AllocFfiString(h, s);
      && (GoString(h1, f).1 == Bytes(s) <==> s == [] || (Utf8.Valid(s) && |s| < INT_LIMIT))
      && (!Utf8.Valid(s) ==> h1 == h && GoString(h1, f) == (h1, Bytes([])))
      && !GoString(h1, f).0.fault
  {
    CIntExact(|s|);
    if s != [] && Utf8.Valid(s) {
      StringNewEffect(h, s);
      if CInt(|s|) == |s| {
        assert s[..|s|] == s;
      }
    }
  }

  // ---------- Errors ----------

  /** A failing call reaches Go with its code and its whole text, exactly when the text is shorter
      than two gigabytes, and leaves no block of its own behind. */
  lemma RefusalRoundTrip(h: Heap, t: Table, goName: seq<byte>, input: FfiBuffer, cb: Callback)
    requires Sound(h) && CallOK(h, t, {}, Some(CString(goName)), input, cb)
    requires Failure(h, t, Some(CString(goName)), input, cb).Some?
    ensures var e := Failure(h, t, Some(CString(goName)), input, cb).value;
      var (h2, _, c) := InvokeCallback(h, t, goName, input, cb);
      && (c == Checked.Refused(Code(e), Message(e)) <==> |Message(e)| < INT_LIMIT)
      && (|Message(e)| < INT_LIMIT ==> Live(h2) == Live(AfterClosure(h, t, Some(CString(goName)), input, cb)))
  {
    var raw := Some(CString(goName));
    var e := Failure(h, t, raw, input, cb).value;
    var h1 := AfterClosure(h, t, raw, input, cb);
    ResultShape(h, t, raw, input, cb);
    ClosureEffect(h, t, {}, raw, input, cb);
    CheckErrEffect(h1, e);
    DeliverErr(h, h1, {}, e);
    CIntExact(|Message(e)|);
    assert Message(e)[..|Message(e)|] == Message(e);
  }

  /** Calling a name that nobody registered: Go sees code 7 and a text that ends with the name that
      was looked up. */
  lemma MissingNameReported(h: Heap, t: Table, goName: seq<byte>, input: FfiBuffer, cb: Callback)
    requires Sound(h) && !t.poisoned && Utf8.Valid(NulPrefix(goName)) && NulPrefix(goName) !in t.entries
    requires |Message(Missing(NulPrefix(goName)))| < INT_LIMIT
    ensures var (h2, _, c) := InvokeCallback(h, t, goName, input, cb);
      && c.Refused? && Number(c.code) == 7 && EndsWith(c.message, NulPrefix(goName)) && Live(h2) == Live(h)
  {
    MissingIsFailure(h, t, goName, input, cb);
    NoClosureRun(h, t, goName, input, cb, Missing(NulPrefix(goName)));
    MissingReport(h, t, goName, input, cb, NulPrefix(goName));
  }

  lemma MissingReport(h: Heap, t: Table, goName: seq<byte>, input: FfiBuffer, cb: Callback, name: Name)
    requires Sound(h) && CallOK(h, t, {}, Some(CString(goName)), input, cb)
    requires Failure(h, t, Some(CString(goName)), input, cb) == Some(Missing(name))
    requires |Message(Missing(name))| < INT_LIMIT && AfterClosure(h, t, Some(CString(goName)), input, cb) == h
    ensures var (h2, _, c) := InvokeCallback(h, t, goName, input, cb);
      && c.Refused? && Number(c.code) == 7 && EndsWith(c.message, name) && Live(h2) == Live(h)
  {
    RefusedWith(h, t, goName, input, cb, Missing(name));
    RefusalText(InvokeCallback(h, t, goName, input, cb).2, Missing(name));
  }

  lemma RefusalText(c: Checked, e: FfiError)
    requires c == Checked.Refused(Code(e), Message(e))
    ensures HasDetail(e) ==> EndsWith(c.message, e.detail)
  {
    if HasDetail(e) {
      MessageEndsWithDetail(e);
    }
  }

  lemma RefusedWith(h: Heap, t: Table, goName: seq<byte>, input: FfiBuffer, cb: Callback, e: FfiError)
    requires Sound(h) && CallOK(h, t, {}, Some(CString(goName)), input, cb)
    requires Failure(h, t, Some(CString(goName)), input, cb) == Some(e) && |Message(e)| < INT_LIMIT
    ensures var (h2, _, c) := InvokeCallback(h, t, goName, input, cb);
      && c == Checked.Refused(Code(e), Message(e))
      && Live(h2) == Live(AfterClosure(h, t, Some(CString(goName)), input, cb))
  {
    RefusalRoundTrip(h, t, goName, input, cb);
  }

  /** A callback that panics: Go sees code 5 and a text that ends with the text of the panic, and the
      registry is poisoned with all its entries in place. */
  lemma PanicReported(h: Heap, t: Table, goName: seq<byte>, input: FfiBuffer, cb: Callback)
    requires Sound(h) && HasCallback(t, goName) && CallOK(h, t, {}, Some(CString(goName)), input, cb)
    requires cb(h, input).1.Threw?
    requires |Message(PanicCaught(PanicText(cb(h, input).1.payload)))| < INT_LIMIT
    ensures var (h2, t2, c) := InvokeCallback(h, t, goName, input, cb);
      var payload := cb(h, input).1.payload;
      && c.Refused? && Number(c.code) == 5 && t2 == t.(poisoned := true)
      && EndsWith(c.message, if payload.Text? then payload.text else Ascii("unknown panic payload"))
  {
    var e := PanicCaught(PanicText(cb(h, input).1.payload));
    ClosureFailure(h, t, goName, input, cb);
    RefusedWith(h, t, goName, input, cb, e);
    RefusalText(InvokeCallback(h, t, goName, input, cb).2, e);
  }

  /** The failure of a closure that runs, and what it does to the registry. */
  lemma ClosureFailure(h: Heap, t: Table, goName: seq<byte>, input: FfiBuffer, cb: Callback)
    requires HasCallback(t, goName)
    ensures var e := cb(h, input).1;
      Failure(h, t, Some(CString(goName)), input, cb) ==
        if e.Threw? then Some(PanicCaught(PanicText(e.payload)))
        else if e.result.code == FfiOk then None
        else Some(CallbackError(NulPrefix(goName), e.result.code))
    ensures InvokeCallback(h, t, goName, input, cb).1 == t.(poisoned := cb(h, input).1.Threw?)
  {
    NameIsPrefix(goName);
    InvokeFollowsRegistry(h, t, Some(CString(goName)), input, cb);
  }

  lemma CallbackRefusal(c: Checked, name: Name, code: FfiErrorCode)
    requires var e := CallbackError(name, code); c == Checked.Refused(Code(e), Message(e))
    ensures Number(c.code) == 99 && Mentions(c.message, name) && EndsWith(c.message, CodeName(code))
  {
    CallbackErrorText(name, code, code);
  }

  /** A callback that returns an error: Go sees code 99, whatever the callback's own code and text
      were, and a text that mentions the callback and ends with the name of that code. */
  lemma ErrorReported(h: Heap, t: Table, goName: seq<byte>, input: FfiBuffer, cb: Callback)
    requires Sound(h) && HasCallback(t, goName) && CallOK(h, t, {}, Some(CString(goName)), input, cb)
    requires cb(h, input).1.Gave? && cb(h, input).1.result.code != FfiOk
    requires |Message(CallbackError(NulPrefix(goName), cb(h, input).1.result.code))| < INT_LIMIT
    ensures var (h2, t2, c) := InvokeCallback(h, t, goName, input, cb);
      && c.Refused? && Number(c.code) == 99 && t2 == t
      && Mentions(c.message, NulPrefix(goName)) && EndsWith(c.message, CodeName(cb(h, input).1.result.code))
  {
    var code := cb(h, input).1.result.code;
    ClosureFailure(h, t, goName, input, cb);
    RefusedWith(h, t, goName, input, cb, CallbackError(NulPrefix(goName), code));
    CallbackRefusal(InvokeCallback(h, t, goName, input, cb).2, NulPrefix(goName), code);
  }

  lemma NoClosureRun(h: Heap, t: Table, goName: seq<byte>, input: FfiBuffer, cb: Callback, e: FfiError)
    requires !RunsClosure(t, Some(CString(goName))) && Failure(h, t, Some(CString(goName)), input, cb) == Some(e)
    requires |Message(e)| <= ISIZE_MAX
    ensures AfterClosure(h, t, Some(CString(goName)), input, cb) == h
    ensures CallOK(h, t, {}, Some(CString(goName)), input, cb)
  {
  }

  lemma MissingIsFailure(h: Heap, t: Table, goName: seq<byte>, input: FfiBuffer, cb: Callback)
    requires !t.poisoned && Utf8.Valid(NulPrefix(goName)) && NulPrefix(goName) !in t.entries
    ensures Failure(h, t, Some(CString(goName)), input, cb) == Some(Missing(NulPrefix(goName)))
    ensures !RunsClosure(t, Some(CString(goName)))
  {
    NameIsPrefix(goName);
  }

  // ---------- CheckResult against its description ----------

  /** The description says that all memory of a result is freed. It is true of a failure whose
      message Go can read, and of a success whose payload owns no block; a success with a payload
      block leaves that block behind, because the field is cleared before the free. */
  lemma FreesAllMemoryIff(h: Heap, r: FfiResult)
    requires Sound(h) && BufferOK(h, r.payload)
    requires Releasable(h, r.message.data, r.message.len) && CanRead(h, r.message.data, r.message.len)
    requires Owns(r.message.data, r.message.len) !! Owns(r.payload.data, r.payload.capacity)
    ensures var owned := Owns(r.message.data, r.message.len) + Owns(r.payload.data, r.payload.capacity);
      owned !! Live(CheckResult(h, r).0) <==>
        if r.code != FfiOk then CInt(r.message.len) >= 0
        else r.payload.capacity == 0 || r.payload.data.Null?
  {
    if r.code != FfiOk {
      FailureFrees(h, r);
    } else {
      SuccessLeaves(h, r);
    }
  }

  lemma FailureFrees(h: Heap, r: FfiResult)
    requires Sound(h) && BufferOK(h, r.payload) && r.code != FfiOk
    requires Releasable(h, r.message.data, r.message.len) && CanRead(h, r.message.data, r.message.len)
    requires Owns(r.message.data, r.message.len) !! Owns(r.payload.data, r.payload.capacity)
    ensures var owned := Owns(r.message.data, r.message.len) + Owns(r.payload.data, r.payload.capacity);
      owned !! Live(CheckResult(h, r).0) <==> CInt(r.message.len) >= 0
  {
    if r.message.len > 0 {
      CopyEffect(h, r.message.data, r.message.len);
    }
    if CInt(r.message.len) < 0 {
      assert r.message.data.id in Owns(r.message.data, r.message.len);
    } else {
      assert CheckResult(h, r).0 == ResultFree(h, r);
      BothFreed(h, r);
    }
  }

  lemma BothFreed(h: Heap, r: FfiResult)
    requires Sound(h) && BufferOK(h, r.payload) && Releasable(h, r.message.data, r.message.len)
    requires Owns(r.message.data, r.message.len) !! Owns(r.payload.data, r.payload.capacity)
    ensures var h2 := ResultFree(h, r);
      && Sound(h2) && |h2.blocks| == |h.blocks|
      && Live(h2) == Live(h) - Owns(r.message.data, r.message.len) - Owns(r.payload.data, r.payload.capacity)
      && Keeps(h, h2, All(h) - (Owns(r.message.data, r.message.len) + Owns(r.payload.data, r.payload.capacity)))
  {
    ReleaseEffect(h, r.message.data, r.message.len);
    var h1 := StringFree(h, r.message);
    OwnedBelow(h, r.payload);
    BufferKept(h, h1, All(h) - Owns(r.message.data, r.message.len), r.payload);
    ReleaseEffect(h1, r.payload.data, r.payload.capacity);
  }

  lemma OwnedBelow(h: Heap, b: FfiBuffer)
    requires BufferOK(h, b)
    ensures Owns(b.data, b.capacity) <= Live(h)
  {
  }

  lemma SuccessLeaves(h: Heap, r: FfiResult)
    requires Sound(h) && BufferOK(h, r.payload) && r.code == FfiOk
    requires Releasable(h, r.message.data, r.message.len)
    requires Owns(r.message.data, r.message.len) !! Owns(r.payload.data, r.payload.capacity)
    ensures var owned := Owns(r.message.data, r.message.len) + Owns(r.payload.data, r.payload.capacity);
      owned !! Live(CheckResult(h, r).0) <==> r.payload.capacity == 0 || r.payload.data.Null?
  {
  }
}
