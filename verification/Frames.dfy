/** What stays as it is: over whole runs, the bytes of a buffer change only by what is done to that
    buffer. Everything else - allocations, frees, calls, the finalizers of other buffers - leaves
    them alone, as long as the callbacks do. */
module Frames {
  import opened Wrappers
  import opened Machine
  import opened Errors
  import opened Names
  import opened Memory
  import opened Results
  import opened Registry
  import opened History
  import opened Ownership
  import opened Invoke
  import opened GoBuffer
  import opened GoCalls
  import opened GoRuns
  import opened HandOver
  import opened TypedCalls
  import opened Lifetimes
  import opened CClient

  // ---------- One call ----------

  lemma FreshFreeIsSame(h: Heap, h1: Heap, size: nat, bytes: seq<byte>, ids: set<nat>)
    requires Sound(h1) && Same(h, h1, ids) && 0 < size <= ISIZE_MAX && |bytes| <= size
    ensures Same(h, Release(Grown(h1, size, bytes), At(|h1.blocks|), size), ids)
  {
  }

  lemma DeliverOkSame(h: Heap, h1: Heap, ids: set<nat>, payload: FfiBuffer)
    requires Sound(h1) && Same(h, h1, ids) && CanRead(h1, payload.data, payload.len)
    ensures Same(h, CheckResult(h1, ResultOk(payload)).0, ids)
  {
    CheckOkEffect(h1, payload);
    var n := CInt(payload.len);
    if payload.len > 0 && n >= 0 {
      FromBytesEffect(h1, h1.blocks[payload.data.id].bytes[..n]);
    }
  }

  lemma DeliverErrSame(h: Heap, h1: Heap, ids: set<nat>, e: FfiError)
    requires Sound(h1) && Same(h, h1, ids) && |Message(e)| <= ISIZE_MAX
    ensures Same(h, ResultErr(h1, e).0, ids)
    ensures Same(h, CheckResult(ResultErr(h1, e).0, ResultErr(h1, e).1).0, ids)
  {
    var m := Message(e);
    CheckErrEffect(h1, e);
    FreshFreeIsSame(h, h1, |m|, m, ids);
  }

  /** The closure, if run, does not change these blocks. */
  ghost predicate Spares(h: Heap, t: Table, raw: Option<seq<byte>>, input: FfiBuffer, cb: Callback, ids: set<nat>) {
    RunsClosure(t, raw) ==> Same(h, cb(h, input).0, ids)
  }

  /** An invoke changes no block that its closure spares. */
  lemma InvokeSpares(h: Heap, t: Table, keep: set<nat>, goName: seq<byte>, input: FfiBuffer, cb: Callback,
                     ids: set<nat>)
    requires Sound(h) && CallOK(h, t, keep, Some(CString(goName)), input, cb)
    requires Spares(h, t, Some(CString(goName)), input, cb, ids)
    ensures Same(h, InvokeCallback(h, t, goName, input, cb).0, ids)
  {
    var raw := Some(CString(goName));
    var h1 := AfterClosure(h, t, raw, input, cb);
    ClosureEffect(h, t, keep, raw, input, cb);
    ResultShape(h, t, raw, input, cb);
    assert Same(h, h1, ids);
    if Failure(h, t, raw, input, cb).None? {
      DeliverOkSame(h, h1, ids, cb(h, input).1.result.payload);
    } else {
      DeliverErrSame(h, h1, ids, Failure(h, t, raw, input, cb).value);
    }
  }

  /** Closures that only read their input and allocate a reply spare every block. */
  lemma ReplySpares(h: Heap, input: FfiBuffer, reply: Result<seq<byte>, FfiError>, slack: nat, cb: Callback,
                    ids: set<nat>)
    requires ReplyFits(reply, slack)
    requires cb(h, input) == (ReplyResult(h, reply, slack).0, Gave(ReplyResult(h, reply, slack).1))
    ensures Same(h, cb(h, input).0, ids)
  {
    match reply {
      case Ok(out) => FromVecEffect(h, out, slack);
      case Err(e) => ErrEffect(h, e);
    }
  }

  // ---------- Runs of a Go client ----------

  ghost predicate SparesOp(s: GoState, op: GoOp, ids: set<nat>) {
    op.Invoke? ==> Spares(s.heap, s.table, Some(CString(op.goName)), InputOf(s, op.input), op.cb, ids)
  }

  ghost predicate SparesRun(s: GoState, ops: seq<GoOp>, ids: set<nat>)
    decreases |ops|
  {
    ops == [] || (SparesOp(s, ops[0], ids) && SparesRun(Step(s, ops[0]), ops[1..], ids))
  }

  /** The free of another owner. */
  lemma OtherFreeSpares(s: GoState, i: nat, j: nat)
    requires Safe(s) && i < |s.owners| && j < |s.owners| && i != j && !s.owners[i].freed
    ensures Same(s.heap, FreeOwner(s.heap, s.owners[j]).0, OwnerBlocks(s.owners[i]))
  {
    SlotIsOld(s, i);
    SlotIsOld(s, j);
    var slots, b := Slots(s.owners), s.owners[j];
    assert slots[i] == OwnerBlocks(s.owners[i]) && slots[j] == OwnerBlocks(b) && slots[i] !! slots[j];
    assert OwnerOK(s.heap, b);
    if !b.freed {
      ReleaseEffect(s.heap, b.inner.data, b.inner.capacity);
    }
  }

  lemma MakeSpares(s: GoState, op: GoOp, ids: set<nat>)
    requires Legal(s, op) && (op.New? || op.Make?)
    ensures Same(s.heap, Step(s, op).heap, ids)
  {
    if op.New? {
      NewBufferEffect(s.heap, op.capacity);
    } else {
      FromBytesEffect(s.heap, op.data);
    }
  }

  lemma StepSpares(s: GoState, op: GoOp, i: nat)
    requires Safe(s) && Legal(s, op) && i < |s.owners| && SparesOp(s, op, OwnerBlocks(s.owners[i]))
    requires !s.owners[i].freed && !Step(s, op).owners[i].freed
    ensures Step(s, op).owners[i] == s.owners[i]
    ensures Same(s.heap, Step(s, op).heap, OwnerBlocks(s.owners[i]))
  {
    match op
    case New(_) => MakeSpares(s, op, OwnerBlocks(s.owners[i]));
    case Make(_) => MakeSpares(s, op, OwnerBlocks(s.owners[i]));
    case ReadBytes(j) => ReadStep(s, j);
    case CallFree(j) => FreeSpares(s, op, i, j);
    case Collect(j) => FreeSpares(s, op, i, j);
    case Invoke(goName, input, cb) =>
      InvokeSpares(s.heap, s.table, Untouchable(s), goName, InputOf(s, input), cb, OwnerBlocks(s.owners[i]));
    case Elsewhere(_, _) =>
  }

  lemma FreeSpares(s: GoState, op: GoOp, i: nat, j: nat)
    requires Safe(s) && Legal(s, op) && i < |s.owners| && (op == CallFree(j) || op == Collect(j))
    requires !s.owners[i].freed && !Step(s, op).owners[i].freed
    ensures Step(s, op).owners[i] == s.owners[i]
    ensures Same(s.heap, Step(s, op).heap, OwnerBlocks(s.owners[i]))
  {
    assert OwnerOK(s.heap, s.owners[j]);
    if j != i {
      OtherFreeSpares(s, i, j);
    }
  }

  lemma SameTrans(h: Heap, h1: Heap, h2: Heap, ids: set<nat>)
    requires Same(h, h1, ids) && Same(h1, h2, ids)
    ensures Same(h, h2, ids)
  {
  }

  /** An owner that stays unfreed keeps its struct and its block, byte for byte. */
  lemma {:induction false} RunSpares(s: GoState, ops: seq<GoOp>, i: nat)
    requires Safe(s) && LegalRun(s, ops) && i < |s.owners| && SparesRun(s, ops, OwnerBlocks(s.owners[i]))
    requires i < |Run(s, ops).owners| && !Run(s, ops).owners[i].freed && !s.owners[i].freed
    ensures Run(s, ops).owners[i] == s.owners[i]
    ensures Same(s.heap, Run(s, ops).heap, OwnerBlocks(s.owners[i]))
    decreases |ops|
  {
    if ops != [] {
      var s1 := Step(s, ops[0]);
      StepIsSafe(s, ops[0]);
      RunIsLater(s1, ops[1..]);
      assert Later(s, s1);
      StepSpares(s, ops[0], i);
      RunSpares(s1, ops[1..], i);
      SameTrans(s.heap, s1.heap, Run(s, ops).heap, OwnerBlocks(s.owners[i]));
    }
  }

  lemma SameContents(h: Heap, h2: Heap, b: Owner)
    requires OwnerOK(h, b) && !b.freed && Same(h, h2, OwnerBlocks(b)) && Sound(h2)
    ensures Contents(h2, b).1 == Contents(h, b).1 && Contents(h2, b).0 == h2
  {
    if b.inner.len > 0 {
      assert b.inner.data.id in OwnerBlocks(b);
      CopyEffect(h, b.inner.data, b.inner.len);
      CopyEffect(h2, b.inner.data, b.inner.len);
    }
  }

  /** What `Bytes` returns for an owner does not change over any run that leaves the owner unfreed,
      whatever else is made, freed, finalized or called, if the callbacks spare its block. */
  lemma ContentsStay(s: GoState, ops: seq<GoOp>, i: nat)
    requires Safe(s) && LegalRun(s, ops) && i < |s.owners| && SparesRun(s, ops, OwnerBlocks(s.owners[i]))
    ensures var s' := Run(s, ops);
      && i < |s'.owners|
      && Contents(s'.heap, s'.owners[i])
         == (s'.heap, if s'.owners[i].freed then Nil else Contents(s.heap, s.owners[i]).1)
      && Len(s'.owners[i]) == if s'.owners[i].freed then 0 else Len(s.owners[i])
  {
    RunIsSafe(s, ops);
    RunIsLater(s, ops);
    if !Run(s, ops).owners[i].freed {
      RunSpares(s, ops, i);
      assert OwnerOK(s.heap, s.owners[i]);
      SameContents(s.heap, Run(s, ops).heap, s.owners[i]);
    }
  }

  /** A buffer made of `d` reads as `d`, as far as Go can read it, until it is freed. */
  lemma MadeStaysReadable(s: GoState, d: seq<byte>, ops: seq<GoOp>)
    requires Safe(s) && |d| <= ISIZE_MAX
    requires var s1 := Step(s, Make(d));
      LegalRun(s1, ops) && SparesRun(s1, ops, OwnerBlocks(s1.owners[|s.owners|]))
    ensures var s' := Run(Step(s, Make(d)), ops);
      && |s.owners| < |s'.owners|
      && var b := s'.owners[|s.owners|];
         && Contents(s'.heap, b) == (s'.heap, if b.freed then Nil else Readable(d))
         && Len(b) == if b.freed then 0 else |d|
  {
    var s1 := Step(s, Make(d));
    StepIsSafe(s, Make(d));
    BytesRoundTrip(s.heap, d);
    FromBytesEffect(s.heap, d);
    ContentsStay(s1, ops, |s.owners|);
  }

  /** `NewBuffer` adds an unfreed, empty owner of a block of its own, of exactly the capacity. */
  lemma NewIsEmpty(s: GoState, n: nat)
    requires Safe(s) && n <= ISIZE_MAX
    ensures var s' := Step(s, New(n));
      && |s'.owners| == |s.owners| + 1 && s.owners <= s'.owners
      && var b := s'.owners[|s.owners|];
         && !b.freed && b.inner.capacity == n && Len(b) == 0 && Contents(s'.heap, b) == (s'.heap, Nil)
         && Live(s'.heap) == Live(s.heap) + OwnerBlocks(b) && OwnerBlocks(b) !! Live(s.heap)
         && (OwnerBlocks(b) == {} <==> n == 0)
  {
    NewBufferEffect(s.heap, n);
    if n > 0 {
      GrownEffect(s.heap, n, []);
    }
  }

  /** The registry calls of a run, its own and those of other threads, with how their closures ended. */
  function CallsOf(s: GoState, ops: seq<GoOp>): seq<Entry>
    decreases |ops|
  {
    if ops == [] then []
    else
      (match ops[0]
       case Invoke(goName, input, cb) =>
         [Entry(0, 0, CInvoke(Some(CString(goName))), ExitOf(cb(s.heap, InputOf(s, input)).1))]
       case Elsewhere(call, exit) => [Entry(0, 0, call, exit)]
       case _ => [])
      + CallsOf(Step(s, ops[0]), ops[1..])
  }

  lemma ReplayOne(t: Table, e: Entry)
    ensures TableAfter(t, [e]) == Apply(t, e.call, e.exit).0
  {
    var none: seq<Entry> := [];
    assert Before([e]) == none && Last([e]) == e && TableAfter(t, none) == t;
  }

  /** Over every run the registry is where its calls, one after another, have brought it. */
  lemma {:induction false} RunReplaysCalls(s: GoState, ops: seq<GoOp>)
    ensures Run(s, ops).table == TableAfter(s.table, CallsOf(s, ops))
    decreases |ops|
  {
    if ops != [] {
      var op, s1 := ops[0], Step(s, ops[0]);
      RunReplaysCalls(s1, ops[1..]);
      match op {
        case Invoke(goName, input, cb) =>
          var e := Entry(0, 0, CInvoke(Some(CString(goName))), ExitOf(cb(s.heap, InputOf(s, input)).1));
          InvokeFollowsRegistry(s.heap, s.table, Some(CString(goName)), InputOf(s, input), cb);
          ReplayOne(s.table, e);
          ReplaySplits(s.table, [e], CallsOf(s1, ops[1..]));
        case Elsewhere(call, exit) =>
          ReplayOne(s.table, Entry(0, 0, call, exit));
          ReplaySplits(s.table, [Entry(0, 0, call, exit)], CallsOf(s1, ops[1..]));
        case _ =>
          assert [] + CallsOf(s1, ops[1..]) == CallsOf(s1, ops[1..]);
      }
    }
  }

  // ---------- Runs of a C client ----------

  ghost predicate CSparesOp(s: CState, op: COp, ids: set<nat>) {
    op.CallInvoke? ==> Spares(s.heap, s.table, op.raw, CInput(s, op.input), op.cb, ids)
  }

  ghost predicate CSparesRun(s: CState, ops: seq<COp>, ids: set<nat>)
    decreases |ops|
  {
    ops == [] || (CSparesOp(s, ops[0], ids) && CSparesRun(CStep(s, ops[0]), ops[1..], ids))
  }

  /** The operations that are meant to change what a handle is or holds. */
  predicate Touches(op: COp, k: nat) {
    match op
    case Fill(j, _) => j == k
    case TakePayload(j) => j == k
    case FreeIt(j) => j == k
    case _ => false
  }

  lemma OtherBlocks(s: CState, k: nat, j: nat)
    requires CSafe(s) && k < |s.held| && j < |s.held| && j != k && !s.held[k].freed && !s.held[j].freed
    ensures Blocks(s.held[k].handle) !! Blocks(s.held[j].handle) && Blocks(s.held[k].handle) <= Live(s.heap)
  {
    var slots := HeldSlots(s.held);
    SlotBelow(slots, k);
    assert slots[k] == Blocks(s.held[k].handle) && slots[j] == Blocks(s.held[j].handle) && slots[k] !! slots[j];
  }

  lemma FreeHandleSame(h: Heap, x: Handle, ids: set<nat>)
    requires Sound(h) && HandleOK(h, x) && ids !! Blocks(x) && ids <= Live(h)
    ensures Same(h, FreeHandle(h, x), ids)
  {
    match x {
      case Buf(b) => ReleaseEffect(h, b.data, b.capacity);
      case Str(str) => ReleaseEffect(h, str.data, str.len);
      case Res(r) =>
        ReleaseEffect(h, r.message.data, r.message.len);
        BufferKept(h, StringFree(h, r.message), All(h) - Owns(r.message.data, r.message.len), r.payload);
        ReleaseEffect(StringFree(h, r.message), r.payload.data, r.payload.capacity);
    }
  }

  lemma AllocStringSame(h: Heap, str: Option<seq<byte>>, ids: set<nat>)
    requires str.Some? ==> |str.value| <= ISIZE_MAX
    ensures Same(h, StringAlloc(h, str).0, ids)
  {
    if StringAlloc(h, str).1 != NULL_STRING {
      StringNewEffect(h, str.value);
    }
  }

  lemma FfiInvokeSpares(h: Heap, t: Table, keep: set<nat>, raw: Option<seq<byte>>, input: FfiBuffer, cb: Callback,
                        ids: set<nat>)
    requires Sound(h) && CallOK(h, t, keep, raw, input, cb) && Spares(h, t, raw, input, cb, ids)
    ensures Same(h, FfiInvoke(h, t, raw, input, cb).0, ids)
  {
    ClosureEffect(h, t, keep, raw, input, cb);
    ResultShape(h, t, raw, input, cb);
    if Failure(h, t, raw, input, cb).Some? {
      ErrEffect(AfterClosure(h, t, raw, input, cb), Failure(h, t, raw, input, cb).value);
    }
  }

  lemma FillSame(h: Heap, b: FfiBuffer, data: seq<byte>, ids: set<nat>)
    requires Sound(h) && BufferOK(h, b) && |data| <= b.capacity && (data != [] ==> !b.data.Null?)
    requires ids !! Owns(b.data, b.capacity)
    ensures Same(h, if data == [] then h else CopyIn(h, b.data, data), ids)
  {
    if data != [] {
      CopyInTouchesOne(h, b.data, data);
      assert b.data.id !in ids;
    }
  }

  lemma CStepSpares(s: CState, op: COp, k: nat)
    requires CSafe(s) && CLegal(s, op) && k < |s.held| && !s.held[k].freed && !Touches(op, k)
    requires CSparesOp(s, op, Blocks(s.held[k].handle))
    ensures k < |CStep(s, op).held| && CStep(s, op).held[k] == s.held[k]
    ensures Same(s.heap, CStep(s, op).heap, Blocks(s.held[k].handle))
  {
    var ids := Blocks(s.held[k].handle);
    match op
    case AllocBuffer(n) => NewBufferEffect(s.heap, n);
    case Fill(j, data) =>
      OtherBlocks(s, k, j);
      assert HeldOK(s.heap, s.held[j]);
      FillSame(s.heap, s.held[j].handle.b, data, ids);
    case AllocString(str) => AllocStringSame(s.heap, str, ids);
    case Look(j) => LookStep(s, j);
    case CallEcho(input, slack) =>
      assert input.Some? ==> HeldOK(s.heap, s.held[input.value]);
      EchoResult(s.heap, CInput(s, input), slack);
      FromVecEffect(s.heap, AsSlice(s.heap, CInput(s, input)).1, slack);
    case CallInvoke(raw, input, cb) =>
      FfiInvokeSpares(s.heap, s.table, Union(HeldSlots(s.held)), raw, CInput(s, input), cb, ids);
    case TakePayload(_) =>
    case FreeIt(j) =>
      OtherBlocks(s, k, j);
      assert HeldOK(s.heap, s.held[j]);
      FreeHandleSame(s.heap, s.held[j].handle, ids);
    case Meanwhile(_, _) =>
  }

  /** Over every run a handle that nobody touches keeps its struct and its blocks, byte for byte. */
  lemma {:induction false} HandleStays(s: CState, ops: seq<COp>, k: nat)
    requires CSafe(s) && CLegalRun(s, ops) && k < |s.held| && !s.held[k].freed
    requires CSparesRun(s, ops, Blocks(s.held[k].handle)) && forall i :: 0 <= i < |ops| ==> !Touches(ops[i], k)
    ensures k < |CRun(s, ops).held| && CRun(s, ops).held[k] == s.held[k]
    ensures Same(s.heap, CRun(s, ops).heap, Blocks(s.held[k].handle))
    decreases |ops|
  {
    if ops != [] {
      var s1 := CStep(s, ops[0]);
      CStepIsSafe(s, ops[0]);
      CStepSpares(s, ops[0], k);
      HandleStays(s1, ops[1..], k);
      SameTrans(s.heap, s1.heap, CRun(s, ops).heap, Blocks(s.held[k].handle));
    }
  }

  /** What `ffi_buffer_alloc` hands to the client: an empty buffer with a block of its own, of exactly
      the capacity. */
  lemma AllocHandsOver(s: CState, n: nat)
    requires CSafe(s) && n <= ISIZE_MAX
    ensures var s' := CStep(s, AllocBuffer(n));
      && |s'.held| == |s.held| + 1 && s.held <= s'.held
      && var x := s'.held[|s.held|];
         && !x.freed && x.handle.Buf? && x.handle.b.len == 0 && x.handle.b.capacity == n
         && Live(s'.heap) == Live(s.heap) + Blocks(x.handle) && Blocks(x.handle) !! Live(s.heap)
         && (Blocks(x.handle) == {} <==> n == 0)
  {
    NewBufferEffect(s.heap, n);
    if n > 0 {
      GrownEffect(s.heap, n, []);
    }
  }

  /** What `ffi_string_alloc` hands over: a copy of the text, or the null string if there is none or it
      is not UTF-8. */
  lemma StringHandsOver(s: CState, str: Option<seq<byte>>)
    requires CSafe(s) && CLegal(s, AllocString(str))
    ensures var s' := CStep(s, AllocString(str));
      && |s'.held| == |s.held| + 1 && s.held <= s'.held
      && var x := s'.held[|s.held|];
         && !x.freed && x.handle.Str?
         && if str.Some? && str.value != [] && Utf8.Valid(str.value)
            then x.handle.s.data.At? && Read(s'.heap, x.handle.s.data, x.handle.s.len) == (s'.heap, str.value)
            else x.handle.s == NULL_STRING && s'.heap == s.heap
  {
    if str.Some? && str.value != [] && Utf8.Valid(str.value) {
      StringNewEffect(s.heap, str.value);
      assert str.value[..|str.value|] == str.value;
    }
  }

  /** The struct that a legal call passes on. */
  function Given(s: CState, input: Option<nat>): FfiBuffer
    requires input.Some? ==> input.value < |s.held| && !s.held[input.value].handle.Str?
  {
    match input
    case None => NULL_BUFFER
    case Some(k) => match s.held[k].handle case Buf(b) => b case Res(r) => r.payload
  }

  /** What `ffi_echo` hands over: a result that carries the bytes of the input. */
  lemma EchoHandsOver(s: CState, input: Option<nat>, slack: nat)
    requires CSafe(s) && CLegal(s, CallEcho(input, slack))
    ensures var s' := CStep(s, CallEcho(input, slack));
      && |s'.held| == |s.held| + 1 && s.held <= s'.held
      && var x := s'.held[|s.held|];
         && !x.freed && x.handle.Res? && x.handle.r.code == FfiOk
         && AsSlice(s'.heap, x.handle.r.payload) == (s'.heap, AsSlice(s.heap, Given(s, input)).1)
  {
    assert input.Some? ==> HeldOK(s.heap, s.held[input.value]);
    EchoReturnsInput(s.heap, CInput(s, input), slack);
  }

  /** What an invoke hands over: a result whose code, like the new table, is that of the registry. */
  lemma InvokeHandsOver(s: CState, raw: Option<seq<byte>>, input: Option<nat>, cb: Callback)
    requires input.Some? ==> IsOpenInput(s, input.value)
    ensures var s' := CStep(s, CallInvoke(raw, input, cb));
      && |s'.held| == |s.held| + 1 && s.held <= s'.held
      && var x := s'.held[|s.held|];
         && !x.freed && x.handle.Res?
         && (s'.table, Coded(x.handle.r.code))
            == Apply(s.table, CInvoke(raw), ExitOf(cb(s.heap, Given(s, input)).1))
  {
    InvokeFollowsRegistry(s.heap, s.table, raw, CInput(s, input), cb);
  }

  /** The registry calls of a C client's run. */
  function CCallsOf(s: CState, ops: seq<COp>): seq<Entry>
    decreases |ops|
  {
    if ops == [] then []
    else
      (match ops[0]
       case CallInvoke(raw, input, cb) => [Entry(0, 0, CInvoke(raw), ExitOf(cb(s.heap, CInput(s, input)).1))]
       case Meanwhile(call, exit) => [Entry(0, 0, call, exit)]
       case _ => [])
      + CCallsOf(CStep(s, ops[0]), ops[1..])
  }

  lemma {:induction false} CRunReplaysCalls(s: CState, ops: seq<COp>)
    ensures CRun(s, ops).table == TableAfter(s.table, CCallsOf(s, ops))
    decreases |ops|
  {
    if ops != [] {
      var op, s1 := ops[0], CStep(s, ops[0]);
      CRunReplaysCalls(s1, ops[1..]);
      match op {
        case CallInvoke(raw, input, cb) =>
          var e := Entry(0, 0, CInvoke(raw), ExitOf(cb(s.heap, CInput(s, input)).1));
          InvokeFollowsRegistry(s.heap, s.table, raw, CInput(s, input), cb);
          ReplayOne(s.table, e);
          ReplaySplits(s.table, [e], CCallsOf(s1, ops[1..]));
        case Meanwhile(call, exit) =>
          ReplayOne(s.table, Entry(0, 0, call, exit));
          ReplaySplits(s.table, [Entry(0, 0, call, exit)], CCallsOf(s1, ops[1..]));
        case _ =>
          assert [] + CCallsOf(s1, ops[1..]) == CCallsOf(s1, ops[1..]);
      }
    }
  }

  lemma FilledReads(s: CState, k: nat, data: seq<byte>)
    requires CSafe(s) && CLegal(s, Fill(k, data))
    ensures var s' := CStep(s, Fill(k, data));
      AsSlice(s'.heap, Carried(s'.held[k].handle)) == (s'.heap, data)
  {
    assert HeldOK(s.heap, s.held[k]);
    if data != [] {
      CopyInTouchesOne(s.heap, s.held[k].handle.b.data, data);
      CopyInEffect(s.heap, s.held[k].handle.b.data, data);
    }
  }

  /** What a C client writes into a buffer it reads back, however long it waits. */
  lemma FilledStaysReadable(s: CState, k: nat, data: seq<byte>, ops: seq<COp>)
    requires CSafe(s) && CLegal(s, Fill(k, data)) && CLegalRun(CStep(s, Fill(k, data)), ops)
    requires CSparesRun(CStep(s, Fill(k, data)), ops, Blocks(s.held[k].handle))
    requires forall i :: 0 <= i < |ops| ==> !Touches(ops[i], k)
    ensures var s' := CRun(CStep(s, Fill(k, data)), ops);
      && k < |s'.held| && s'.held[k].handle.Buf?
      && AsSlice(s'.heap, s'.held[k].handle.b) == (s'.heap, data)
  {
    var s1 := CStep(s, Fill(k, data));
    CStepIsSafe(s, Fill(k, data));
    FilledReads(s, k, data);
    HandleStays(s1, ops, k);
    assert HeldOK(s1.heap, s1.held[k]);
    if data != [] {
      assert s1.held[k].handle.b.data.id in Blocks(s1.held[k].handle);
    }
  }
}
