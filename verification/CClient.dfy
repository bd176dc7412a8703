/** Whole runs of a C client under the ownership rules of the header (shared/ffi.h): whatever it
    receives it frees once, with the function that matches. */
module CClient {
  import opened Wrappers
  import opened Machine
  import opened Errors
  import opened Memory
  import opened Results
  import opened Registry
  import opened Ownership
  import opened Invoke
  import opened GoRuns
  import opened HandOver

  datatype Handle = Buf(b: FfiBuffer) | Str(s: FfiString) | Res(r: FfiResult)

  datatype Held = Held(handle: Handle, freed: bool)

  datatype CState = CState(heap: Heap, table: Table, held: seq<Held>, orphans: set<nat>)

  datatype COp =
    | AllocBuffer(capacity: nat)
    | Fill(k: nat, data: seq<byte>)            // write into a buffer and set its len
    | AllocString(str: Option<seq<byte>>)
    | Look(k: nat)                             // read a buffer or a result's payload
    | CallEcho(input: Option<nat>, slack: nat)
    | CallInvoke(raw: Option<seq<byte>>, input: Option<nat>, cb: Callback)
    | TakePayload(k: nat)                      // extract a result's payload and zero the field
    | FreeIt(k: nat)                           // the matching ffi_*_free
    | Meanwhile(call: Call, exit: Exit)        // another thread uses the registry

  function Blocks(x: Handle): set<nat> {
    match x
    case Buf(b) => Owns(b.data, b.capacity)
    case Str(s) => Owns(s.data, s.len)
    case Res(r) => Owns(r.message.data, r.message.len) + Owns(r.payload.data, r.payload.capacity)
  }

  function HeldBlocks(x: Held): set<nat> {
    if x.freed then {} else Blocks(x.handle)
  }

  function HeldSlots(held: seq<Held>): seq<set<nat>> {
    seq(|held|, i requires 0 <= i < |held| => HeldBlocks(held[i]))
  }

  function FreeHandle(h: Heap, x: Handle): Heap {
    match x
    case Buf(b) => BufferFree(h, b)
    case Str(s) => StringFree(h, s)
    case Res(r) => ResultFree(h, r)
  }

  predicate IsOpenBuffer(s: CState, k: nat) {
    k < |s.held| && !s.held[k].freed && s.held[k].handle.Buf?
  }

  /** A call may be given a buffer or the payload of a result, as long as it is not freed. */
  predicate IsOpenInput(s: CState, k: nat) {
    k < |s.held| && !s.held[k].freed && !s.held[k].handle.Str?
  }

  /** The buffer that a buffer or a result carries. */
  function Carried(x: Handle): FfiBuffer
    requires !x.Str?
  {
    match x
    case Buf(b) => b
    case Res(r) => r.payload
  }

  function CInput(s: CState, input: Option<nat>): FfiBuffer {
    if input.Some? && IsOpenInput(s, input.value) then Carried(s.held[input.value].handle) else NULL_BUFFER
  }

  /** The blocks of a callback's result that never reach the client. */
  function CLost(h: Heap, t: Table, raw: Option<seq<byte>>, input: FfiBuffer, cb: Callback): set<nat> {
    if !RunsClosure(t, raw) then {}
    else
      var e := cb(h, input).1;
      Fresh(h, Fields(e))
      - if e.Gave? && e.result.code == FfiOk then Owns(e.result.payload.data, e.result.payload.capacity) else {}
  }

  function Receive(s: CState, h: Heap, x: Handle): CState {
    s.(heap := h, held := s.held + [Held(x, false)])
  }

  function CStep(s: CState, op: COp): CState {
    match op
    case AllocBuffer(n) => var (h, b) := BufferNew(s.heap, n); Receive(s, h, Buf(b))
    case Fill(k, data) =>
      if !IsOpenBuffer(s, k) then s
      else
        var b := s.held[k].handle.b;
        s.(heap := if data == [] then s.heap else CopyIn(s.heap, b.data, data),
           held := s.held[k := Held(Buf(b.(len := |data|)), false)])
    case AllocString(str) => var (h, x) := StringAlloc(s.heap, str); Receive(s, h, Str(x))
    case Look(k) =>
      if k < |s.held| && !s.held[k].handle.Str? then s.(heap := AsSlice(s.heap, Carried(s.held[k].handle)).0) else s
    case CallEcho(input, slack) =>
      var (h, r) := Echo(s.heap, CInput(s, input), slack);
      Receive(s, h, Res(r))
    case CallInvoke(raw, input, cb) =>
      var inner := CInput(s, input);
      var (h, t, r) := FfiInvoke(s.heap, s.table, raw, inner, cb);
      Receive(s, h, Res(r)).(table := t, orphans := s.orphans + CLost(s.heap, s.table, raw, inner, cb))
    case TakePayload(k) =>
      if k < |s.held| && s.held[k].handle.Res? then
        var r := s.held[k].handle.r;
        var rest := Held(Res(r.(payload := NULL_BUFFER)), s.held[k].freed);
        s.(held := s.held[k := rest] + [Held(Buf(r.payload), false)])
      else s
    case FreeIt(k) =>
      if k < |s.held| then
        s.(heap := FreeHandle(s.heap, s.held[k].handle), held := s.held[k := s.held[k].(freed := true)])
      else s
    case Meanwhile(call, exit) => s.(table := Apply(s.table, call, exit).0)
  }

  /** Inputs are the client's own open buffers or payloads, a payload is taken out of an open result,
      and a handle is freed once. A callback keeps its contract, is tidy, and on success returns no
      payload, or a fresh one of a proper layout. */
  ghost predicate CLegal(s: CState, op: COp) {
    match op
    case AllocBuffer(n) => n <= ISIZE_MAX
    case Fill(k, data) =>
      && IsOpenBuffer(s, k) && |data| <= s.held[k].handle.b.capacity
      && (data != [] ==> !s.held[k].handle.b.data.Null?)
    case AllocString(str) => str.Some? ==> |str.value| <= ISIZE_MAX
    case Look(k) => k < |s.held| && !s.held[k].freed
    case CallEcho(input, slack) =>
      (input.Some? ==> IsOpenInput(s, input.value)) && CInput(s, input).len + slack <= ISIZE_MAX
    case CallInvoke(raw, input, cb) =>
      && (input.Some? ==> IsOpenInput(s, input.value))
      && CallOK(s.heap, s.table, Union(HeldSlots(s.held)), raw, CInput(s, input), cb)
      && (RunsClosure(s.table, raw) ==> Tidy(s.heap, cb, CInput(s, input)) && GivesFresh(s.heap, cb, CInput(s, input)))
    case TakePayload(k) => k < |s.held| && !s.held[k].freed && s.held[k].handle.Res?
    case FreeIt(k) => k < |s.held| && !s.held[k].freed
    case Meanwhile(_, _) => true
  }

  ghost predicate GivesFresh(h: Heap, cb: Callback, input: FfiBuffer) {
    var (h1, e) := cb(h, input);
    e.Gave? && e.result.code == FfiOk ==>
      BufferOK(h1, e.result.payload)
      && forall id :: id in Owns(e.result.payload.data, e.result.payload.capacity) ==> id >= |h.blocks|
  }

  function CRun(s: CState, ops: seq<COp>): CState
    decreases |ops|
  {
    if ops == [] then s else CRun(CStep(s, ops[0]), ops[1..])
  }

  ghost predicate CLegalRun(s: CState, ops: seq<COp>)
    decreases |ops|
  {
    ops == [] || (CLegal(s, ops[0]) && CLegalRun(CStep(s, ops[0]), ops[1..]))
  }

  // ---------- The invariant ----------

  ghost predicate HandleOK(h: Heap, x: Handle) {
    match x
    case Buf(b) => BufferOK(h, b)
    case Str(s) => Releasable(h, s.data, s.len)
    case Res(r) =>
      && Releasable(h, r.message.data, r.message.len) && BufferOK(h, r.payload)
      && Owns(r.message.data, r.message.len) !! Owns(r.payload.data, r.payload.capacity)
  }

  ghost predicate HeldOK(h: Heap, x: Held) {
    !x.freed ==> HandleOK(h, x.handle)
  }

  ghost predicate CSafe(s: CState) {
    && Sound(s.heap)
    && (forall i :: 0 <= i < |s.held| ==> HeldOK(s.heap, s.held[i]))
    && Balanced(s.heap, HeldSlots(s.held), s.orphans)
  }

  lemma ReleasableKept(h: Heap, h2: Heap, keep: set<nat>, p: Ptr, size: nat)
    requires Releasable(h, p, size) && Keeps(h, h2, keep) && Owns(p, size) <= keep
    ensures Releasable(h2, p, size)
  {
    if size > 0 && p.At? {
      assert p.id in Owns(p, size);
    }
  }

  lemma HeldKept(h: Heap, h2: Heap, keep: set<nat>, x: Held)
    requires HeldOK(h, x) && Keeps(h, h2, keep) && HeldBlocks(x) <= keep
    ensures HeldOK(h2, x)
  {
    if !x.freed {
      match x.handle {
        case Buf(b) => BufferKept(h, h2, keep, b);
        case Str(s) => ReleasableKept(h, h2, keep, s.data, s.len);
        case Res(r) =>
          BufferKept(h, h2, keep, r.payload);
          ReleasableKept(h, h2, keep, r.message.data, r.message.len);
      }
    }
  }

  lemma AllKept(s: CState, h2: Heap)
    requires CSafe(s) && Keeps(s.heap, h2, Union(HeldSlots(s.held)))
    ensures forall i :: 0 <= i < |s.held| ==> HeldOK(h2, s.held[i])
  {
    forall i | 0 <= i < |s.held|
      ensures HeldOK(h2, s.held[i])
    {
      SlotBelow(HeldSlots(s.held), i);
      assert HeldSlots(s.held)[i] == HeldBlocks(s.held[i]);
      HeldKept(s.heap, h2, Union(HeldSlots(s.held)), s.held[i]);
    }
  }

  lemma HeldAdd(held: seq<Held>, x: Held)
    ensures HeldSlots(held + [x]) == HeldSlots(held) + [HeldBlocks(x)]
  {
  }

  /** A new handle owns exactly the new live blocks that are not lost. */
  lemma Received(s: CState, h2: Heap, x: Handle, lost: set<nat>)
    requires CSafe(s) && Sound(h2) && Keeps(s.heap, h2, Union(HeldSlots(s.held))) && HandleOK(h2, x)
    requires Live(h2) == Live(s.heap) + lost + Blocks(x)
    requires lost !! Blocks(x) && lost !! Live(s.heap) && Blocks(x) !! Live(s.heap)
    ensures CSafe(Receive(s, h2, x).(orphans := s.orphans + lost))
  {
    AllKept(s, h2);
    HeldAdd(s.held, Held(x, false));
    BalancedAdd(s.heap, h2, HeldSlots(s.held), s.orphans, Blocks(x), lost);
  }

  lemma ReceivedWhole(s: CState, h2: Heap, x: Handle)
    requires CSafe(s) && Sound(h2) && Keeps(s.heap, h2, Union(HeldSlots(s.held))) && HandleOK(h2, x)
    requires Live(h2) == Live(s.heap) + Blocks(x) && Blocks(x) !! Live(s.heap)
    ensures CSafe(Receive(s, h2, x))
  {
    var none: set<nat> := {};
    assert Live(s.heap) + none + Blocks(x) == Live(s.heap) + Blocks(x);
    assert s.orphans + none == s.orphans;
    Received(s, h2, x, none);
    assert Receive(s, h2, x).(orphans := s.orphans + none) == Receive(s, h2, x);
  }

  // ---------- One step ----------

  lemma AllocBufferStep(s: CState, n: nat)
    requires CSafe(s) && n <= ISIZE_MAX
    ensures CSafe(CStep(s, AllocBuffer(n)))
  {
    NewBufferEffect(s.heap, n);
    if n == 0 {
      ReceivedWhole(s, s.heap, Buf(NULL_BUFFER));
    } else {
      GrownEffect(s.heap, n, []);
      ReceivedWhole(s, Grown(s.heap, n, []), Buf(FfiBuffer(At(|s.heap.blocks|), 0, n)));
    }
  }

  lemma AllocStringStep(s: CState, str: Option<seq<byte>>)
    requires CSafe(s) && CLegal(s, AllocString(str))
    ensures CSafe(CStep(s, AllocString(str)))
  {
    var (h2, x) := StringAlloc(s.heap, str);
    if h2 == s.heap && x == NULL_STRING {
      ReceivedWhole(s, s.heap, Str(NULL_STRING));
    } else {
      StringNewEffect(s.heap, str.value);
      GrownEffect(s.heap, |str.value|, str.value);
      ReceivedWhole(s, h2, Str(x));
    }
  }

  lemma FilledOK(h: Heap, b: FfiBuffer, data: seq<byte>)
    requires Sound(h) && BufferOK(h, b) && |data| <= b.capacity && (data != [] ==> !b.data.Null?)
    ensures var h2 := if data == [] then h else CopyIn(h, b.data, data);
      Sound(h2) && Live(h2) == Live(h) && Keeps(h, h2, All(h)) && BufferOK(h2, b.(len := |data|))
  {
    if data != [] {
      CopyInEffect(h, b.data, data);
    }
  }

  lemma SameSlots(held: seq<Held>, k: nat, x: Held)
    requires k < |held| && HeldBlocks(x) == HeldBlocks(held[k])
    ensures HeldSlots(held[k := x]) == HeldSlots(held)
  {
  }

  lemma FillStep(s: CState, k: nat, data: seq<byte>)
    requires CSafe(s) && CLegal(s, Fill(k, data))
    ensures CSafe(CStep(s, Fill(k, data)))
  {
    var s' := CStep(s, Fill(k, data));
    assert HeldOK(s.heap, s.held[k]);
    FilledOK(s.heap, s.held[k].handle.b, data);
    SameSlots(s.held, k, s'.held[k]);
    AllKept(s, s'.heap);
  }

  lemma LookStep(s: CState, k: nat)
    requires CSafe(s) && CLegal(s, Look(k))
    ensures CStep(s, Look(k)) == s
  {
    assert HeldOK(s.heap, s.held[k]);
  }

  /** A client may look at its buffer or payload exactly as long as the bytes are there. */
  lemma LookFaultsIff(s: CState, k: nat)
    requires !s.heap.fault && k < |s.held| && !s.held[k].handle.Str?
    ensures var b := Carried(s.held[k].handle);
      CStep(s, Look(k)).heap.fault <==> !b.data.Null? && !CanRead(s.heap, b.data, b.len)
  {
  }

  lemma EchoStep(s: CState, input: Option<nat>, slack: nat)
    requires CSafe(s) && CLegal(s, CallEcho(input, slack))
    ensures CSafe(CStep(s, CallEcho(input, slack)))
  {
    var b := CInput(s, input);
    assert input.Some? ==> HeldOK(s.heap, s.held[input.value]);
    var bytes := AsSlice(s.heap, b).1;
    EchoResult(s.heap, b, slack);
    VecHandle(s.heap, Union(HeldSlots(s.held)), bytes, slack);
    var (h2, v) := FromVec(s.heap, bytes, slack);
    ReceivedWhole(s, h2, Res(ResultOk(v)));
  }

  lemma VecHandle(h: Heap, keep: set<nat>, bytes: seq<byte>, slack: nat)
    requires Sound(h) && |bytes| + slack <= ISIZE_MAX
    ensures var (h2, v) := FromVec(h, bytes, slack);
      && Sound(h2) && Keeps(h, h2, keep) && BufferOK(h2, v)
      && Live(h2) == Live(h) + Owns(v.data, v.capacity) && Owns(v.data, v.capacity) !! Live(h)
  {
    VecIsOK(h, keep, bytes, slack);
    FromVecEffect(h, bytes, slack);
  }

  lemma InvokeOkStep(s: CState, raw: Option<seq<byte>>, input: Option<nat>, cb: Callback)
    requires CSafe(s) && CLegal(s, CallInvoke(raw, input, cb))
    requires Failure(s.heap, s.table, raw, CInput(s, input), cb).None?
    ensures CSafe(CStep(s, CallInvoke(raw, input, cb)))
  {
    var b := CInput(s, input);
    ResultShape(s.heap, s.table, raw, b, cb);
    var (h1, e) := cb(s.heap, b);
    OwnedBelow(h1, e.result.payload);
    Received(s, h1, Res(ResultOk(e.result.payload)), CLost(s.heap, s.table, raw, b, cb));
  }

  lemma CLostOnErr(h: Heap, t: Table, raw: Option<seq<byte>>, input: FfiBuffer, cb: Callback)
    requires Failure(h, t, raw, input, cb).Some?
    requires RunsClosure(t, raw) ==> Tidy(h, cb, input)
    ensures Live(AfterClosure(h, t, raw, input, cb)) == Live(h) + CLost(h, t, raw, input, cb)
    ensures forall id :: id in CLost(h, t, raw, input, cb) ==> id >= |h.blocks|
  {
  }

  lemma InvokeErrStep(s: CState, raw: Option<seq<byte>>, input: Option<nat>, cb: Callback)
    requires CSafe(s) && CLegal(s, CallInvoke(raw, input, cb))
    requires Failure(s.heap, s.table, raw, CInput(s, input), cb).Some?
    ensures CSafe(CStep(s, CallInvoke(raw, input, cb)))
  {
    var b := CInput(s, input);
    var keep := Union(HeldSlots(s.held));
    var f := Failure(s.heap, s.table, raw, b, cb).value;
    var h1 := AfterClosure(s.heap, s.table, raw, b, cb);
    ClosureEffect(s.heap, s.table, keep, raw, b, cb);
    CLostOnErr(s.heap, s.table, raw, b, cb);
    ErrHandle(s.heap, h1, keep, f);
    var (h2, r) := ResultErr(h1, f);
    Received(s, h2, Res(r), CLost(s.heap, s.table, raw, b, cb));
    InvokeErrIs(s, raw, input, cb);
  }

  lemma InvokeErrIs(s: CState, raw: Option<seq<byte>>, input: Option<nat>, cb: Callback)
    requires Failure(s.heap, s.table, raw, CInput(s, input), cb).Some?
    ensures var b := CInput(s, input);
      var (h2, r) := ResultErr(AfterClosure(s.heap, s.table, raw, b, cb), Failure(s.heap, s.table, raw, b, cb).value);
      var s' := CStep(s, CallInvoke(raw, input, cb));
      s' == Receive(s, h2, Res(r)).(orphans := s.orphans + CLost(s.heap, s.table, raw, b, cb), table := s'.table)
  {
    ResultShape(s.heap, s.table, raw, CInput(s, input), cb);
  }

  lemma ErrHandle(h: Heap, h1: Heap, keep: set<nat>, e: FfiError)
    requires Sound(h1) && Keeps(h, h1, keep) && |Message(e)| <= ISIZE_MAX
    ensures var (h2, r) := ResultErr(h1, e);
      && Sound(h2) && Keeps(h, h2, keep) && HandleOK(h2, Res(r))
      && Blocks(Res(r)) == {|h1.blocks|} && Live(h2) == Live(h1) + {|h1.blocks|}
  {
    var m := Message(e);
    ErrEffect(h1, e);
    GrownEffect(h1, |m|, m);
    GrowKeeps(h, h1, keep, |m|, m);
    var (h2, r) := ResultErr(h1, e);
    assert r.payload == NULL_BUFFER && Owns(r.message.data, r.message.len) == {|h1.blocks|};
    assert h2.blocks[|h1.blocks|] == Block(|m|, m, true);
  }

  lemma FreeHandleEffect(h: Heap, x: Handle)
    requires Sound(h) && HandleOK(h, x)
    ensures var h2 := FreeHandle(h, x);
      && Sound(h2) && |h2.blocks| == |h.blocks| && Live(h2) == Live(h) - Blocks(x)
      && Keeps(h, h2, All(h) - Blocks(x))
  {
    match x {
      case Buf(b) => ReleaseEffect(h, b.data, b.capacity);
      case Str(s) => ReleaseEffect(h, s.data, s.len);
      case Res(r) => BothFreed(h, r);
    }
  }

  lemma ClearHeld(h: Heap, h2: Heap, held: seq<Held>, orphans: set<nat>, k: nat)
    requires k < |held| && Balanced(h, HeldSlots(held), orphans)
    requires Live(h2) == Live(h) - HeldBlocks(held[k])
    ensures Balanced(h2, HeldSlots(held[k := held[k].(freed := true)]), orphans)
  {
    var slots := HeldSlots(held);
    assert HeldSlots(held[k := held[k].(freed := true)]) == slots[k := {}];
    assert slots[k] == HeldBlocks(held[k]);
    UnionClear(slots, k);
    SlotBelow(slots, k);
  }

  lemma FreeItStep(s: CState, k: nat)
    requires CSafe(s) && CLegal(s, FreeIt(k))
    ensures CSafe(CStep(s, FreeIt(k)))
    ensures var s' := CStep(s, FreeIt(k));
      && Live(s'.heap) == Live(s.heap) - Blocks(s.held[k].handle) && s'.held == s.held[k := s.held[k].(freed := true)]
  {
    assert HeldOK(s.heap, s.held[k]);
    FreeHandleEffect(s.heap, s.held[k].handle);
    var h2 := FreeHandle(s.heap, s.held[k].handle);
    ClearHeld(s.heap, h2, s.held, s.orphans, k);
    OtherHandlesKept(s, k, h2);
  }

  lemma OtherHandlesKept(s: CState, k: nat, h2: Heap)
    requires CSafe(s) && k < |s.held| && Keeps(s.heap, h2, All(s.heap) - HeldBlocks(s.held[k]))
    ensures forall i :: 0 <= i < |s.held| && i != k ==> HeldOK(h2, s.held[i])
  {
    var slots := HeldSlots(s.held);
    forall i | 0 <= i < |s.held| && i != k
      ensures HeldOK(h2, s.held[i])
    {
      SlotBelow(slots, i);
      assert slots[k] == HeldBlocks(s.held[k]) && slots[i] == HeldBlocks(s.held[i]) && slots[i] !! slots[k];
      HeldKept(s.heap, h2, All(s.heap) - HeldBlocks(s.held[k]), s.held[i]);
    }
  }

  /** A slot that is split in two. */
  lemma SplitSlot(slots: seq<set<nat>>, k: nat, a: set<nat>, b: set<nat>)
    requires k < |slots| && slots[k] == a + b && a !! b && Disjoint(slots)
    ensures Disjoint(slots[k := a] + [b]) && Union(slots[k := a] + [b]) == Union(slots)
  {
    var split := slots[k := a] + [b];
    forall id | id in Union(slots)
      ensures id in Union(split)
    {
      var i :| 0 <= i < |slots| && id in slots[i];
      assert id in split[i] || id in split[|slots|];
    }
    forall id | id in Union(split)
      ensures id in Union(slots)
    {
      var i :| 0 <= i < |split| && id in split[i];
      assert id in slots[if i < |slots| then i else k];
    }
  }

  lemma TakenOK(h: Heap, r: FfiResult)
    requires HandleOK(h, Res(r))
    ensures var rest := r.(payload := NULL_BUFFER);
      && HandleOK(h, Res(rest)) && HandleOK(h, Buf(r.payload))
      && Blocks(Res(r)) == Blocks(Res(rest)) + Blocks(Buf(r.payload))
      && Blocks(Res(rest)) !! Blocks(Buf(r.payload))
  {
  }

  lemma SplitHeld(held: seq<Held>, k: nat, rest: Held, taken: Held)
    requires k < |held| && Disjoint(HeldSlots(held))
    requires HeldBlocks(held[k]) == HeldBlocks(rest) + HeldBlocks(taken) && HeldBlocks(rest) !! HeldBlocks(taken)
    ensures Disjoint(HeldSlots(held[k := rest] + [taken]))
    ensures Union(HeldSlots(held[k := rest] + [taken])) == Union(HeldSlots(held))
  {
    SplitSlot(HeldSlots(held), k, HeldBlocks(rest), HeldBlocks(taken));
    HeldAdd(held[k := rest], taken);
    assert HeldSlots(held[k := rest]) == HeldSlots(held)[k := HeldBlocks(rest)];
  }

  /** The ownership transfer of the header's last rule: the payload changes hands whole, and result
      and buffer can then be freed in any order. */
  lemma TakePayloadStep(s: CState, k: nat)
    requires CSafe(s) && CLegal(s, TakePayload(k))
    ensures var s' := CStep(s, TakePayload(k));
      CSafe(s') && s'.heap == s.heap && Union(HeldSlots(s'.held)) == Union(HeldSlots(s.held))
    ensures var s' := CStep(s, TakePayload(k));
      var r := s.held[k].handle.r;
      && |s'.held| == |s.held| + 1 && s'.held[|s.held|] == Held(Buf(r.payload), false)
      && !s'.held[k].freed && Blocks(s'.held[k].handle) == Owns(r.message.data, r.message.len)
      && s'.held[k].handle.Res? && s'.held[k].handle.r.message == r.message && s'.held[k].handle.r.code == r.code
      && s'.held[k].handle.r.payload == NULL_BUFFER
      && forall i :: 0 <= i < |s.held| && i != k ==> s'.held[i] == s.held[i]
  {
    var r := s.held[k].handle.r;
    assert HeldOK(s.heap, s.held[k]);
    TakenOK(s.heap, r);
    SplitHeld(s.held, k, Held(Res(r.(payload := NULL_BUFFER)), false), Held(Buf(r.payload), false));
  }

  lemma CStepIsSafe(s: CState, op: COp)
    requires CSafe(s) && CLegal(s, op)
    ensures CSafe(CStep(s, op))
  {
    match op
    case AllocBuffer(n) => AllocBufferStep(s, n);
    case Fill(k, data) => FillStep(s, k, data);
    case AllocString(str) => AllocStringStep(s, str);
    case Look(k) => LookStep(s, k);
    case CallEcho(input, slack) => EchoStep(s, input, slack);
    case CallInvoke(raw, input, cb) =>
      if Failure(s.heap, s.table, raw, CInput(s, input), cb).None? {
        InvokeOkStep(s, raw, input, cb);
      } else {
        InvokeErrStep(s, raw, input, cb);
      }
    case TakePayload(k) => TakePayloadStep(s, k);
    case FreeIt(k) => FreeItStep(s, k);
    case Meanwhile(_, _) =>
  }

  // ---------- Whole runs ----------

  /** Over every run under the header's rules there is no fault, and every live block belongs to
      one handle that is still open or was lost by a callback. */
  lemma {:induction false} CRunIsSafe(s: CState, ops: seq<COp>)
    requires CSafe(s) && CLegalRun(s, ops)
    ensures CSafe(CRun(s, ops))
    ensures Live(CRun(s, ops).heap) == Union(HeldSlots(CRun(s, ops).held)) + CRun(s, ops).orphans
    decreases |ops|
  {
    if ops != [] {
      CStepIsSafe(s, ops[0]);
      CRunIsSafe(CStep(s, ops[0]), ops[1..]);
    }
  }

  /** The callbacks of a run that succeed return `ok` of a fresh payload and nothing else; any that
      fails does so without a block of its own in the result. */
  ghost predicate NothingLost(s: CState, ops: seq<COp>)
    decreases |ops|
  {
    ops == [] ||
    (&& (ops[0].CallInvoke? ==> CLost(s.heap, s.table, ops[0].raw, CInput(s, ops[0].input), ops[0].cb) == {})
     && NothingLost(CStep(s, ops[0]), ops[1..]))
  }

  lemma {:induction false} OrphansUnchanged(s: CState, ops: seq<COp>)
    requires NothingLost(s, ops)
    ensures CRun(s, ops).orphans == s.orphans
    decreases |ops|
  {
    if ops != [] {
      OrphansUnchanged(CStep(s, ops[0]), ops[1..]);
    }
  }

  lemma InvokeGrows(h: Heap, t: Table, keep: set<nat>, raw: Option<seq<byte>>, input: FfiBuffer, cb: Callback)
    requires Sound(h) && CallOK(h, t, keep, raw, input, cb)
    ensures |h.blocks| <= |FfiInvoke(h, t, raw, input, cb).0.blocks|
  {
    ClosureEffect(h, t, keep, raw, input, cb);
    ResultShape(h, t, raw, input, cb);
  }

  lemma CStepGrows(s: CState, op: COp)
    requires CSafe(s) && CLegal(s, op)
    ensures |s.heap.blocks| <= |CStep(s, op).heap.blocks|
  {
    if op.CallInvoke? {
      InvokeGrows(s.heap, s.table, Union(HeldSlots(s.held)), op.raw, CInput(s, op.input), op.cb);
    }
  }

  /** What is lost is new, and it stays lost. */
  lemma {:induction false} LossIsForever(s: CState, ops: seq<COp>, n: nat)
    requires CSafe(s) && CLegalRun(s, ops) && n <= |s.heap.blocks|
    ensures s.orphans <= CRun(s, ops).orphans
    ensures !NothingLost(s, ops) ==> exists id :: id in CRun(s, ops).orphans && id >= n
    decreases |ops|
  {
    if ops != [] {
      var s1 := CStep(s, ops[0]);
      CStepIsSafe(s, ops[0]);
      CStepGrows(s, ops[0]);
      LossIsForever(s1, ops[1..], n);
      if ops[0].CallInvoke? {
        var lost := CLost(s.heap, s.table, ops[0].raw, CInput(s, ops[0].input), ops[0].cb);
        if lost != {} {
          var id :| id in lost;
          assert id in s1.orphans && id >= n;
        }
      }
    }
  }

  /** The zero-leak discipline: a run that frees each handle it received ends with exactly the live
      blocks it began with, if and only if no callback of the run lost a block. */
  lemma ZeroLeak(h: Heap, t: Table, ops: seq<COp>)
    requires Sound(h) && CLegalRun(CState(h, t, [], Live(h)), ops)
    requires forall i :: 0 <= i < |CRun(CState(h, t, [], Live(h)), ops).held| ==>
               CRun(CState(h, t, [], Live(h)), ops).held[i].freed
    ensures Live(CRun(CState(h, t, [], Live(h)), ops).heap) == Live(h) <==> NothingLost(CState(h, t, [], Live(h)), ops)
    ensures !CRun(CState(h, t, [], Live(h)), ops).heap.fault
  {
    var s := CState(h, t, [], Live(h));
    assert Union(HeldSlots(s.held)) == {};
    CRunIsSafe(s, ops);
    var slots := HeldSlots(CRun(s, ops).held);
    assert forall i :: 0 <= i < |slots| ==> slots[i] == {};
    assert Union(slots) == {};
    if NothingLost(s, ops) {
      OrphansUnchanged(s, ops);
    } else {
      LossIsForever(s, ops, |h.blocks|);
    }
  }

  /** A closure that allocates a payload, returns `ok` of it and keeps nothing else obeys every rule,
      and none of its blocks is lost. */
  lemma OkLosesNothing(h: Heap, t: Table, borrowed: set<nat>, raw: Option<seq<byte>>, input: FfiBuffer, cb: Callback)
    requires var (h1, e) := cb(h, input);
      && e.Gave? && e.result == ResultOk(e.result.payload)
      && var v := e.result.payload;
      && Sound(h1) && Keeps(h, h1, borrowed) && BufferOK(h1, v) && (v.data.At? ==> v.capacity > 0)
      && Live(h1) == Live(h) + Owns(v.data, v.capacity)
      && forall id :: id in Owns(v.data, v.capacity) ==> id >= |h.blocks|
    ensures CLost(h, t, raw, input, cb) == {}
    ensures Obeys(h, borrowed, cb, input) && Tidy(h, cb, input) && GivesFresh(h, cb, input)
  {
  }

  /** The echo closure is such a closure. */
  lemma EchoLosesNothing(h: Heap, t: Table, borrowed: set<nat>, raw: Option<seq<byte>>, input: FfiBuffer, slack: nat)
    requires Sound(h) && BufferOK(h, input) && input.len + slack <= ISIZE_MAX
    ensures var cb := EchoClosure(slack);
      && CLost(h, t, raw, input, cb) == {}
      && Obeys(h, borrowed, cb, input) && Tidy(h, cb, input) && GivesFresh(h, cb, input)
  {
    var bytes := AsSlice(h, input).1;
    EchoResult(h, input, slack);
    VecHandle(h, borrowed, bytes, slack);
    FromVecEffect(h, bytes, slack);
    OkLosesNothing(h, t, borrowed, raw, input, EchoClosure(slack));
  }

  /** Why a payload has to be fresh: if a callback returns its own input, a client that frees both
      the buffer and the result goes wrong, exactly when the buffer owns a block. */
  lemma AliasedPayloadFreedTwice(h: Heap, b: FfiBuffer)
    requires Sound(h) && BufferOK(h, b)
    ensures IdentityClosure()(h, b) == (h, Gave(ResultOk(b)))
    ensures ResultFree(BufferFree(h, b), ResultOk(b)).fault <==> b.capacity > 0 && !b.data.Null?
  {
    ReleaseEffect(h, b.data, b.capacity);
    if b.capacity > 0 && !b.data.Null? {
      SecondFreeFaults(h, b.data, b.capacity);
    }
  }

  /** Why the field has to be zeroed: a client that takes the payload and frees the result without
      zeroing goes wrong when it frees the payload, exactly if that owns a block; zeroed, the two
      frees end the lives of all blocks of the result and nothing else. */
  lemma ZeroBeforeFree(h: Heap, r: FfiResult)
    requires Sound(h) && HandleOK(h, Res(r))
    ensures BufferFree(ResultFree(h, r), r.payload).fault <==> r.payload.capacity > 0 && !r.payload.data.Null?
    ensures var h2 := BufferFree(ResultFree(h, r.(payload := NULL_BUFFER)), r.payload);
      Sound(h2) && Live(h2) == Live(h) - Blocks(Res(r))
  {
    BothFreed(h, r);
    if r.payload.capacity > 0 && !r.payload.data.Null? {
      SecondFreeFaults(StringFree(h, r.message), r.payload.data, r.payload.capacity);
    }
    assert ResultFree(h, r.(payload := NULL_BUFFER)) == StringFree(h, r.message);
  }
}
