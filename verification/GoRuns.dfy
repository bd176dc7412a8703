/** Whole runs of a Go client, with callbacks that keep the borrowing contract: the heap stays
    sound, and a ledger accounts for every live block. */
module GoRuns {
  import opened Wrappers
  import opened Machine
  import opened Errors
  import opened Names
  import opened Memory
  import opened Results
  import opened Registry
  import opened Ownership
  import opened Invoke
  import opened GoBuffer
  import opened GoCalls

  // ---------- The contract of a callback ----------

  function PtrBlock(p: Ptr): set<nat> {
    if p.At? then {p.id} else {}
  }

  /** The blocks a callback's result points at. */
  function Fields(e: Ending): set<nat> {
    match e
    case Threw(_) => {}
    case Gave(r) => PtrBlock(r.message.data) + PtrBlock(r.payload.data)
  }

  function Fresh(h: Heap, ids: set<nat>): set<nat> {
    set id | id in ids && id >= |h.blocks|
  }

  /** A callback commits no fault and does not free what it borrows; its payload is null, fresh or
      an alias of some live block, and readable for its length. */
  ghost predicate Obeys(h: Heap, borrowed: set<nat>, cb: Callback, input: FfiBuffer) {
    var (h1, e) := cb(h, input);
    && Sound(h1) && Keeps(h, h1, borrowed)
    && Fields(e) <= Live(h1)
    && (e.Gave? ==> CanRead(h1, e.result.payload.data, e.result.payload.len))
  }

  /** It leaves no live block of its own except through the result it returns. */
  ghost predicate Tidy(h: Heap, cb: Callback, input: FfiBuffer) {
    var (h1, e) := cb(h, input);
    Live(h1) == Live(h) + Fresh(h, Fields(e))
  }

  // ---------- Runs ----------

  /** `orphans` records the blocks that no Go value owns any more. */
  datatype GoState = GoState(heap: Heap, table: Table, owners: seq<Owner>, orphans: set<nat>)

  datatype GoOp =
    | New(capacity: int)
    | Make(data: seq<byte>)
    | ReadBytes(b: nat)
    | CallFree(b: nat)
    | Collect(b: nat)
    | Invoke(goName: seq<byte>, input: Option<nat>, cb: Callback)
    | Elsewhere(call: Call, exit: Exit)   // another thread uses the registry

  function InputOf(s: GoState, input: Option<nat>): FfiBuffer {
    if input.Some? && input.value < |s.owners| then s.owners[input.value].inner else NULL_BUFFER
  }

  function OwnerBlocks(b: Owner): set<nat> {
    if b.freed then {} else Owns(b.inner.data, b.inner.capacity)
  }

  function Slots(owners: seq<Owner>): seq<set<nat>> {
    seq(|owners|, i requires 0 <= i < |owners| => OwnerBlocks(owners[i]))
  }

  /** What a callback's result loses on its way to the caller: on failure both of its fields, on
      success its message, and the payload too, since `CheckResult` clears that field of its copy
      before freeing it. A failure message too long for Go to read is lost as well. */
  function Lost(h: Heap, t: Table, raw: Option<seq<byte>>, input: FfiBuffer, cb: Callback): set<nat> {
    var r := FfiInvoke(h, t, raw, input, cb).2;
    (if RunsClosure(t, raw) then Fresh(h, Fields(cb(h, input).1)) else {})
    + (if r.code != FfiOk && CInt(r.message.len) < 0 then PtrBlock(r.message.data) else {})
  }

  function Step(s: GoState, op: GoOp): GoState {
    match op
    case New(n) =>
      var (h, b) := NewBuffer(s.heap, if n < 0 then 0 else n);
      s.(heap := h, owners := s.owners + [b])
    case Make(data) =>
      var (h, b) := FromBytes(s.heap, data);
      s.(heap := h, owners := s.owners + [b])
    case ReadBytes(b) =>
      if b < |s.owners| then s.(heap := Contents(s.heap, s.owners[b]).0) else s
    case CallFree(b) =>
      if b < |s.owners| then
        var (h, o) := FreeOwner(s.heap, s.owners[b]); s.(heap := h, owners := s.owners[b := o])
      else s
    case Collect(b) =>
      if b < |s.owners| then
        var (h, o) := Finalize(s.heap, s.owners[b]); s.(heap := h, owners := s.owners[b := o])
      else s
    case Invoke(goName, input, cb) =>
      var inner := InputOf(s, input);
      var (h, t, c) := InvokeCallback(s.heap, s.table, goName, inner, cb);
      GoState(h, t, if c.Received? then s.owners + [c.buffer] else s.owners,
              s.orphans + Lost(s.heap, s.table, Some(CString(goName)), inner, cb))
    case Elsewhere(call, exit) => s.(table := Apply(s.table, call, exit).0)
  }

  /** What no callback may change: the blocks of unfreed owners, which it borrows at most, and the
      dead blocks, since a block once freed never comes back. */
  function Untouchable(s: GoState): set<nat> {
    Union(Slots(s.owners)) + Dead(s.heap)
  }

  /** Go's capacities and slices, an input that is not freed, and callbacks that obey the contract.
      A finalizer may run between any two operations. */
  ghost predicate Legal(s: GoState, op: GoOp) {
    match op
    case New(n) => 0 <= n <= ISIZE_MAX
    case Make(data) => |data| <= ISIZE_MAX
    case ReadBytes(b) => b < |s.owners|
    case CallFree(b) => b < |s.owners|
    case Collect(b) => b < |s.owners|
    case Invoke(goName, input, cb) =>
      && (input.Some? ==> input.value < |s.owners| && !s.owners[input.value].freed)
      && CallOK(s.heap, s.table, Untouchable(s), Some(CString(goName)), InputOf(s, input), cb)
    case Elsewhere(_, _) => true
  }

  /** The closure, if run, obeys the contract, and the failure text is one a `String` can hold. */
  ghost predicate CallOK(h: Heap, t: Table, borrowed: set<nat>, raw: Option<seq<byte>>, input: FfiBuffer,
                         cb: Callback)
  {
    && (RunsClosure(t, raw) ==> Obeys(h, borrowed, cb, input))
    && var f := Failure(h, t, raw, input, cb); f.Some? ==> |Message(f.value)| <= ISIZE_MAX
  }

  ghost predicate TidyOp(s: GoState, op: GoOp) {
    op.Invoke? && RunsClosure(s.table, Some(CString(op.goName))) ==> Tidy(s.heap, op.cb, InputOf(s, op.input))
  }

  function Run(s: GoState, ops: seq<GoOp>): GoState
    decreases |ops|
  {
    if ops == [] then s else Run(Step(s, ops[0]), ops[1..])
  }

  ghost predicate LegalRun(s: GoState, ops: seq<GoOp>)
    decreases |ops|
  {
    ops == [] || (Legal(s, ops[0]) && LegalRun(Step(s, ops[0]), ops[1..]))
  }

  ghost predicate TidyRun(s: GoState, ops: seq<GoOp>)
    decreases |ops|
  {
    ops == [] || (TidyOp(s, ops[0]) && TidyRun(Step(s, ops[0]), ops[1..]))
  }

  // ---------- The invariant ----------

  /** A struct that may be freed and read as it stands. */
  ghost predicate BufferOK(h: Heap, b: FfiBuffer) {
    Releasable(h, b.data, b.capacity) && b.len <= b.capacity <= ISIZE_MAX && CanRead(h, b.data, b.len)
  }

  /** What is left of a struct that has been freed: the block it names is dead. */
  ghost predicate Gone(h: Heap, b: FfiBuffer) {
    && b.len <= b.capacity && (b.len > 0 ==> b.data.At?)
    && Owns(b.data, b.capacity) <= Dead(h)
  }

  ghost predicate OwnerOK(h: Heap, b: Owner) {
    b.finalizer == !b.freed && (if b.freed then Gone(h, b.inner) else BufferOK(h, b.inner))
  }

  /** The heap is sound, unfreed owners own pairwise disjoint live blocks of their layout, and the
      blocks of freed owners are dead. */
  ghost predicate Safe(s: GoState) {
    && Sound(s.heap)
    && (forall i :: 0 <= i < |s.owners| ==> OwnerOK(s.heap, s.owners[i]))
    && Disjoint(Slots(s.owners))
  }

  /** The ledger: every live block belongs to one unfreed owner or is a recorded orphan. */
  ghost predicate Accounted(s: GoState) {
    Balanced(s.heap, Slots(s.owners), s.orphans)
  }

  // ---------- Effects of the parts ----------

  lemma NewBufferEffect(h: Heap, n: nat)
    requires n <= ISIZE_MAX
    ensures NewBuffer(h, n) == if n == 0 then (h, Wrap(NULL_BUFFER))
                               else (Grown(h, n, []), Wrap(FfiBuffer(At(|h.blocks|), 0, n)))
  {
  }

  lemma FromBytesEffect(h: Heap, data: seq<byte>)
    requires |data| <= ISIZE_MAX
    ensures FromBytes(h, data) == if data == [] then (h, Wrap(NULL_BUFFER))
                                  else (Grown(h, |data|, data), Wrap(FfiBuffer(At(|h.blocks|), |data|, |data|)))
  {
    if data != [] {
      AllocAndFill(h, |data|, data);
    }
  }

  /** Reads the boundary makes of a readable range never go past it. */
  lemma CopyEffect(h: Heap, p: Ptr, n: nat)
    requires CanRead(h, p, n) && n > 0
    ensures GoCopy(h, p, CInt(n)) ==
            (h, if CInt(n) < 0 then OutOfRange else Bytes(h.blocks[p.id].bytes[..CInt(n)]))
  {
  }

  lemma CheckOkEffect(h: Heap, payload: FfiBuffer)
    requires Sound(h) && CanRead(h, payload.data, payload.len)
    ensures var n := CInt(payload.len);
      CheckResult(h, ResultOk(payload)) ==
        if payload.data.Null? || payload.len == 0 then (h, Received(Wrap(NULL_BUFFER)))
        else if n < 0 then (h, GoPanic)
        else var (h2, b) := FromBytes(h, h.blocks[payload.data.id].bytes[..n]); (h2, Received(b))
  {
    if payload.len > 0 {
      CopyEffect(h, payload.data, payload.len);
    }
  }

  lemma CheckErrEffect(h: Heap, e: FfiError)
    requires Sound(h) && |Message(e)| <= ISIZE_MAX
    ensures var (h1, r) := ResultErr(h, e);
      var m := Message(e);
      && h1 == Grown(h, |m|, m) && r.message.data == At(|h.blocks|) && r.message.len == |m| && r.code == Code(e)
      && CheckResult(h1, r) == if CInt(|m|) < 0 then (h1, GoPanic)
                               else (Release(h1, At(|h.blocks|), |m|), Checked.Refused(Code(e), m[..CInt(|m|)]))
  {
    ErrEffect(h, e);
    ErrorsAreNotOk(e);
    var (h1, r) := ResultErr(h, e);
    CopyEffect(h1, r.message.data, r.message.len);
  }

  /** What an invoke does to a sound heap, for blocks `keep` that the closure has to leave alone. */
  ghost predicate Delivered(h: Heap, keep: set<nat>, h2: Heap, c: Checked) {
    && Sound(h2) && Keeps(h, h2, keep)
    && (c.Received? ==>
          && OwnerOK(h2, c.buffer) && !c.buffer.freed
          && forall id :: id in OwnerBlocks(c.buffer) ==> id >= |h.blocks|)
  }

  function ReceivedBlocks(c: Checked): set<nat> {
    if c.Received? then OwnerBlocks(c.buffer) else {}
  }

  lemma GrowKeeps(h: Heap, h1: Heap, keep: set<nat>, size: nat, bytes: seq<byte>)
    requires Keeps(h, h1, keep)
    ensures Keeps(h, Grown(h1, size, bytes), keep)
  {
  }

  lemma FreeLastKeeps(h: Heap, h1: Heap, keep: set<nat>, size: nat, bytes: seq<byte>)
    requires Keeps(h, h1, keep) && Sound(h1) && 0 < size <= ISIZE_MAX && |bytes| <= size
    ensures var h2 := Release(Grown(h1, size, bytes), At(|h1.blocks|), size);
      Sound(h2) && Keeps(h, h2, keep) && Live(h2) == Live(h1)
  {
    GrownEffect(h1, size, bytes);
    ReleaseEffect(Grown(h1, size, bytes), At(|h1.blocks|), size);
  }

  lemma DeliverOk(h: Heap, h1: Heap, keep: set<nat>, payload: FfiBuffer)
    requires Sound(h1) && Keeps(h, h1, keep) && CanRead(h1, payload.data, payload.len)
    ensures var (h2, c) := CheckResult(h1, ResultOk(payload));
      && Delivered(h, keep, h2, c) && !c.Refused?
      && Live(h2) == Live(h1) + ReceivedBlocks(c) && ReceivedBlocks(c) !! Live(h1)
      && forall id :: id in ReceivedBlocks(c) ==> id >= |h1.blocks|
  {
    CheckOkEffect(h1, payload);
    var n := CInt(payload.len);
    if payload.len > 0 && n >= 0 {
      var bytes := h1.blocks[payload.data.id].bytes[..n];
      FromBytesEffect(h1, bytes);
      if bytes != [] {
        GrownEffect(h1, |bytes|, bytes);
        GrowKeeps(h, h1, keep, |bytes|, bytes);
      }
    }
  }

  lemma DeliverErr(h: Heap, h1: Heap, keep: set<nat>, e: FfiError)
    requires Sound(h1) && Keeps(h, h1, keep) && |Message(e)| <= ISIZE_MAX
    ensures var (h2, r) := ResultErr(h1, e);
      var (h3, c) := CheckResult(h2, r);
      && Delivered(h, keep, h3, c) && !c.Received?
      && r.message == FfiString(At(|h1.blocks|), |Message(e)|) && r.code == Code(e)
      && Live(h3) == Live(h1) + if CInt(|Message(e)|) < 0 then {|h1.blocks|} else {}
  {
    CheckErrEffect(h1, e);
    var m := Message(e);
    GrownEffect(h1, |m|, m);
    GrowKeeps(h, h1, keep, |m|, m);
    FreeLastKeeps(h, h1, keep, |m|, m);
  }

  /** The closure's own effect. */
  lemma ClosureEffect(h: Heap, t: Table, keep: set<nat>, raw: Option<seq<byte>>, input: FfiBuffer, cb: Callback)
    requires Sound(h) && CallOK(h, t, keep, raw, input, cb)
    ensures var h1 := AfterClosure(h, t, raw, input, cb); Sound(h1) && Keeps(h, h1, keep)
  {
  }

  /** The exact change of the live blocks by an invoke. */
  ghost predicate Tallied(h: Heap, h2: Heap, lost: set<nat>, c: Checked) {
    && Live(h2) == Live(h) + lost + ReceivedBlocks(c)
    && lost !! ReceivedBlocks(c) && lost !! Live(h) && ReceivedBlocks(c) !! Live(h)
  }

  lemma InvokeOkEffect(h: Heap, t: Table, keep: set<nat>, goName: seq<byte>, input: FfiBuffer, cb: Callback)
    requires Sound(h) && CallOK(h, t, keep, Some(CString(goName)), input, cb)
    requires Failure(h, t, Some(CString(goName)), input, cb).None?
    ensures var (h2, _, c) := InvokeCallback(h, t, goName, input, cb);
      && Delivered(h, keep, h2, c)
      && (Tidy(h, cb, input) ==> Tallied(h, h2, Lost(h, t, Some(CString(goName)), input, cb), c))
  {
    var raw := Some(CString(goName));
    ResultShape(h, t, raw, input, cb);
    DeliverOk(h, AfterClosure(h, t, raw, input, cb), keep, cb(h, input).1.result.payload);
  }

  lemma LostOnErr(h: Heap, t: Table, raw: Option<seq<byte>>, input: FfiBuffer, cb: Callback)
    requires var f := Failure(h, t, raw, input, cb); f.Some? && |Message(f.value)| <= ISIZE_MAX
    ensures var h1 := AfterClosure(h, t, raw, input, cb);
      var m := Message(Failure(h, t, raw, input, cb).value);
      Lost(h, t, raw, input, cb) ==
        (if RunsClosure(t, raw) then Fresh(h, Fields(cb(h, input).1)) else {})
        + (if CInt(|m|) < 0 then {|h1.blocks|} else {})
  {
    ResultShape(h, t, raw, input, cb);
    ErrEffect(AfterClosure(h, t, raw, input, cb), Failure(h, t, raw, input, cb).value);
  }

  lemma LiveAfterClosure(h: Heap, t: Table, raw: Option<seq<byte>>, input: FfiBuffer, cb: Callback)
    requires RunsClosure(t, raw) ==> Tidy(h, cb, input)
    ensures Live(AfterClosure(h, t, raw, input, cb)) ==
            Live(h) + if RunsClosure(t, raw) then Fresh(h, Fields(cb(h, input).1)) else {}
  {
  }

  lemma TallyErr(h: Heap, h1: Heap, h2: Heap, added: set<nat>, lost: set<nat>, message: set<nat>, c: Checked)
    requires Live(h1) == Live(h) + added && Live(h2) == Live(h1) + message && lost == added + message
    requires |h.blocks| <= |h1.blocks| && !c.Received?
    requires forall id :: id in added ==> id >= |h.blocks|
    requires forall id :: id in message ==> id >= |h1.blocks|
    ensures Tallied(h, h2, lost, c)
  {
  }

  lemma InvokeErrEffect(h: Heap, t: Table, keep: set<nat>, goName: seq<byte>, input: FfiBuffer, cb: Callback)
    requires Sound(h) && CallOK(h, t, keep, Some(CString(goName)), input, cb)
    requires Failure(h, t, Some(CString(goName)), input, cb).Some?
    ensures var (h2, _, c) := InvokeCallback(h, t, goName, input, cb);
      var raw := Some(CString(goName));
      && Delivered(h, keep, h2, c)
      && ((RunsClosure(t, raw) ==> Tidy(h, cb, input)) ==> Tallied(h, h2, Lost(h, t, raw, input, cb), c))
  {
    var raw := Some(CString(goName));
    var e := Failure(h, t, raw, input, cb).value;
    var h1 := AfterClosure(h, t, raw, input, cb);
    ClosureEffect(h, t, keep, raw, input, cb);
    ResultShape(h, t, raw, input, cb);
    DeliverErr(h, h1, keep, e);
    if RunsClosure(t, raw) ==> Tidy(h, cb, input) {
      var added := if RunsClosure(t, raw) then Fresh(h, Fields(cb(h, input).1)) else {};
      var message := if CInt(|Message(e)|) < 0 then {|h1.blocks|} else {};
      LiveAfterClosure(h, t, raw, input, cb);
      LostOnErr(h, t, raw, input, cb);
      var (h2, _, c) := InvokeCallback(h, t, goName, input, cb);
      TallyErr(h, h1, h2, added, Lost(h, t, raw, input, cb), message, c);
    }
  }

  lemma InvokeEffect(h: Heap, t: Table, keep: set<nat>, goName: seq<byte>, input: FfiBuffer, cb: Callback)
    requires Sound(h) && CallOK(h, t, keep, Some(CString(goName)), input, cb)
    ensures var (h2, _, c) := InvokeCallback(h, t, goName, input, cb);
      var raw := Some(CString(goName));
      && Delivered(h, keep, h2, c)
      && ((RunsClosure(t, raw) ==> Tidy(h, cb, input)) ==> Tallied(h, h2, Lost(h, t, raw, input, cb), c))
  {
    if Failure(h, t, Some(CString(goName)), input, cb).None? {
      ResultShape(h, t, Some(CString(goName)), input, cb);
      InvokeOkEffect(h, t, keep, goName, input, cb);
    } else {
      InvokeErrEffect(h, t, keep, goName, input, cb);
    }
  }

  // ---------- One step ----------

  lemma BufferKept(h: Heap, h2: Heap, keep: set<nat>, b: FfiBuffer)
    requires BufferOK(h, b) && Keeps(h, h2, keep) && Owns(b.data, b.capacity) <= keep
    ensures BufferOK(h2, b)
  {
    if b.capacity == 0 {
      assert b.len == 0;
    } else if b.data.Null? {
      assert b.len == 0;
    } else {
      assert b.data.id in Owns(b.data, b.capacity) && b.data.id in keep;
    }
  }

  lemma OwnerKept(h: Heap, h2: Heap, keep: set<nat>, b: Owner)
    requires OwnerOK(h, b) && Keeps(h, h2, keep) && Owns(b.inner.data, b.inner.capacity) <= keep
    ensures OwnerOK(h2, b)
  {
    if !b.freed {
      BufferKept(h, h2, keep, b.inner);
    }
  }

  lemma SlotsAdd(owners: seq<Owner>, b: Owner)
    ensures Slots(owners + [b]) == Slots(owners) + [OwnerBlocks(b)]
  {
  }

  lemma SlotIsOld(s: GoState, i: nat)
    requires Safe(s) && i < |s.owners|
    ensures OwnerBlocks(s.owners[i]) <= Live(s.heap) && OwnerBlocks(s.owners[i]) <= Union(Slots(s.owners))
    ensures Owns(s.owners[i].inner.data, s.owners[i].inner.capacity) <= Untouchable(s)
  {
    assert OwnerOK(s.heap, s.owners[i]);
    assert Slots(s.owners)[i] == OwnerBlocks(s.owners[i]);
  }

  lemma KeepOwners(s: GoState, h2: Heap)
    requires Safe(s) && Sound(h2) && Keeps(s.heap, h2, Untouchable(s))
    ensures Safe(s.(heap := h2))
  {
    forall i | 0 <= i < |s.owners|
      ensures OwnerOK(h2, s.owners[i])
    {
      SlotIsOld(s, i);
      OwnerKept(s.heap, h2, Untouchable(s), s.owners[i]);
    }
  }

  /** A new heap in which the owners' blocks are kept, and one more owner of new blocks. */
  lemma AddOwner(s: GoState, h2: Heap, b: Owner)
    requires Safe(s) && Sound(h2) && Keeps(s.heap, h2, Untouchable(s))
    requires OwnerOK(h2, b) && forall id :: id in OwnerBlocks(b) ==> id >= |s.heap.blocks|
    ensures Safe(s.(heap := h2, owners := s.owners + [b]))
  {
    var owners := s.owners + [b];
    SlotsAdd(s.owners, b);
    KeepOwners(s, h2);
    forall i | 0 <= i < |s.owners|
      ensures Slots(s.owners)[i] !! OwnerBlocks(b)
    {
      SlotIsOld(s, i);
    }
  }

  lemma BalancedAdd(h: Heap, h2: Heap, slots: seq<set<nat>>, orphans: set<nat>, mine: set<nat>, lost: set<nat>)
    requires Balanced(h, slots, orphans) && Live(h2) == Live(h) + lost + mine
    requires lost !! mine && lost !! Live(h) && mine !! Live(h)
    ensures Balanced(h2, slots + [mine], orphans + lost)
    ensures mine == {} ==> Balanced(h2, slots, orphans + lost)
  {
    UnionAdd(slots, mine);
    forall i | 0 <= i < |slots|
      ensures slots[i] !! mine
    {
      SlotBelow(slots, i);
    }
  }

  lemma OthersKept(s: GoState, i: nat, h2: Heap)
    requires Safe(s) && i < |s.owners|
    requires Keeps(s.heap, h2, All(s.heap) - OwnerBlocks(s.owners[i]))
    ensures forall j :: 0 <= j < |s.owners| && j != i ==> OwnerOK(h2, s.owners[j])
  {
    forall j | 0 <= j < |s.owners| && j != i
      ensures OwnerOK(h2, s.owners[j])
    {
      SlotIsOld(s, i);
      SlotIsOld(s, j);
      var slots := Slots(s.owners);
      assert slots[i] == OwnerBlocks(s.owners[i]) && slots[j] == OwnerBlocks(s.owners[j]) && slots[j] !! slots[i];
      assert OwnerOK(s.heap, s.owners[j]);
      OwnerKept(s.heap, h2, All(s.heap) - OwnerBlocks(s.owners[i]), s.owners[j]);
    }
  }

  lemma SlotsFreed(owners: seq<Owner>, i: nat, o: Owner)
    requires i < |owners| && o.freed && Disjoint(Slots(owners))
    ensures Slots(owners[i := o]) == Slots(owners)[i := {}]
    ensures Disjoint(Slots(owners[i := o]))
    ensures Union(Slots(owners[i := o])) == Union(Slots(owners)) - OwnerBlocks(owners[i])
  {
    assert Slots(owners[i := o]) == Slots(owners)[i := {}];
    assert Slots(owners)[i] == OwnerBlocks(owners[i]);
    UnionClear(Slots(owners), i);
  }

  lemma FreedIsGone(h: Heap, b: Owner)
    requires Sound(h) && OwnerOK(h, b) && !b.freed
    ensures var (h2, o) := FreeOwner(h, b);
      && Sound(h2) && |h2.blocks| == |h.blocks| && Live(h2) == Live(h) - OwnerBlocks(b)
      && Keeps(h, h2, All(h) - OwnerBlocks(b)) && o.freed && OwnerOK(h2, o)
  {
    ReleaseEffect(h, b.inner.data, b.inner.capacity);
    assert OwnerBlocks(b) <= Live(h);
  }

  lemma ReplaceFreed(s: GoState, i: nat, h2: Heap, o: Owner)
    requires Safe(s) && i < |s.owners| && Sound(h2) && o.freed && OwnerOK(h2, o)
    requires Keeps(s.heap, h2, All(s.heap) - OwnerBlocks(s.owners[i]))
    ensures Safe(s.(heap := h2, owners := s.owners[i := o]))
  {
    SlotsFreed(s.owners, i, o);
    OthersKept(s, i, h2);
  }

  lemma FreeUnfreed(s: GoState, i: nat)
    requires Safe(s) && i < |s.owners| && !s.owners[i].freed
    ensures var s' := Step(s, CallFree(i));
      Safe(s') && Live(s'.heap) == Live(s.heap) - OwnerBlocks(s.owners[i])
  {
    var b := s.owners[i];
    assert OwnerOK(s.heap, b);
    FreedIsGone(s.heap, b);
    var (h2, o) := FreeOwner(s.heap, b);
    ReplaceFreed(s, i, h2, o);
  }

  lemma FreeStep(s: GoState, i: nat)
    requires Safe(s) && i < |s.owners|
    ensures var s' := Step(s, CallFree(i));
      Safe(s') && (Accounted(s) ==> Accounted(s'))
  {
    var b := s.owners[i];
    if b.freed {
      assert s.owners[i := b] == s.owners;
    } else {
      FreeUnfreed(s, i);
      SlotsFreed(s.owners, i, FreeOwner(s.heap, b).1);
      SlotIsOld(s, i);
    }
  }

  lemma ReadStep(s: GoState, i: nat)
    requires Safe(s) && i < |s.owners|
    ensures Step(s, ReadBytes(i)) == s
  {
    var b := s.owners[i];
    assert OwnerOK(s.heap, b);
    if !b.freed && b.inner.len > 0 {
      CopyEffect(s.heap, b.inner.data, b.inner.len);
    }
  }

  /** One more owner, whose blocks are the only new ones. */
  lemma AddAccounted(s: GoState, h2: Heap, b: Owner)
    requires Safe(s) && Accounted(s)
    requires Live(h2) == Live(s.heap) + OwnerBlocks(b) && OwnerBlocks(b) !! Live(s.heap)
    ensures Accounted(s.(heap := h2, owners := s.owners + [b]))
  {
    SlotsAdd(s.owners, b);
    BalancedAdd(s.heap, h2, Slots(s.owners), s.orphans, OwnerBlocks(b), {});
    assert s.orphans + {} == s.orphans;
  }

  lemma AddNothing(s: GoState)
    requires Safe(s)
    ensures var s' := s.(owners := s.owners + [Wrap(NULL_BUFFER)]);
      Safe(s') && (Accounted(s) ==> Accounted(s'))
  {
    AddOwner(s, s.heap, Wrap(NULL_BUFFER));
    if Accounted(s) {
      AddAccounted(s, s.heap, Wrap(NULL_BUFFER));
    }
  }

  lemma AddBlock(s: GoState, size: nat, bytes: seq<byte>)
    requires Safe(s) && |bytes| <= size <= ISIZE_MAX && size > 0
    ensures var s' := s.(heap := Grown(s.heap, size, bytes),
                         owners := s.owners + [Wrap(FfiBuffer(At(|s.heap.blocks|), |bytes|, size))]);
      Safe(s') && (Accounted(s) ==> Accounted(s'))
  {
    var h2, b := Grown(s.heap, size, bytes), Wrap(FfiBuffer(At(|s.heap.blocks|), |bytes|, size));
    GrownEffect(s.heap, size, bytes);
    AddOwner(s, h2, b);
    if Accounted(s) {
      AddAccounted(s, h2, b);
    }
  }

  lemma MakeStep(s: GoState, op: GoOp)
    requires Safe(s) && Legal(s, op) && (op.New? || op.Make?)
    ensures Safe(Step(s, op)) && (Accounted(s) ==> Accounted(Step(s, op)))
  {
    AddNothing(s);
    if op.New? {
      NewBufferEffect(s.heap, op.capacity);
      if op.capacity > 0 {
        AddBlock(s, op.capacity, []);
      }
    } else {
      FromBytesEffect(s.heap, op.data);
      if op.data != [] {
        AddBlock(s, |op.data|, op.data);
      }
    }
  }

  lemma InvokeStep(s: GoState, op: GoOp)
    requires Safe(s) && Legal(s, op) && op.Invoke?
    ensures Safe(Step(s, op)) && (Accounted(s) && TidyOp(s, op) ==> Accounted(Step(s, op)))
  {
    var inner := InputOf(s, op.input);
    var slots := Slots(s.owners);
    InvokeEffect(s.heap, s.table, Untouchable(s), op.goName, inner, op.cb);
    var (h2, t2, c) := InvokeCallback(s.heap, s.table, op.goName, inner, op.cb);
    var lost := Lost(s.heap, s.table, Some(CString(op.goName)), inner, op.cb);
    if c.Received? {
      AddOwner(s, h2, c.buffer);
      SlotsAdd(s.owners, c.buffer);
    } else {
      KeepOwners(s, h2);
    }
    if Accounted(s) && TidyOp(s, op) {
      BalancedAdd(s.heap, h2, slots, s.orphans, ReceivedBlocks(c), lost);
    }
  }

  lemma StepIsSafe(s: GoState, op: GoOp)
    requires Safe(s) && Legal(s, op)
    ensures Safe(Step(s, op)) && (Accounted(s) && TidyOp(s, op) ==> Accounted(Step(s, op)))
  {
    match op
    case New(_) => MakeStep(s, op);
    case Make(_) => MakeStep(s, op);
    case ReadBytes(i) => ReadStep(s, i);
    case CallFree(i) => FreeStep(s, i);
    case Collect(i) =>
      FreeStep(s, i);
      assert OwnerOK(s.heap, s.owners[i]);
      assert s.owners[i := s.owners[i]] == s.owners;
    case Invoke(_, _, _) => InvokeStep(s, op);
    case Elsewhere(_, _) =>
  }

  // ---------- Whole runs ----------

  /** Over every run: no fault - so no double free, no free with a wrong layout, no read of a dead
      block - and unfreed owners always own disjoint live blocks. */
  lemma {:induction false} RunIsSafe(s: GoState, ops: seq<GoOp>)
    requires Safe(s) && LegalRun(s, ops)
    ensures Safe(Run(s, ops)) && !Run(s, ops).heap.fault
    decreases |ops|
  {
    if ops != [] {
      StepIsSafe(s, ops[0]);
      RunIsSafe(Step(s, ops[0]), ops[1..]);
    }
  }

  /** Over every run with tidy callbacks the ledger is exact: the live blocks are those of the
      unfreed owners and the orphans, each once, and allocations = frees + owned + orphans. */
  lemma {:induction false} RunIsAccounted(s: GoState, ops: seq<GoOp>)
    requires Safe(s) && Accounted(s) && LegalRun(s, ops) && TidyRun(s, ops)
    ensures var s' := Run(s, ops);
      && Accounted(s')
      && Live(s'.heap) == Union(Slots(s'.owners)) + s'.orphans
      && |s'.heap.blocks| == s'.heap.frees + |Union(Slots(s'.owners))| + |s'.orphans|
    decreases |ops|
  {
    if ops != [] {
      StepIsSafe(s, ops[0]);
      RunIsAccounted(Step(s, ops[0]), ops[1..]);
    } else {
      Conservation(s.heap);
    }
  }

  /** The ledger starts balanced. */
  lemma StartIsSafe(t: Table)
    ensures Safe(GoState(EMPTY_HEAP, t, [], {})) && Accounted(GoState(EMPTY_HEAP, t, [], {}))
  {
    assert Live(EMPTY_HEAP) == {} && Dead(EMPTY_HEAP) == {};
  }
}
