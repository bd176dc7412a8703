/** What happens when a buffer dies while Go is still using its memory. `Bytes` and
    `InvokeCallback` load the struct of a `Buffer` first and use it afterwards; from then on nothing
    need keep the Go object reachable, so its finalizer may run in between. */
module Lifetimes {
  import opened Wrappers
  import opened Machine
  import opened Names
  import opened Memory
  import opened Results
  import opened Registry
  import opened Ownership
  import opened Invoke
  import opened GoBuffer
  import opened GoCalls
  import opened GoRuns
  import opened HandOver
  import opened TypedCalls

  // ---------- A struct never changes ----------

  /** From one state to a later one: owners are added at the end, keep their struct, and stay freed. */
  ghost predicate Later(s: GoState, s': GoState) {
    && |s.owners| <= |s'.owners|
    && forall i :: 0 <= i < |s.owners| ==>
         s'.owners[i].inner == s.owners[i].inner && (s.owners[i].freed ==> s'.owners[i].freed)
  }

  lemma {:induction false} RunIsLater(s: GoState, ops: seq<GoOp>)
    ensures Later(s, Run(s, ops))
    decreases |ops|
  {
    if ops != [] {
      assert Later(s, Step(s, ops[0]));
      RunIsLater(Step(s, ops[0]), ops[1..]);
    }
  }

  // ---------- Reading ----------

  /** A struct of a safe state can be read exactly if its owner is unfreed or it is empty. */
  lemma ReadableIffUnfreed(s: GoState, i: nat, n: nat)
    requires Safe(s) && i < |s.owners| && n <= s.owners[i].inner.len
    ensures CanRead(s.heap, s.owners[i].inner.data, n) <==> !s.owners[i].freed || n == 0
  {
    assert OwnerOK(s.heap, s.owners[i]);
    var b := s.owners[i].inner;
    if s.owners[i].freed && n > 0 {
      assert b.data.id in Owns(b.data, b.capacity);
    }
  }

  /** `Bytes` checks `freed`, loads the struct, and copies. Whatever runs between the load and the
      copy, the copy goes wrong exactly when the buffer has been freed by then - by its finalizer or
      by a call - and there is a byte to copy. */
  lemma LoadedCopyFaultsIff(s: GoState, i: nat, ops: seq<GoOp>)
    requires Safe(s) && LegalRun(s, ops) && i < |s.owners| && !s.owners[i].freed
    ensures var raw := s.owners[i].inner;
      var s' := Run(s, ops);
      && i < |s'.owners|
      && (GoCopy(s'.heap, raw.data, CInt(raw.len)).0.fault <==> s'.owners[i].freed && CInt(raw.len) > 0)
  {
    RunIsSafe(s, ops);
    RunIsLater(s, ops);
    var n := CInt(s.owners[i].inner.len);
    if n >= 0 {
      ReadableIffUnfreed(Run(s, ops), i, n);
    }
  }

  // ---------- Passing to a callback ----------

  lemma FaultStays(h: Heap, r: FfiResult)
    requires h.fault
    ensures CheckResult(h, r).0.fault
  {
  }

  lemma EchoOfLoaded(h: Heap, t: Table, goName: seq<byte>, raw: FfiBuffer, slack: nat)
    requires Sound(h) && HasCallback(t, goName) && raw.len + slack <= ISIZE_MAX
    requires raw.data.Null? ==> raw.len == 0
    ensures InvokeCallback(h, t, goName, raw, EchoClosure(slack)).0.fault <==> !CanRead(h, raw.data, raw.len)
  {
    var cb := EchoClosure(slack);
    EchoFaultsIff(h, raw, slack);
    ResultShape(h, t, Some(CString(goName)), raw, cb);
    if CanRead(h, raw.data, raw.len) {
      var bytes := AsSlice(h, raw).1;
      ReplyCallOK(h, t, {}, goName, raw, Ok(bytes), slack, cb);
      InvokeEffect(h, t, {}, goName, raw, cb);
    } else {
      FaultStays(cb(h, raw).0, ResultOk(cb(h, raw).1.result.payload));
    }
  }

  /** `InvokeCallback` loads the struct without looking at `freed`. Whatever runs between the load
      and the call, a callback that reads its input goes wrong exactly when the buffer has been freed
      by then and is not empty. */
  lemma LoadedInputFaultsIff(s: GoState, i: nat, ops: seq<GoOp>, goName: seq<byte>, slack: nat)
    requires Safe(s) && LegalRun(s, ops) && i < |s.owners| && s.owners[i].inner.len + slack <= ISIZE_MAX
    requires HasCallback(Run(s, ops).table, goName)
    ensures var raw := s.owners[i].inner;
      var s' := Run(s, ops);
      && i < |s'.owners|
      && (InvokeCallback(s'.heap, s'.table, goName, raw, EchoClosure(slack)).0.fault <==>
            s'.owners[i].freed && raw.len > 0)
  {
    var raw := s.owners[i].inner;
    var s' := Run(s, ops);
    RunIsSafe(s, ops);
    RunIsLater(s, ops);
    ReadableIffUnfreed(s', i, raw.len);
    assert OwnerOK(s'.heap, s'.owners[i]);
    EchoOfLoaded(s'.heap, s'.table, goName, raw, slack);
  }

  /** In particular a client can tell beforehand: an owner may be passed to a callback that reads it
      exactly if it is unfreed or empty. */
  lemma EchoOfOwnerFaultsIff(s: GoState, i: nat, goName: seq<byte>, slack: nat)
    requires Safe(s) && i < |s.owners| && s.owners[i].inner.len + slack <= ISIZE_MAX
    requires HasCallback(s.table, goName)
    ensures Step(s, GoOp.Invoke(goName, Some(i), EchoClosure(slack))).heap.fault <==>
            s.owners[i].freed && s.owners[i].inner.len > 0
  {
    LoadedInputFaultsIff(s, i, [], goName, slack);
  }

  // ---------- An input ----------

  /** Both faults happen: make a buffer of any bytes, load its struct, let the finalizer run or call
      `Free`, and then read or invoke. */
  lemma DeadBufferWitness(h: Heap, t: Table, goName: seq<byte>, d: seq<byte>, slack: nat, byFinalizer: bool)
    requires Sound(h) && HasCallback(t, goName) && 0 < |d| < INT_LIMIT && |d| + slack <= ISIZE_MAX
    ensures var s := Step(GoState(h, t, [], {}), Make(d));
      var death := if byFinalizer then Collect(0) else CallFree(0);
      var raw := s.owners[0].inner;
      var s' := Step(s, death);
      && Safe(s) && LegalRun(s, [death])
      && GoCopy(s'.heap, raw.data, CInt(raw.len)).0.fault
      && InvokeCallback(s'.heap, t, goName, raw, EchoClosure(slack)).0.fault
      && Step(s', GoOp.Invoke(goName, Some(0), EchoClosure(slack))).heap.fault
  {
    var s0 := GoState(h, t, [], {});
    var s := Step(s0, Make(d));
    var death := if byFinalizer then Collect(0) else CallFree(0);
    SafeStart(h, t);
    StepIsSafe(s0, Make(d));
    FromBytesEffect(h, d);
    CIntExact(|d|);
    assert [death][1..] == [] && Run(s, [death]) == Step(s, death);
    StepIsSafe(s, death);
    LoadedCopyFaultsIff(s, 0, [death]);
    LoadedInputFaultsIff(s, 0, [death], goName, slack);
    EchoOfOwnerFaultsIff(Step(s, death), 0, goName, slack);
  }
}
