/** What the hand-over of `CheckResult` costs: calls that succeed and whose buffers are all freed
    still leave a block behind each, so a client that frees everything it was given grows without
    bound. */
module Leaks {
  import opened Machine
  import opened Wrappers
  import opened Names
  import opened Memory
  import opened Registry
  import opened Results
  import opened Ownership
  import opened Invoke
  import opened GoBuffer
  import opened GoCalls
  import opened GoRuns
  import opened HandOver
  import opened TypedCalls

  /** A successful echo call loses exactly the payload block of the echo. */
  lemma EchoLosesPayload(h: Heap, t: Table, goName: seq<byte>, d: seq<byte>, slack: nat)
    requires Sound(h) && HasCallback(t, goName) && |d| + slack <= ISIZE_MAX
    ensures var (h1, b) := FromBytes(h, d);
      Lost(h1, t, Some(CString(goName)), b.inner, EchoClosure(slack))
        == if d == [] && slack == 0 then {} else {|h1.blocks|}
    ensures var (h1, b) := FromBytes(h, d);
      |d| < INT_LIMIT ==> InvokeCallback(h1, t, goName, b.inner, EchoClosure(slack)).2.Received?
  {
    var (h1, b) := FromBytes(h, d);
    EchoRoundTrip(h, t, goName, d, slack);
    CIntExact(|d|);
    EchoIsReply(h, d, slack);
    MadeBuffer(h, d);
    ReplyLost(h1, t, goName, b.inner, Ok(d), slack, EchoClosure(slack));
  }

  lemma EchoIsReply(h: Heap, d: seq<byte>, slack: nat)
    requires Sound(h) && |d| + slack <= ISIZE_MAX
    ensures var (h1, b) := FromBytes(h, d);
      var (h2, r) := ReplyResult(h1, Ok(d), slack);
      EchoClosure(slack)(h1, b.inner) == (h2, Gave(r))
  {
    MadeBuffer(h, d);
    EchoResult(FromBytes(h, d).0, FromBytes(h, d).1.inner, slack);
  }

  lemma EchoAllowed(s: GoState, goName: seq<byte>, d: seq<byte>, slack: nat)
    requires Safe(s) && HasCallback(s.table, goName) && |d| + slack <= ISIZE_MAX
    ensures CallAllowed(s, d, goName, EchoClosure(slack)) && CallTidy(s, d, goName, EchoClosure(slack))
  {
    var (h1, b) := FromBytes(s.heap, d);
    var cb := EchoClosure(slack);
    EchoIsReply(s.heap, d, slack);
    MadeBuffer(s.heap, d);
    ReplyCallOK(h1, s.table, Untouchable(Step(s, Make(d))), goName, b.inner, Ok(d), slack, cb);
    AllowedIfOK(s, d, goName, cb);
  }

  lemma EchoKeepsTable(s: GoState, goName: seq<byte>, d: seq<byte>, slack: nat)
    ensures JsonRun(s, d, goName, EchoClosure(slack)).table == s.table
  {
    var (h1, b) := FromBytes(s.heap, d);
    var s1 := Step(s, Make(d));
    BridgeNeverPoisons(h1, s.table, Some(CString(goName)), InputOf(s1, Some(|s.owners|)), EchoHandler(slack));
  }

  // ---------- One call after another ----------

  /** The operations that make a request and invoke the echo with it. */
  function AskOps(n: nat, goName: seq<byte>, d: seq<byte>, slack: nat): seq<GoOp> {
    [Make(d), GoOp.Invoke(goName, Some(n), EchoClosure(slack))]
  }

  /** The deferred frees of the owners from `n` on. */
  function FreeOps(s: GoState, n: nat): seq<GoOp> {
    (if |s.owners| > n + 1 then [CallFree(n + 1)] else []) + [CallFree(n)]
  }

  /** The operations of one echo call: ask, then free the buffers it created. */
  function CallOps(s: GoState, goName: seq<byte>, d: seq<byte>, slack: nat): seq<GoOp> {
    AskOps(|s.owners|, goName, d, slack) + FreeOps(Invoked(s, d, goName, EchoClosure(slack)), |s.owners|)
  }

  /** The operations of echo calls with each of `ds` in turn. */
  function EchoOps(s: GoState, goName: seq<byte>, ds: seq<seq<byte>>, slack: nat): seq<GoOp>
    decreases |ds|
  {
    if ds == [] then []
    else
      var next := JsonRun(s, ds[0], goName, EchoClosure(slack));
      CallOps(s, goName, ds[0], slack) + EchoOps(next, goName, ds[1..], slack)
  }

  lemma {:induction false} RunAppend(s: GoState, a: seq<GoOp>, b: seq<GoOp>)
    ensures Run(s, a + b) == Run(Run(s, a), b)
    ensures LegalRun(s, a) && LegalRun(Run(s, a), b) ==> LegalRun(s, a + b)
    ensures TidyRun(s, a) && TidyRun(Run(s, a), b) ==> TidyRun(s, a + b)
    decreases |a|
  {
    if a == [] {
      assert a + b == b;
    } else {
      assert (a + b)[1..] == a[1..] + b;
      RunAppend(Step(s, a[0]), a[1..], b);
    }
  }

  lemma RunOne(s: GoState, op: GoOp)
    ensures Run(s, [op]) == Step(s, op)
    ensures LegalRun(s, [op]) <==> Legal(s, op)
    ensures TidyRun(s, [op]) <==> TidyOp(s, op)
  {
    assert [op][1..] == [];
  }

  lemma RunTwo(s: GoState, a: GoOp, b: GoOp)
    ensures Run(s, [a, b]) == Step(Step(s, a), b)
    ensures LegalRun(s, [a, b]) <==> Legal(s, a) && Legal(Step(s, a), b)
    ensures TidyRun(s, [a, b]) <==> TidyOp(s, a) && TidyOp(Step(s, a), b)
  {
    RunOne(Step(s, a), b);
    assert [a, b][1..] == [b];
  }

  lemma FreeOpsRun(s: GoState, n: nat)
    requires n < |s.owners| <= n + 2
    ensures Run(s, FreeOps(s, n)) == FreeLast(s, n) && LegalRun(s, FreeOps(s, n)) && TidyRun(s, FreeOps(s, n))
  {
    if |s.owners| > n + 1 {
      RunTwo(s, CallFree(n + 1), CallFree(n));
      assert FreeOps(s, n) == [CallFree(n + 1), CallFree(n)];
    } else {
      RunOne(s, CallFree(n));
      assert FreeOps(s, n) == [CallFree(n)];
    }
  }

  lemma AskOpsRun(s: GoState, goName: seq<byte>, d: seq<byte>, slack: nat)
    requires Safe(s) && HasCallback(s.table, goName) && |d| + slack <= ISIZE_MAX
    ensures var ops := AskOps(|s.owners|, goName, d, slack);
      Run(s, ops) == Invoked(s, d, goName, EchoClosure(slack)) && LegalRun(s, ops) && TidyRun(s, ops)
  {
    EchoAllowed(s, goName, d, slack);
    RunTwo(s, Make(d), GoOp.Invoke(goName, Some(|s.owners|), EchoClosure(slack)));
  }

  lemma CallOpsRun(s: GoState, goName: seq<byte>, d: seq<byte>, slack: nat)
    requires Safe(s) && HasCallback(s.table, goName) && |d| + slack <= ISIZE_MAX
    ensures var ops := CallOps(s, goName, d, slack);
      Run(s, ops) == JsonRun(s, d, goName, EchoClosure(slack)) && LegalRun(s, ops) && TidyRun(s, ops)
  {
    var n, s2 := |s.owners|, Invoked(s, d, goName, EchoClosure(slack));
    EchoAllowed(s, goName, d, slack);
    InvokedState(s, d, goName, EchoClosure(slack));
    AskOpsRun(s, goName, d, slack);
    FreeOpsRun(s2, n);
    RunAppend(s, AskOps(n, goName, d, slack), FreeOps(s2, n));
  }

  /** How many of the messages travel in a block. */
  function Blocked(ds: seq<seq<byte>>, slack: nat): nat
    decreases |ds|
  {
    if ds == [] then 0 else (if ds[0] == [] && slack == 0 then 0 else 1) + Blocked(ds[1..], slack)
  }

  lemma OneEchoLeaks(s: GoState, goName: seq<byte>, d: seq<byte>, slack: nat)
    requires Safe(s) && HasCallback(s.table, goName) && |d| + slack <= ISIZE_MAX
    ensures var s' := JsonRun(s, d, goName, EchoClosure(slack));
      && Safe(s') && s'.table == s.table && s.owners <= s'.owners
      && (forall i :: |s.owners| <= i < |s'.owners| ==> s'.owners[i].freed)
      && Live(s.heap) <= Live(s'.heap)
      && |Live(s'.heap)| == |Live(s.heap)| + if d == [] && slack == 0 then 0 else 1
  {
    EchoAllowed(s, goName, d, slack);
    EchoKeepsTable(s, goName, d, slack);
    RunOfJson(s, d, goName, EchoClosure(slack));
    EchoLeavesPayload(s, goName, d, slack);
    NewBlockId(s.heap, d);
  }

  /** The request took its place before the payload, so the payload is a new block. */
  lemma NewBlockId(h: Heap, d: seq<byte>)
    requires |d| <= ISIZE_MAX
    ensures |FromBytes(h, d).0.blocks| !in Live(h)
  {
    FromBytesEffect(h, d);
  }

  lemma EchoLeavesPayload(s: GoState, goName: seq<byte>, d: seq<byte>, slack: nat)
    requires Safe(s) && HasCallback(s.table, goName) && |d| + slack <= ISIZE_MAX
    ensures Live(JsonRun(s, d, goName, EchoClosure(slack)).heap)
         == Live(s.heap) + if d == [] && slack == 0 then {} else {|FromBytes(s.heap, d).0.blocks|}
  {
    var cb := EchoClosure(slack);
    var s0 := s.(orphans := Live(s.heap) - Union(Slots(s.owners)));
    BalancedByOrphans(s);
    EchoAllowed(s0, goName, d, slack);
    LiveOfRun(s0, d, goName, cb);
    JsonRunIgnoresOrphans(s, s0, d, goName, cb);
    EchoLosesPayload(s.heap, s.table, goName, d, slack);
  }

  lemma JsonRunIgnoresOrphans(s: GoState, s0: GoState, d: seq<byte>, goName: seq<byte>, cb: Callback)
    requires s0 == s.(orphans := s0.orphans)
    ensures JsonRun(s0, d, goName, cb).heap == JsonRun(s, d, goName, cb).heap
  {
    assert Step(s0, Make(d)) == Step(s, Make(d)).(orphans := s0.orphans);
  }

  /** A leak that grows with the number of calls: a run of echo calls that frees every buffer it
      created ends with one more live block for each message that is not empty. */
  lemma {:induction false} EchoesLeak(s: GoState, goName: seq<byte>, ds: seq<seq<byte>>, slack: nat)
    requires Safe(s) && HasCallback(s.table, goName) && forall d :: d in ds ==> |d| + slack <= ISIZE_MAX
    ensures var ops := EchoOps(s, goName, ds, slack);
      var s' := Run(s, ops);
      && LegalRun(s, ops) && TidyRun(s, ops) && Safe(s') && s.owners <= s'.owners
      && (forall i :: |s.owners| <= i < |s'.owners| ==> s'.owners[i].freed)
      && Live(s.heap) <= Live(s'.heap) && |Live(s'.heap)| == |Live(s.heap)| + Blocked(ds, slack)
    decreases |ds|
  {
    if ds != [] {
      var s1 := JsonRun(s, ds[0], goName, EchoClosure(slack));
      assert ds[0] in ds;
      OneEchoLeaks(s, goName, ds[0], slack);
      EchoesLeak(s1, goName, ds[1..], slack);
      CallOpsRun(s, goName, ds[0], slack);
      RunAppend(s, CallOps(s, goName, ds[0], slack), EchoOps(s1, goName, ds[1..], slack));
    }
  }

  /** So no bound on the live blocks of a client holds: for every `n` some run from an empty heap
      has freed every buffer it ever had and still holds `n` blocks. */
  lemma LeakHasNoBound(t: Table, goName: seq<byte>, n: nat)
    requires HasCallback(t, goName)
    ensures var s := GoState(EMPTY_HEAP, t, [], {});
      exists ops: seq<GoOp> ::
        && LegalRun(s, ops) && TidyRun(s, ops)
        && (forall i :: 0 <= i < |Run(s, ops).owners| ==> Run(s, ops).owners[i].freed)
        && |Live(Run(s, ops).heap)| == n
  {
    var s := GoState(EMPTY_HEAP, t, [], {});
    var message: seq<byte> := [0];
    var ds: seq<seq<byte>> := seq(n, (_: nat) => message);
    StartIsSafe(t);
    AllBlocked(ds, 0);
    EchoesLeak(s, goName, ds, 0);
    var ops := EchoOps(s, goName, ds, 0);
    assert LegalRun(s, ops);
    assert Live(EMPTY_HEAP) == {};
  }

  lemma {:induction false} AllBlocked(ds: seq<seq<byte>>, slack: nat)
    requires forall i :: 0 <= i < |ds| ==> ds[i] != []
    ensures Blocked(ds, slack) == |ds|
    decreases |ds|
  {
    if ds != [] {
      AllBlocked(ds[1..], slack);
    }
  }
}
