/** How the closures of a concurrent run end. A `Finish` event says what a closure did; here that is
    tied to the answer of its call, to the poison flag, and to the log from which calls are replayed. */
module Closures {
  import opened Wrappers
  import opened Errors
  import opened Registry
  import opened History
  import opened Protocol

  // ---------- One closure ----------

  /** The code of an invoke whose closure ended like this. */
  function EndNumber(x: Exit): int {
    if x.Panicked? then 5 else if x.ok then 0 else 99
  }

  /** A closure that runs may end in any way. Its call then returns 0, 99 or 5, gives the lock back,
      and poisons it exactly if the closure panicked. */
  lemma ClosureEnds(p: Program, t0: Table, s: System, t: nat, x: Exit)
    requires Inv(p, t0, s) && t < |p| && s.threads[t].phase.Running?
    ensures Enabled(p, s, Reenter(t))
    ensures Enabled(p, s, Finish(t, x)) && Enabled(p, Next(p, s, Finish(t, x)), Release(t))
    ensures var key := (t, s.threads[t].at);
      var s' := Next(p, Next(p, s, Finish(t, x)), Release(t));
      && key in s'.results && s'.results[key].Coded? && Number(s'.results[key].code) == EndNumber(x)
      && s'.table == s.table.(poisoned := x.Panicked?) && s'.holder.None?
      && s'.threads[t] == Thread(s.threads[t].at + 1, Ready)
  {
    assert s.holder == Some(t);
  }

  /** The steps of an undisturbed invoke of a registered name. */
  function InvokeEvents(t: nat, x: Exit): seq<Event> {
    [Begin(t), Acquire(t), Act(t), Finish(t, x), Release(t)]
  }

  lemma RunFive(p: Program, s: System, a: Event, b: Event, c: Event, d: Event, e: Event)
    requires Enabled(p, s, a) && Enabled(p, Next(p, s, a), b) && Enabled(p, Next(p, Next(p, s, a), b), c)
    requires var s3 := Next(p, Next(p, Next(p, s, a), b), c);
      Enabled(p, s3, d) && Enabled(p, Next(p, s3, d), e)
    ensures Execution(p, s, [a, b, c, d, e])
    ensures Final(p, s, [a, b, c, d, e]) == Next(p, Next(p, Next(p, Next(p, Next(p, s, a), b), c), d), e)
  {
    var s1 := Next(p, s, a);
    var s2 := Next(p, s1, b);
    var s3 := Next(p, s2, c);
    var s4 := Next(p, s3, d);
    assert [a, b, c, d, e][1..] == [b, c, d, e] && [b, c, d, e][1..] == [c, d, e];
    assert [c, d, e][1..] == [d, e] && [d, e][1..] == [e] && [e][1..] == [];
    assert Execution(p, Next(p, s4, e), []);
    assert Execution(p, s4, [e]) && Final(p, s4, [e]) == Next(p, s4, e);
    assert Execution(p, s3, [d, e]) && Final(p, s3, [d, e]) == Next(p, s4, e);
    assert Execution(p, s2, [c, d, e]) && Final(p, s2, [c, d, e]) == Next(p, s4, e);
    assert Execution(p, s1, [b, c, d, e]) && Final(p, s1, [b, c, d, e]) == Next(p, s4, e);
  }

  lemma InvokeReachesClosure(p: Program, t0: Table, s: System, t: nat)
    requires Inv(p, t0, s) && s.holder.None? && t < |p| && s.threads[t].phase.Ready?
    requires s.threads[t].at < |p[t]| && Runs(s.table, p[t][s.threads[t].at]).Some?
    ensures Enabled(p, s, Begin(t)) && Enabled(p, Next(p, s, Begin(t)), Acquire(t))
    ensures Enabled(p, Next(p, Next(p, s, Begin(t)), Acquire(t)), Act(t))
    ensures var s3 := Next(p, Next(p, Next(p, s, Begin(t)), Acquire(t)), Act(t));
      && Inv(p, t0, s3) && s3.table == s.table && s3.threads[t].at == s.threads[t].at
      && s3.threads[t].phase == Running(Runs(s.table, p[t][s.threads[t].at]).value)
  {
    var s1 := Next(p, s, Begin(t));
    var s2 := Next(p, s1, Acquire(t));
    StepKeepsInv(p, t0, s, Begin(t));
    StepKeepsInv(p, t0, s1, Acquire(t));
    StepKeepsInv(p, t0, s2, Act(t));
  }

  /** From any state with a free lock, an invoke of a registered name can run to its end, whatever
      that end is: so every code, and poison, is reached. */
  lemma InvokeRuns(p: Program, t0: Table, s: System, t: nat, x: Exit)
    requires Inv(p, t0, s) && s.holder.None? && t < |p| && s.threads[t].phase.Ready?
    requires s.threads[t].at < |p[t]| && Runs(s.table, p[t][s.threads[t].at]).Some?
    ensures Execution(p, s, InvokeEvents(t, x))
    ensures var s' := Final(p, s, InvokeEvents(t, x));
      var key := (t, s.threads[t].at);
      && key in s'.results && s'.results[key].Coded? && Number(s'.results[key].code) == EndNumber(x)
      && s'.table == s.table.(poisoned := x.Panicked?) && s'.holder.None?
  {
    var s3 := Next(p, Next(p, Next(p, s, Begin(t)), Acquire(t)), Act(t));
    InvokeReachesClosure(p, t0, s, t);
    ClosureEnds(p, t0, s3, t, x);
    RunFive(p, s, Begin(t), Acquire(t), Act(t), Finish(t, x), Release(t));
  }

  // ---------- All closures of a run ----------

  /** Which closure a call ran, and how it ended. */
  datatype Ended = Ended(id: RegId, exit: Exit)

  function Record(p: Program, s: System, e: Event, seen: map<Key, Ended>): map<Key, Ended>
    requires Enabled(p, s, e)
  {
    if e.Finish? then seen[(e.t, s.threads[e.t].at) := Ended(s.threads[e.t].phase.id, e.exit)] else seen
  }

  /** The closures that ended during a run, by the call that ran them, read off its `Finish` events. */
  function Ends(p: Program, s: System, es: seq<Event>, seen: map<Key, Ended>): map<Key, Ended>
    requires Execution(p, s, es)
    decreases |es|
  {
    if es == [] then seen else Ends(p, Next(p, s, es[0]), es[1..], Record(p, s, es[0], seen))
  }

  /** The call at position `i` holds the lock and has not looked at the table, or runs its closure. */
  predicate Pending(s: System, i: nat) {
    && i == |s.log| - 1 && s.holder.Some? && s.holder.value < |s.threads|
    && var f := s.threads[s.holder.value].phase;
       f.Holding? || f.Running? || f.Reentered?
  }

  /** The exit in the log is the one that the closure of the call had. */
  ghost predicate ExitOK(t0: Table, s: System, seen: map<Key, Ended>, i: nat)
    requires i < |s.log|
  {
    var e := s.log[i];
    if Pending(s, i) then KeyOf(e) !in seen
    else match Runs(TableAfter(t0, s.log[..i]), e.call)
      case None => KeyOf(e) !in seen
      case Some(id) => KeyOf(e) in seen && seen[KeyOf(e)] == Ended(id, e.exit)
  }

  ghost predicate ExitsOK(t0: Table, s: System, seen: map<Key, Ended>) {
    && (forall i :: 0 <= i < |s.log| ==> ExitOK(t0, s, seen, i))
    && (forall key :: key in seen ==> exists i :: 0 <= i < |s.log| && KeyOf(s.log[i]) == key)
  }

  /** From `s` to `s'`, all entries but those from `n` on are as they were. */
  ghost predicate SameBelow(s: System, s': System, n: nat) {
    && n <= |s.log| <= |s'.log|
    && (forall i :: 0 <= i < n ==> s'.log[i] == s.log[i])
    && (forall i :: 0 <= i < |s.log| ==> KeyOf(s'.log[i]) == KeyOf(s.log[i]))
  }

  lemma KeysStayLogged(s: System, s': System, seen: map<Key, Ended>)
    requires forall key :: key in seen ==> exists i :: 0 <= i < |s.log| && KeyOf(s.log[i]) == key
    requires |s.log| <= |s'.log| && forall i :: 0 <= i < |s.log| ==> KeyOf(s'.log[i]) == KeyOf(s.log[i])
    ensures forall key :: key in seen ==> exists i :: 0 <= i < |s'.log| && KeyOf(s'.log[i]) == key
  {
    forall key | key in seen
      ensures exists i :: 0 <= i < |s'.log| && KeyOf(s'.log[i]) == key
    {
      var i :| 0 <= i < |s.log| && KeyOf(s.log[i]) == key;
      assert KeyOf(s'.log[i]) == key;
    }
  }

  lemma ExitStays(t0: Table, s: System, s': System, seen: map<Key, Ended>, seen': map<Key, Ended>, n: nat, i: nat)
    requires SameBelow(s, s', n) && i < n && ExitOK(t0, s, seen, i) && Pending(s', i) == Pending(s, i)
    requires KeyOf(s.log[i]) in seen <==> KeyOf(s.log[i]) in seen'
    requires KeyOf(s.log[i]) in seen ==> seen'[KeyOf(s.log[i])] == seen[KeyOf(s.log[i])]
    ensures ExitOK(t0, s', seen', i)
  {
    assert s'.log[..i] == s.log[..i];
  }

  lemma ExitsKeptByBegin(p: Program, t0: Table, s: System, seen: map<Key, Ended>, e: Event)
    requires LockOK(s) && Enabled(p, s, e) && ExitsOK(t0, s, seen) && e.Begin?
    ensures ExitsOK(t0, Next(p, s, e), seen)
  {
    var s' := Next(p, s, e);
    forall i | 0 <= i < |s'.log|
      ensures ExitOK(t0, s', seen, i)
    {
      ExitStays(t0, s, s', seen, seen, |s.log|, i);
    }
  }

  lemma AcquireAppends(p: Program, s: System, e: Event)
    requires ThreadsOK(p, s) && LockOK(s) && LogOK(p, s) && Enabled(p, s, e) && e.Acquire?
    ensures var s' := Next(p, s, e);
      && |s'.log| == |s.log| + 1 && SameBelow(s, s', |s.log|) && s.holder.None? && Pending(s', |s.log|)
      && forall i :: 0 <= i < |s.log| ==> KeyOf(s.log[i]) != KeyOf(s'.log[|s.log|])
  {
    LogKept(p, s, e);
    var s' := Next(p, s, e);
    assert forall i :: 0 <= i < |s.log| ==> KeyOf(s'.log[i]) != KeyOf(s'.log[|s.log|]);
  }

  lemma ExitsKeptByAcquire(p: Program, t0: Table, s: System, seen: map<Key, Ended>, e: Event)
    requires ThreadsOK(p, s) && LockOK(s) && LogOK(p, s) && Enabled(p, s, e) && ExitsOK(t0, s, seen) && e.Acquire?
    ensures ExitsOK(t0, Next(p, s, e), seen)
  {
    var s' := Next(p, s, e);
    AcquireAppends(p, s, e);
    forall i | 0 <= i < |s'.log|
      ensures ExitOK(t0, s', seen, i)
    {
      if i < |s.log| {
        ExitStays(t0, s, s', seen, seen, |s.log|, i);
      }
    }
    KeysStayLogged(s, s', seen);
  }

  /** Only the last entry, and only what is known of its call, may differ. */
  ghost predicate OnlyLast(s: System, s': System, seen: map<Key, Ended>, seen': map<Key, Ended>) {
    && s.log != [] && |s'.log| == |s.log| && SameBelow(s, s', |s.log| - 1)
    && var key := KeyOf(s.log[|s.log| - 1]);
       && (forall i :: 0 <= i < |s.log| - 1 ==> KeyOf(s.log[i]) != key)
       && (seen' == seen || (key in seen' && seen' == seen[key := seen'[key]]))
  }

  /** A step of the holder concerns the last entry only. */
  lemma HolderStepLog(p: Program, s: System, seen: map<Key, Ended>, e: Event)
    requires ThreadsOK(p, s) && LockOK(s) && LogOK(p, s) && Enabled(p, s, e) && !e.Begin? && !e.Acquire?
    ensures s.holder == Some(e.t) && OnlyLast(s, Next(p, s, e), seen, Record(p, s, e, seen))
    ensures KeyOf(s.log[|s.log| - 1]) == (e.t, s.threads[e.t].at)
  {
  }

  lemma HolderStepLast(p: Program, t0: Table, s: System, seen: map<Key, Ended>, e: Event)
    requires Inv(p, t0, s) && Enabled(p, s, e) && ExitsOK(t0, s, seen) && !e.Begin? && !e.Acquire?
    ensures s.log != [] && |Next(p, s, e).log| == |s.log|
    ensures ExitOK(t0, Next(p, s, e), Record(p, s, e, seen), |s.log| - 1)
  {
    HolderStepLog(p, s, seen, e);
    var n := |s.log| - 1;
    assert EntryOK(p, s, n) && ExitOK(t0, s, seen, n);
    assert Completed(s) == s.log[..n] && Next(p, s, e).log[..n] == s.log[..n];
    LastExit(p, t0, s, seen, e, TableAfter(t0, s.log[..n]));
  }

  lemma LastExit(p: Program, t0: Table, s: System, seen: map<Key, Ended>, e: Event, q: Table)
    requires Enabled(p, s, e) && !e.Begin? && !e.Acquire? && s.holder == Some(e.t) && s.log != []
    requires var n := |s.log| - 1;
      && ExitOK(t0, s, seen, n) && q == TableAfter(t0, s.log[..n]) == TableAfter(t0, Next(p, s, e).log[..n])
      && s.threads[e.t].at < |p[e.t]|
      && KeyOf(s.log[n]) == (e.t, s.threads[e.t].at) && s.log[n].call == p[e.t][s.threads[e.t].at]
      && HolderOK(q, s.table, s.threads[e.t].phase, s.log[n])
    ensures |Next(p, s, e).log| == |s.log|
    ensures ExitOK(t0, Next(p, s, e), Record(p, s, e, seen), |s.log| - 1)
  {
  }

  lemma ExitsExtend(t0: Table, s: System, s': System, seen: map<Key, Ended>, seen': map<Key, Ended>)
    requires ExitsOK(t0, s, seen) && OnlyLast(s, s', seen, seen') && ExitOK(t0, s', seen', |s.log| - 1)
    ensures ExitsOK(t0, s', seen')
  {
    var n := |s.log| - 1;
    forall i | 0 <= i < n
      ensures ExitOK(t0, s', seen', i)
    {
      ExitStays(t0, s, s', seen, seen', n, i);
    }
    forall key | key in seen'
      ensures exists i :: 0 <= i < |s'.log| && KeyOf(s'.log[i]) == key
    {
      if key == KeyOf(s.log[n]) {
        assert KeyOf(s'.log[n]) == key;
      } else {
        var i :| 0 <= i < |s.log| && KeyOf(s.log[i]) == key;
        assert KeyOf(s'.log[i]) == key;
      }
    }
  }

  lemma ExitsKeptByHolder(p: Program, t0: Table, s: System, seen: map<Key, Ended>, e: Event)
    requires Inv(p, t0, s) && Enabled(p, s, e) && ExitsOK(t0, s, seen) && !e.Begin? && !e.Acquire?
    ensures ExitsOK(t0, Next(p, s, e), Record(p, s, e, seen))
  {
    HolderStepLog(p, s, seen, e);
    HolderStepLast(p, t0, s, seen, e);
    ExitsExtend(t0, s, Next(p, s, e), seen, Record(p, s, e, seen));
  }

  lemma ExitsKept(p: Program, t0: Table, s: System, seen: map<Key, Ended>, e: Event)
    requires Inv(p, t0, s) && Enabled(p, s, e) && ExitsOK(t0, s, seen)
    ensures ExitsOK(t0, Next(p, s, e), Record(p, s, e, seen))
  {
    if e.Begin? {
      ExitsKeptByBegin(p, t0, s, seen, e);
    } else if e.Acquire? {
      ExitsKeptByAcquire(p, t0, s, seen, e);
    } else {
      ExitsKeptByHolder(p, t0, s, seen, e);
    }
  }

  lemma {:induction false} RunKeepsExits(p: Program, t0: Table, s: System, es: seq<Event>, seen: map<Key, Ended>)
    requires Inv(p, t0, s) && Execution(p, s, es) && ExitsOK(t0, s, seen)
    ensures ExitsOK(t0, Final(p, s, es), Ends(p, s, es, seen))
    decreases |es|
  {
    if es != [] {
      StepKeepsInv(p, t0, s, es[0]);
      ExitsKept(p, t0, s, seen, es[0]);
      RunKeepsExits(p, t0, Next(p, s, es[0]), es[1..], Record(p, s, es[0], seen));
    }
  }

  /** The completed call at position `i` ran a closure exactly if the one-at-a-time machine runs one
      at its place; it ran that closure; and the exit it is replayed with is the exit it had. */
  ghost predicate RanAsReplayed(p: Program, t0: Table, es: seq<Event>, i: nat)
    requires Execution(p, Start(p, t0), es)
  {
    var s := Final(p, Start(p, t0), es);
    var ends := Ends(p, Start(p, t0), es, map[]);
    && i < |s.log|
    && match Runs(TableAfter(t0, s.log[..i]), s.log[i].call)
       case None => KeyOf(s.log[i]) !in ends
       case Some(id) => KeyOf(s.log[i]) in ends && ends[KeyOf(s.log[i])] == Ended(id, s.log[i].exit)
  }

  lemma ExitsAreReal(p: Program, t0: Table, es: seq<Event>, i: nat)
    requires Execution(p, Start(p, t0), es)
    requires i < |Completed(Final(p, Start(p, t0), es))|
    ensures RanAsReplayed(p, t0, es, i)
  {
    StartInv(p, t0);
    RunKeepsInv(p, t0, Start(p, t0), es);
    RunKeepsExits(p, t0, Start(p, t0), es, map[]);
    assert ExitOK(t0, Final(p, Start(p, t0), es), Ends(p, Start(p, t0), es, map[]), i);
  }
}
