/** Any number of threads calling into the registry at once (rust/src/callback.rs), step by step.

    A call is turned away at once if its name does not resolve; otherwise it waits for the lock,
    takes it, and acts on the table. An invoke that finds a closure keeps the lock for as long as
    the closure runs; a closure that panics unwinds through the guard, which poisons the lock and
    releases it, and the call still returns. */
module Protocol {
  import opened Wrappers
  import opened Errors
  import opened Registry
  import opened History

  /** What each thread is going to call, in order. Threads are numbered from 0. */
  type Program = seq<seq<Call>>

  datatype Phase =
    | Ready
    | Waiting
    | Holding
    | Running(id: RegId)
    | Reentered(id: RegId)   // the closure has called back into the registry on its own thread
    | Unwinding
    | Leaving(response: Response)

  datatype Thread = Thread(at: nat, phase: Phase)

  /** `log` and `results` only record what happened: the calls in the order in which they took
      the lock, and what each finished call returned. */
  datatype System = System(
    table: Table,
    holder: Option<nat>,
    threads: seq<Thread>,
    log: seq<Entry>,
    results: map<Key, Response>)

  datatype Event =
    | Begin(t: nat)
    | Acquire(t: nat)
    | Act(t: nat)
    | Finish(t: nat, exit: Exit)
    | Reenter(t: nat)
    | Release(t: nat)

  function Start(p: Program, table: Table): System {
    System(table, None, seq(|p|, _ => Thread(0, Ready)), [], map[])
  }

  predicate InLock(f: Phase) {
    !f.Ready? && !f.Waiting?
  }

  predicate Enabled(p: Program, s: System, e: Event) {
    && |s.threads| == |p|
    && e.t < |p|
    && var th := s.threads[e.t];
    match e
    case Begin(t) => th.phase.Ready? && th.at < |p[t]|
    case Acquire(t) => th.phase.Waiting? && th.at < |p[t]| && s.holder.None?
    case Act(t) => th.phase.Holding? && th.at < |p[t]|
    case Finish(t, _) => th.phase.Running? && s.log != []
    case Reenter(t) => th.phase.Running?
    case Release(t) => th.phase.Leaving? || th.phase.Unwinding?
  }

  function Moved(s: System, t: nat, f: Phase): System
    requires t < |s.threads|
  {
    s.(threads := s.threads[t := s.threads[t].(phase := f)])
  }

  /** The call of thread `t` is over: it has its response, and the thread is at its next call. */
  function Done(s: System, t: nat, r: Response): System
    requires t < |s.threads|
  {
    var at := s.threads[t].at;
    s.(threads := s.threads[t := Thread(at + 1, Ready)], results := s.results[(t, at) := r])
  }

  function Next(p: Program, s: System, e: Event): System
    requires Enabled(p, s, e)
  {
    var th := s.threads[e.t];
    match e
    case Begin(t) =>
      var c := p[t][th.at];
      if Accepted(c) then Moved(s, t, Waiting) else Done(s, t, Rejection(c))
    case Acquire(t) =>
      Moved(s, t, Holding).(holder := Some(t), log := s.log + [Entry(t, th.at, p[t][th.at], Returned(true))])
    case Act(t) =>
      var c := p[t][th.at];
      (match Runs(s.table, c)
       case Some(id) => Moved(s, t, Running(id))
       case None =>
         var (table, r) := Apply(s.table, c, Returned(true));
         Moved(s, t, Leaving(r)).(table := table))
    case Finish(t, x) =>
      Moved(s, t, if x.Panicked? then Unwinding else Leaving(Coded(ExitCode(x))))
        .(log := Before(s.log) + [Last(s.log).(exit := x)])
    case Reenter(t) => Moved(s, t, Reentered(th.phase.id))
    case Release(t) =>
      if th.phase.Unwinding?
      then Done(s, t, Coded(Panic)).(holder := None, table := s.table.(poisoned := true))
      else Done(s, t, th.phase.response).(holder := None)
  }

  predicate Execution(p: Program, s: System, es: seq<Event>)
    decreases |es|
  {
    es == [] || (Enabled(p, s, es[0]) && Execution(p, Next(p, s, es[0]), es[1..]))
  }

  function Final(p: Program, s: System, es: seq<Event>): System
    requires Execution(p, s, es)
    decreases |es|
  {
    if es == [] then s else Final(p, Next(p, s, es[0]), es[1..])
  }

  // ---------- The invariant ----------

  ghost predicate ThreadsOK(p: Program, s: System) {
    && |s.threads| == |p|
    && forall t :: 0 <= t < |p| ==>
         && s.threads[t].at <= |p[t]|
         && (!s.threads[t].phase.Ready? ==> s.threads[t].at < |p[t]| && Accepted(p[t][s.threads[t].at]))
  }

  /** The thread that holds the lock is the only one past its acquisition. */
  ghost predicate LockOK(s: System) {
    && (s.holder.Some? ==> s.holder.value < |s.threads|)
    && forall t :: 0 <= t < |s.threads| ==> (InLock(s.threads[t].phase) <==> s.holder == Some(t))
  }

  /** An entry names a call of the program that is over, or that holds the lock now. */
  ghost predicate EntryOK(p: Program, s: System, i: nat)
    requires i < |s.log| && |s.threads| == |p|
  {
    var e := s.log[i];
    && e.tid < |p| && e.at < |p[e.tid]| && e.call == p[e.tid][e.at] && Accepted(e.call)
    && (e.at < s.threads[e.tid].at
        || (i == |s.log| - 1 && e.at == s.threads[e.tid].at && s.holder == Some(e.tid)))
  }

  ghost predicate LogOK(p: Program, s: System)
    requires |s.threads| == |p|
  {
    && DistinctKeys(s.log)
    && (forall i :: 0 <= i < |s.log| ==> EntryOK(p, s, i))
    && (s.holder.Some? && s.holder.value < |p| ==>
          s.log != [] && KeyOf(Last(s.log)) == (s.holder.value, s.threads[s.holder.value].at))
  }

  /** The calls that have given the lock back, in the order in which they took it. */
  function Completed(s: System): seq<Entry> {
    if s.holder.Some? && s.log != [] then Before(s.log) else s.log
  }

  /** The holder's progress, seen from the table `q` it found when it took the lock. */
  ghost predicate HolderOK(q: Table, table: Table, f: Phase, e: Entry) {
    match f
    case Holding => table == q
    case Running(id) => table == q && Runs(q, e.call) == Some(id)
    case Reentered(id) => table == q && Runs(q, e.call) == Some(id)
    case Unwinding => table == q && Runs(q, e.call).Some? && e.exit.Panicked?
    case Leaving(r) => Apply(q, e.call, e.exit) == (table, r) && (table.poisoned ==> q.poisoned)
    case _ => false
  }

  ghost predicate TableOK(t0: Table, s: System)
    requires LockOK(s)
  {
    var q := TableAfter(t0, Completed(s));
    match s.holder
    case None => s.table == q
    case Some(t) => s.log != [] && HolderOK(q, s.table, s.threads[t].phase, Last(s.log))
  }

  /** Every finished call has its result: the replayed answer, or its rejection. */
  ghost predicate ResultsAgree(p: Program, threads: seq<Thread>, results: map<Key, Response>, rs: map<Key, Response>)
    requires |threads| == |p|
    requires forall t :: 0 <= t < |p| ==> threads[t].at <= |p[t]|
  {
    && (forall t, k :: 0 <= t < |p| && 0 <= k < threads[t].at ==> (t, k) in results)
    && (forall key :: key in results ==>
          && key.0 < |p| && key.1 < threads[key.0].at
          && var c := p[key.0][key.1];
             if Accepted(c) then key in rs && rs[key] == results[key] else results[key] == Rejection(c))
    && (forall key :: key in rs ==> key in results)
  }

  ghost predicate ResultsOK(p: Program, t0: Table, s: System)
    requires ThreadsOK(p, s)
  {
    ResultsAgree(p, s.threads, s.results, Replay(t0, Completed(s)).1)
  }

  ghost predicate Inv(p: Program, t0: Table, s: System) {
    ThreadsOK(p, s) && LockOK(s) && LogOK(p, s) && TableOK(t0, s) && ResultsOK(p, t0, s)
  }

  lemma StartInv(p: Program, t0: Table)
    ensures Inv(p, t0, Start(p, t0))
  {
  }

  lemma ThreadsKept(p: Program, s: System, e: Event)
    requires ThreadsOK(p, s) && LockOK(s) && Enabled(p, s, e)
    ensures ThreadsOK(p, Next(p, s, e)) && LockOK(Next(p, s, e))
  {
    var s' := Next(p, s, e);
    assert forall t :: 0 <= t < |p| && t != e.t ==> s'.threads[t] == s.threads[t];
  }

  lemma LogKept(p: Program, s: System, e: Event)
    requires ThreadsOK(p, s) && LockOK(s) && LogOK(p, s) && Enabled(p, s, e)
    ensures LogOK(p, Next(p, s, e))
  {
    var s' := Next(p, s, e);
    if e.Acquire? {
      LogKeptByAcquire(p, s, e);
    } else {
      assert |s'.log| == |s.log|;
      assert forall i :: 0 <= i < |s.log| ==> s'.log[i] == s.log[i].(exit := s'.log[i].exit);
      forall i | 0 <= i < |s.log|
        ensures EntryOK(p, s', i)
      {
        assert EntryOK(p, s, i);
      }
      assert forall i :: 0 <= i < |s.log| ==> KeyOf(s'.log[i]) == KeyOf(s.log[i]);
    }
  }

  lemma LogKeptByAcquire(p: Program, s: System, e: Event)
    requires ThreadsOK(p, s) && LockOK(s) && LogOK(p, s) && Enabled(p, s, e) && e.Acquire?
    ensures LogOK(p, Next(p, s, e))
  {
    var s' := Next(p, s, e);
    forall i | 0 <= i < |s'.log|
      ensures EntryOK(p, s', i)
      ensures i < |s.log| ==> KeyOf(s'.log[i]) != KeyOf(Last(s'.log))
    {
      if i < |s.log| {
        assert EntryOK(p, s, i);
      }
    }
  }

  lemma CompletedKept(p: Program, s: System, e: Event)
    requires ThreadsOK(p, s) && LockOK(s) && LogOK(p, s) && Enabled(p, s, e)
    ensures Completed(Next(p, s, e)) == if e.Release? then s.log else Completed(s)
  {
  }

  lemma TableKept(p: Program, t0: Table, s: System, e: Event)
    requires Inv(p, t0, s) && Enabled(p, s, e)
    requires LockOK(Next(p, s, e))
    ensures TableOK(t0, Next(p, s, e))
  {
    CompletedKept(p, s, e);
    var s' := Next(p, s, e);
    if e.Release? {
      ReleasedTable(p, t0, s, e);
    } else if InLock(s.threads[e.t].phase) {
      HolderMoves(p, t0, s, e);
    } else {
      OutsiderMoves(p, s, e);
    }
  }

  /** A step of a thread outside the lock. */
  lemma OutsiderMoves(p: Program, s: System, e: Event)
    requires ThreadsOK(p, s) && LockOK(s) && Enabled(p, s, e) && (e.Begin? || e.Acquire?)
    ensures var s' := Next(p, s, e);
      && s'.table == s.table
      && (e.Begin? ==> s'.holder == s.holder && s'.log == s.log)
      && (e.Begin? && s.holder.Some? ==> s'.threads[s.holder.value] == s.threads[s.holder.value])
      && (e.Acquire? ==> s.holder.None? && s'.holder == Some(e.t) && s'.threads[e.t].phase.Holding? && s'.log != [])
  {
  }

  /** A step of the holder inside the lock. */
  lemma HolderMoves(p: Program, t0: Table, s: System, e: Event)
    requires Inv(p, t0, s) && Enabled(p, s, e) && (e.Act? || e.Finish? || e.Reenter?)
    ensures var s' := Next(p, s, e);
      && s'.holder == Some(e.t) && s'.log != []
      && HolderOK(TableAfter(t0, Completed(s)), s'.table, s'.threads[e.t].phase, Last(s'.log))
  {
    assert s.holder == Some(e.t) && EntryOK(p, s, |s.log| - 1);
    var q := TableAfter(t0, Completed(s));
    assert HolderOK(q, s.table, s.threads[e.t].phase, Last(s.log));
  }

  /** What a released call leaves behind is what the sequential machine makes of it. */
  lemma ReleasedTable(p: Program, t0: Table, s: System, e: Event)
    requires Inv(p, t0, s) && Enabled(p, s, e) && e.Release?
    ensures var s' := Next(p, s, e);
      var key := (e.t, s.threads[e.t].at);
      && s.log != [] && KeyOf(Last(s.log)) == key && Completed(s) == Before(s.log)
      && key in s'.results
      && Replay(t0, s.log) == (s'.table, Replay(t0, Before(s.log)).1[key := s'.results[key]])
  {
    assert s.holder == Some(e.t) && EntryOK(p, s, |s.log| - 1);
    var q := TableAfter(t0, Before(s.log));
    assert HolderOK(q, s.table, s.threads[e.t].phase, Last(s.log));
  }

  lemma ResultsKeptByRelease(p: Program, t0: Table, s: System, e: Event)
    requires Inv(p, t0, s) && Enabled(p, s, e) && e.Release?
    requires ThreadsOK(p, Next(p, s, e))
    ensures ResultsOK(p, t0, Next(p, s, e))
  {
    CompletedKept(p, s, e);
    ReleasedTable(p, t0, s, e);
    var t, at := e.t, s.threads[e.t].at;
    var s' := Next(p, s, e);
    OneMoreResult(p, s.threads, s.results, Replay(t0, Completed(s)).1, t, s'.results[(t, at)],
                  Replay(t0, s.log).1);
  }

  lemma StepWithoutResult(p: Program, s: System, e: Event)
    requires Enabled(p, s, e) && !e.Release? && (e.Begin? ==> Accepted(p[e.t][s.threads[e.t].at]))
    ensures var s' := Next(p, s, e);
      s'.results == s.results && forall u :: 0 <= u < |p| ==> s'.threads[u].at == s.threads[u].at
  {
  }

  lemma ResultsKept(p: Program, t0: Table, s: System, e: Event)
    requires Inv(p, t0, s) && Enabled(p, s, e)
    requires ThreadsOK(p, Next(p, s, e))
    ensures ResultsOK(p, t0, Next(p, s, e))
  {
    if e.Release? {
      ResultsKeptByRelease(p, t0, s, e);
    } else {
      CompletedKept(p, s, e);
      var s' := Next(p, s, e);
      var rs := Replay(t0, Completed(s)).1;
      var at := s.threads[e.t].at;
      if e.Begin? && !Accepted(p[e.t][at]) {
        OneMoreResult(p, s.threads, s.results, rs, e.t, Rejection(p[e.t][at]), rs);
      } else {
        StepWithoutResult(p, s, e);
        NoMoreResults(p, s.threads, s'.threads, s.results, rs);
      }
    }
  }

  lemma NoMoreResults(p: Program, threads: seq<Thread>, threads': seq<Thread>, results: map<Key, Response>,
                      rs: map<Key, Response>)
    requires |threads| == |p| == |threads'|
    requires forall u :: 0 <= u < |p| ==> threads'[u].at == threads[u].at <= |p[u]|
    requires ResultsAgree(p, threads, results, rs)
    ensures ResultsAgree(p, threads', results, rs)
  {
    forall u, k | 0 <= u < |p| && 0 <= k < threads'[u].at
      ensures (u, k) in results
    {
      assert k < threads[u].at;
    }
  }

  lemma OneMoreResult(p: Program, threads: seq<Thread>, results: map<Key, Response>, rs: map<Key, Response>,
                      t: nat, r: Response, rs': map<Key, Response>)
    requires |threads| == |p| && t < |p| && threads[t].at < |p[t]|
    requires forall u :: 0 <= u < |p| ==> threads[u].at <= |p[u]|
    requires ResultsAgree(p, threads, results, rs)
    requires var c := p[t][threads[t].at];
      if Accepted(c) then rs' == rs[(t, threads[t].at) := r] else rs' == rs && r == Rejection(c)
    ensures ResultsAgree(p, threads[t := Thread(threads[t].at + 1, Ready)], results[(t, threads[t].at) := r], rs')
  {
    var threads' := threads[t := Thread(threads[t].at + 1, Ready)];
    forall u, k | 0 <= u < |p| && 0 <= k < threads'[u].at
      ensures (u, k) in results[(t, threads[t].at) := r]
    {
      if u != t || k != threads[t].at {
        assert k < threads[u].at;
      }
    }
  }

  lemma StepKeepsInv(p: Program, t0: Table, s: System, e: Event)
    requires Inv(p, t0, s) && Enabled(p, s, e)
    ensures Inv(p, t0, Next(p, s, e))
  {
    ThreadsKept(p, s, e);
    LogKept(p, s, e);
    TableKept(p, t0, s, e);
    ResultsKept(p, t0, s, e);
  }

  lemma {:induction false} RunKeepsInv(p: Program, t0: Table, s: System, es: seq<Event>)
    requires Inv(p, t0, s) && Execution(p, s, es)
    ensures Inv(p, t0, Final(p, s, es))
    decreases |es|
  {
    if es != [] {
      StepKeepsInv(p, t0, s, es[0]);
      RunKeepsInv(p, t0, Next(p, s, es[0]), es[1..]);
    }
  }
}
