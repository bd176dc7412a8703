/** Runs of the registry end: if no closure calls back into the registry, every step brings the
    run closer to its end and no state is stuck; if one does, the lock is never taken again. */
module Progress {
  import opened Wrappers
  import opened Registry
  import opened Protocol
  import opened Concurrency

  /** The steps a thread has already made in its current call. */
  function Rank(f: Phase): nat {
    match f
    case Ready => 0
    case Waiting => 1
    case Holding => 2
    case Running(_) => 3
    case Reentered(_) => 3
    case Unwinding => 4
    case Leaving(_) => 4
  }

  /** At most five steps are left of a call that has not begun. */
  function ThreadWork(calls: seq<Call>, th: Thread): int {
    5 * (|calls| - th.at) - Rank(th.phase)
  }

  function Work(p: Program, threads: seq<Thread>): int
    requires |threads| <= |p|
  {
    if threads == [] then 0
    else
      var n := |threads| - 1;
      Work(p, threads[..n]) + ThreadWork(p[n], threads[n])
  }

  lemma {:induction false} WorkUpdate(p: Program, threads: seq<Thread>, t: nat, th: Thread)
    requires |threads| <= |p| && t < |threads|
    ensures Work(p, threads[t := th]) == Work(p, threads) - ThreadWork(p[t], threads[t]) + ThreadWork(p[t], th)
  {
    var n := |threads| - 1;
    if t < n {
      assert threads[t := th][..n] == threads[..n][t := th];
      WorkUpdate(p, threads[..n], t, th);
    } else {
      assert threads[t := th][..n] == threads[..n];
    }
  }

  lemma {:induction false} WorkIsNatural(p: Program, threads: seq<Thread>)
    requires |threads| <= |p|
    requires forall t :: 0 <= t < |threads| ==>
               threads[t].at <= |p[t]| && (!threads[t].phase.Ready? ==> threads[t].at < |p[t]|)
    ensures Work(p, threads) >= 0
  {
    if threads != [] {
      WorkIsNatural(p, threads[..|threads| - 1]);
    }
  }

  predicate NoReentry(es: seq<Event>) {
    forall i :: 0 <= i < |es| ==> !es[i].Reenter?
  }

  ghost predicate NobodyReentered(s: System) {
    forall t :: 0 <= t < |s.threads| ==> !s.threads[t].phase.Reentered?
  }

  /** Every step that is not a re-entry uses up work. */
  lemma StepWorks(p: Program, s: System, e: Event)
    requires |s.threads| == |p| && Enabled(p, s, e) && !e.Reenter? && NobodyReentered(s)
    ensures |Next(p, s, e).threads| == |p| && NobodyReentered(Next(p, s, e))
    ensures Work(p, Next(p, s, e).threads) < Work(p, s.threads)
  {
    var s' := Next(p, s, e);
    assert s'.threads == s.threads[e.t := s'.threads[e.t]];
    WorkUpdate(p, s.threads, e.t, s'.threads[e.t]);
  }

  lemma {:induction false} RunWorks(p: Program, s: System, es: seq<Event>)
    requires |s.threads| == |p| && Execution(p, s, es) && NoReentry(es) && NobodyReentered(s)
    ensures |Final(p, s, es).threads| == |p| && NobodyReentered(Final(p, s, es))
    ensures |es| + Work(p, Final(p, s, es).threads) <= Work(p, s.threads)
    decreases |es|
  {
    if es != [] {
      StepWorks(p, s, es[0]);
      RunWorks(p, Next(p, s, es[0]), es[1..]);
    }
  }

  /** Unless a closure has re-entered the registry, unfinished work can always go on. */
  lemma NoDeadlock(p: Program, t0: Table, s: System, t: nat) returns (e: Event)
    requires Inv(p, t0, s) && NobodyReentered(s)
    requires t < |p| && s.threads[t].at < |p[t]|
    ensures Enabled(p, s, e) && !e.Reenter?
  {
    if s.holder.Some? {
      var u := s.holder.value;
      match s.threads[u].phase {
        case Holding => e := Act(u);
        case Running(_) => e := Finish(u, Returned(true));
        case Unwinding => e := Release(u);
        case Leaving(_) => e := Release(u);
        case _ =>
      }
    } else if s.threads[t].phase.Ready? {
      e := Begin(t);
    } else {
      e := Acquire(t);
    }
  }

  /** The step of a thread in this phase. */
  function MoveIn(t: nat, f: Phase): Event {
    match f
    case Ready => Begin(t)
    case Waiting => Acquire(t)
    case Holding => Act(t)
    case Running(_) => Finish(t, Panicked)
    case _ => Release(t)
  }

  lemma MoveEnabled(p: Program, t0: Table, s: System, t: nat)
    requires Inv(p, t0, s) && t < |p| && s.threads[t].at < |p[t]| && !s.threads[t].phase.Reentered?
    requires s.threads[t].phase.Waiting? ==> s.holder.None?
    ensures Enabled(p, s, MoveIn(t, s.threads[t].phase))
  {
  }

  /** A thread with a call to make is stuck exactly while its closure has re-entered the registry, or
      while it waits and another thread is in the lock. */
  lemma BlockedIff(p: Program, t0: Table, s: System, t: nat)
    requires Inv(p, t0, s) && t < |p| && s.threads[t].at < |p[t]|
    ensures var f := s.threads[t].phase;
      (exists e: Event :: e.t == t && Enabled(p, s, e)) <==>
      !f.Reentered? && !(f.Waiting? && exists u :: 0 <= u < |p| && u != t && InLock(s.threads[u].phase))
  {
    var f := s.threads[t].phase;
    if f.Waiting? && s.holder.Some? {
      assert InLock(s.threads[s.holder.value].phase);
    } else if !f.Reentered? {
      MoveEnabled(p, t0, s, t);
      assert MoveIn(t, f).t == t;
    }
  }

  lemma StartWork(p: Program, t0: Table)
    ensures NobodyReentered(Start(p, t0))
  {
  }

  /** Without re-entry no run is longer than the work of its program, and a run that cannot go on
      has finished every call of every thread. */
  lemma RunsFinish(p: Program, t0: Table, es: seq<Event>)
    requires Execution(p, Start(p, t0), es) && NoReentry(es)
    ensures |es| <= Work(p, Start(p, t0).threads)
    ensures var s := Final(p, Start(p, t0), es);
      (forall e: Event :: Enabled(p, s, e) ==> e.Reenter?) ==>
        forall t, k :: 0 <= t < |p| && 0 <= k < |p[t]| ==> (t, k) in s.results
  {
    StartInv(p, t0);
    StartWork(p, t0);
    RunKeepsInv(p, t0, Start(p, t0), es);
    RunWorks(p, Start(p, t0), es);
    var s := Final(p, Start(p, t0), es);
    WorkIsNatural(p, s.threads);
    if forall e: Event :: Enabled(p, s, e) ==> e.Reenter? {
      forall t, k | 0 <= t < |p| && 0 <= k < |p[t]|
        ensures (t, k) in s.results
      {
        if s.threads[t].at < |p[t]| {
          var e := NoDeadlock(p, t0, s, t);
        }
      }
    }
  }

  lemma ReentryStep(p: Program, s: System, u: nat, e: Event)
    requires ThreadsOK(p, s) && LockOK(s) && u < |p| && s.threads[u].phase.Reentered? && Enabled(p, s, e)
    ensures !e.Acquire?
    ensures Next(p, s, e).threads[u] == s.threads[u] && Next(p, s, e).table == s.table
  {
    assert s.holder == Some(u);
  }

  ghost predicate Stuck(p: Program, t0: Table, s: System, u: nat) {
    Inv(p, t0, s) && u < |p| && s.threads[u].phase.Reentered?
  }

  lemma StepKeepsStuck(p: Program, t0: Table, s: System, u: nat, e: Event)
    requires Stuck(p, t0, s, u) && Enabled(p, s, e)
    ensures Stuck(p, t0, Next(p, s, e), u) && Next(p, s, e).table == s.table && !e.Acquire?
  {
    ReentryStep(p, s, u, e);
    StepKeepsInv(p, t0, s, e);
  }

  /** After a closure re-enters the registry on its own thread, the lock is never taken again. */
  lemma ReentryBlocksTheLock(p: Program, t0: Table, s: System, u: nat, es: seq<Event>)
    requires Stuck(p, t0, s, u) && Execution(p, s, es)
    ensures forall i :: 0 <= i < |es| ==> !es[i].Acquire?
    ensures Stuck(p, t0, Final(p, s, es), u) && Final(p, s, es).table == s.table
  {
    forall x: System, e: Event | Stuck(p, t0, x, u) && Enabled(p, x, e)
      ensures Stuck(p, t0, Next(p, x, e), u) && Next(p, x, e).table == x.table && !e.Acquire?
    {
      StepKeepsStuck(p, t0, x, u, e);
    }
    RunStaysFrozen(p, s, es, x => Stuck(p, t0, x, u), (e: Event) => true);
  }

  /** In any run in which a closure re-enters, nothing after that step takes the lock. */
  lemma ReentryIsFatal(p: Program, t0: Table, es: seq<Event>, u: nat, more: seq<Event>)
    requires Execution(p, Start(p, t0), es + [Reenter(u)] + more)
    ensures forall i :: 0 <= i < |more| ==> !more[i].Acquire?
    ensures var s := Final(p, Start(p, t0), es + [Reenter(u)] + more);
      u < |s.threads| && s.threads[u].phase.Reentered?
  {
    var es' := es + [Reenter(u)];
    StartInv(p, t0);
    RunSplits(p, Start(p, t0), es', more);
    RunSplits(p, Start(p, t0), es, [Reenter(u)]);
    RunKeepsInv(p, t0, Start(p, t0), es');
    var s := Final(p, Start(p, t0), es');
    assert s == Next(p, Final(p, Start(p, t0), es), Reenter(u));
    ReentryBlocksTheLock(p, t0, s, u, more);
  }
}
