/** Properties of every concurrent run of the registry: it is linearizable in the order in which
    the lock was taken, unregistering waits for the closure it removes, and poison is final. */
module Concurrency {
  import opened Wrappers
  import opened Errors
  import opened Registry
  import opened History
  import opened Protocol
  import opened Closures

  // ---------- Runs in two parts ----------

  lemma {:induction false} RunSplits(p: Program, s: System, es: seq<Event>, more: seq<Event>)
    requires Execution(p, s, es + more)
    ensures Execution(p, s, es) && Execution(p, Final(p, s, es), more)
    ensures Final(p, s, es + more) == Final(p, Final(p, s, es), more)
    decreases |es|
  {
    if es == [] {
      assert es + more == more;
    } else {
      assert (es + more)[1..] == es[1..] + more;
      RunSplits(p, Next(p, s, es[0]), es[1..], more);
    }
  }

  /** The log only grows, and what has been given back never changes. */
  ghost predicate LogExtends(s: System, f: System) {
    && |s.log| <= |f.log|
    && (forall i :: 0 <= i < |s.log| ==> KeyOf(f.log[i]) == KeyOf(s.log[i]))
    && Completed(s) <= Completed(f)
  }

  lemma StepExtendsLog(p: Program, s: System, e: Event)
    requires ThreadsOK(p, s) && LockOK(s) && LogOK(p, s) && Enabled(p, s, e)
    ensures LogExtends(s, Next(p, s, e))
  {
    CompletedKept(p, s, e);
    if e.Finish? {
      assert forall i :: 0 <= i < |s.log| ==> Next(p, s, e).log[i] == s.log[i].(exit := Next(p, s, e).log[i].exit);
    }
  }

  lemma {:induction false} RunExtendsLog(p: Program, t0: Table, s: System, es: seq<Event>)
    requires Inv(p, t0, s) && Execution(p, s, es)
    ensures LogExtends(s, Final(p, s, es))
    decreases |es|
  {
    if es != [] {
      StepExtendsLog(p, s, es[0]);
      StepKeepsInv(p, t0, s, es[0]);
      RunExtendsLog(p, t0, Next(p, s, es[0]), es[1..]);
    }
  }

  /** Everything later proofs need about a run and a continuation of it. */
  lemma TwoStates(p: Program, t0: Table, es: seq<Event>, more: seq<Event>)
    requires Execution(p, Start(p, t0), es) && Execution(p, Start(p, t0), es + more)
    ensures Inv(p, t0, Final(p, Start(p, t0), es)) && Inv(p, t0, Final(p, Start(p, t0), es + more))
    ensures LogExtends(Final(p, Start(p, t0), es), Final(p, Start(p, t0), es + more))
  {
    StartInv(p, t0);
    RunKeepsInv(p, t0, Start(p, t0), es);
    RunKeepsInv(p, t0, Start(p, t0), es + more);
    RunSplits(p, Start(p, t0), es, more);
    RunExtendsLog(p, t0, Final(p, Start(p, t0), es), more);
  }

  // ---------- Linearizability ----------

  /** The calls of a run in the order in which they took the lock. */
  function Acquisitions(p: Program, s: System, es: seq<Event>): seq<Key>
    requires Execution(p, s, es)
    decreases |es|
  {
    if es == [] then []
    else (if es[0].Acquire? then [(es[0].t, s.threads[es[0].t].at)] else [])
         + Acquisitions(p, Next(p, s, es[0]), es[1..])
  }

  function Keys(log: seq<Entry>): seq<Key> {
    seq(|log|, i requires 0 <= i < |log| => KeyOf(log[i]))
  }

  lemma {:induction false} LogIsLockOrder(p: Program, s: System, es: seq<Event>)
    requires Execution(p, s, es)
    ensures Keys(Final(p, s, es).log) == Keys(s.log) + Acquisitions(p, s, es)
    decreases |es|
  {
    if es != [] {
      var s' := Next(p, s, es[0]);
      LogIsLockOrder(p, s', es[1..]);
      if es[0].Finish? {
        assert Keys(s'.log) == Keys(s.log);
      } else if es[0].Acquire? {
        assert Keys(s'.log) == Keys(s.log) + [(es[0].t, s.threads[es[0].t].at)];
      }
    }
  }

  /** In every interleaving, every finished call has the response that the one-at-a-time machine
      gives it when the calls run in lock-acquisition order, and a free lock guards exactly the
      table that machine ends with. The machine runs the closures that the threads ran, and no
      others, and they end as they did there. */
  lemma Linearizable(p: Program, t0: Table, es: seq<Event>)
    requires Execution(p, Start(p, t0), es)
    ensures var s := Final(p, Start(p, t0), es);
      && Keys(s.log) == Acquisitions(p, Start(p, t0), es)
      && (s.holder.None? ==> s.table == TableAfter(t0, s.log))
      && (forall key :: key in s.results ==>
            && key.0 < |p| && key.1 < |p[key.0]|
            && var c := p[key.0][key.1];
               if Accepted(c) then exists i :: 0 <= i < |Completed(s)| && KeyOf(s.log[i]) == key
                                               && s.log[i].call == c && s.results[key] == Answer(t0, s.log, i)
               else s.results[key] == Rejection(c))
    ensures forall i :: 0 <= i < |Completed(Final(p, Start(p, t0), es))| ==> RanAsReplayed(p, t0, es, i)
  {
    forall i | 0 <= i < |Completed(Final(p, Start(p, t0), es))|
      ensures RanAsReplayed(p, t0, es, i)
    {
      ExitsAreReal(p, t0, es, i);
    }
    ResultsAreAnswers(p, t0, es);
  }

  lemma ResultsAreAnswers(p: Program, t0: Table, es: seq<Event>)
    requires Execution(p, Start(p, t0), es)
    ensures var s := Final(p, Start(p, t0), es);
      && Keys(s.log) == Acquisitions(p, Start(p, t0), es)
      && (s.holder.None? ==> s.table == TableAfter(t0, s.log))
      && (forall key :: key in s.results ==>
            && key.0 < |p| && key.1 < |p[key.0]|
            && var c := p[key.0][key.1];
               if Accepted(c) then exists i :: 0 <= i < |Completed(s)| && KeyOf(s.log[i]) == key
                                               && s.log[i].call == c && s.results[key] == Answer(t0, s.log, i)
               else s.results[key] == Rejection(c))
  {
    StartInv(p, t0);
    RunKeepsInv(p, t0, Start(p, t0), es);
    LogIsLockOrder(p, Start(p, t0), es);
    var s := Final(p, Start(p, t0), es);
    assert Keys(Start(p, t0).log) + Acquisitions(p, Start(p, t0), es) == Acquisitions(p, Start(p, t0), es);
    forall key | key in s.results && Accepted(p[key.0][key.1])
      ensures exists i :: 0 <= i < |Completed(s)| && KeyOf(s.log[i]) == key
                          && s.log[i].call == p[key.0][key.1] && s.results[key] == Answer(t0, s.log, i)
    {
      var i := PositionOf(p, t0, s, key);
    }
  }

  /** The place of a finished call in the lock order. */
  lemma PositionOf(p: Program, t0: Table, s: System, key: Key) returns (i: nat)
    requires Inv(p, t0, s) && key in s.results
    requires Accepted(p[key.0][key.1])
    ensures i < |Completed(s)| && Completed(s)[i] == s.log[i] && KeyOf(s.log[i]) == key
    ensures s.log[i].call == p[key.0][key.1] && s.results[key] == Answer(t0, s.log, i)
    ensures Answer(t0, Completed(s), i) == Answer(t0, s.log, i)
  {
    var done := Completed(s);
    i := ReplayKeys(t0, done, key);
    assert forall j :: 0 <= j < |done| ==> done[j] == s.log[j];
    ReplayAnswers(t0, done, i);
    assert done[..i] == s.log[..i];
    assert EntryOK(p, s, i);
  }

  predicate NotBegun(s: System, key: Key) {
    key.0 < |s.threads|
    && var th := s.threads[key.0]; th.at < key.1 || (th.at == key.1 && th.phase.Ready?)
  }

  lemma NotBegunNotLogged(p: Program, s: System, key: Key)
    requires ThreadsOK(p, s) && LockOK(s) && LogOK(p, s) && NotBegun(s, key)
    ensures forall m :: 0 <= m < |s.log| ==> KeyOf(s.log[m]) != key
  {
    assert s.threads[key.0].phase.Ready? ==> s.holder != Some(key.0);
    forall m | 0 <= m < |s.log|
      ensures KeyOf(s.log[m]) != key
    {
      assert EntryOK(p, s, m);
    }
  }

  lemma LoggedInOrder(p: Program, t0: Table, mid: System, f: System, i: nat, j: nat)
    requires Inv(p, t0, mid) && Inv(p, t0, f) && LogExtends(mid, f) && i < |f.log| && j < |f.log|
    requires KeyOf(f.log[i]) in mid.results && NotBegun(mid, KeyOf(f.log[j]))
    ensures i < j
  {
    assert EntryOK(p, f, i);
    var k := PositionOf(p, t0, mid, KeyOf(f.log[i]));
    assert KeyOf(f.log[k]) == KeyOf(f.log[i]);
    NotBegunNotLogged(p, mid, KeyOf(f.log[j]));
  }

  /** The lock order respects real time: a call that was over before another began comes first. */
  lemma RealTimeOrder(p: Program, t0: Table, es: seq<Event>, more: seq<Event>, i: nat, j: nat)
    requires Execution(p, Start(p, t0), es) && Execution(p, Start(p, t0), es + more)
    requires var mid, f := Final(p, Start(p, t0), es), Final(p, Start(p, t0), es + more);
      && i < |f.log| && j < |f.log|
      && KeyOf(f.log[i]) in mid.results && NotBegun(mid, KeyOf(f.log[j]))
    ensures i < j
  {
    TwoStates(p, t0, es, more);
    LoggedInOrder(p, t0, Final(p, Start(p, t0), es), Final(p, Start(p, t0), es + more), i, j);
  }

  // ---------- Quiescence ----------

  predicate Inside(f: Phase, id: RegId) {
    f == Running(id) || f == Reentered(id)
  }

  predicate ReportsRemoval(c: Call, r: Response) {
    Unregisters(c) && (r == Removed(true) || r == Status(0))
  }

  lemma RemovalRetires(t: Table, c: Call, x: Exit)
    requires IdsBelowNext(t) && InjectiveIds(t)
    requires ReportsRemoval(c, Apply(t, c, x).1)
    ensures !t.poisoned && Target(c).value in t.entries
    ensures Retired(Apply(t, c, x).0, t.entries[Target(c).value])
  {
  }

  lemma InsideIsRegistered(p: Program, t0: Table, s: System, t: nat, id: RegId)
    requires Inv(p, t0, s) && t < |p| && Inside(s.threads[t].phase, id)
    ensures !Retired(TableAfter(t0, Completed(s)), id)
  {
  }

  /** In state `s`, the finished call `key` is the unregister at place `i` of the lock order, and `id`
      is what its name stood for when it took effect. */
  ghost predicate Unregistered(t0: Table, s: System, key: Key, i: nat, id: RegId) {
    && i < |s.log| && KeyOf(s.log[i]) == key && Unregisters(s.log[i].call)
    && var t := TableAfter(t0, s.log[..i]);
       var name := Target(s.log[i].call).value;
       name in t.entries && t.entries[name] == id
  }

  lemma RemovalAt(p: Program, t0: Table, s: System, f: System, key: Key)
    returns (i: nat, id: RegId)
    requires IdsBelowNext(t0) && InjectiveIds(t0)
    requires Inv(p, t0, s) && Completed(s) <= Completed(f)
    requires key in s.results && ReportsRemoval(p[key.0][key.1], s.results[key])
    ensures Unregistered(t0, s, key, i, id) && Retired(TableAfter(t0, Completed(f)), id)
  {
    i := PositionOf(p, t0, s, key);
    var done := Completed(s);
    assert s.log[..i] == done[..i] && ReportsRemoval(done[i].call, Answer(t0, done, i));
    id := RetiredAt(t0, done, Completed(f), i);
  }

  /** When unregister reports that it removed a registration, no thread is inside that closure,
      and in every continuation of the run no thread ever enters it again. */
  lemma UnregisterIsQuiescent(p: Program, t0: Table, es: seq<Event>, more: seq<Event>, key: Key)
    returns (i: nat, id: RegId)
    requires IdsBelowNext(t0) && InjectiveIds(t0)
    requires Execution(p, Start(p, t0), es) && Execution(p, Start(p, t0), es + more)
    requires var s := Final(p, Start(p, t0), es);
      key in s.results && key.0 < |p| && key.1 < |p[key.0]| && ReportsRemoval(p[key.0][key.1], s.results[key])
    ensures Unregistered(t0, Final(p, Start(p, t0), es), key, i, id)
    ensures var f := Final(p, Start(p, t0), es + more);
      forall t :: 0 <= t < |f.threads| ==> !Inside(f.threads[t].phase, id)
  {
    TwoStates(p, t0, es, more);
    var f := Final(p, Start(p, t0), es + more);
    i, id := RemovalAt(p, t0, Final(p, Start(p, t0), es), f, key);
    NobodyInside(p, t0, f, id);
  }

  lemma NobodyInside(p: Program, t0: Table, f: System, id: RegId)
    requires Inv(p, t0, f) && Retired(TableAfter(t0, Completed(f)), id)
    ensures forall t :: 0 <= t < |f.threads| ==> !Inside(f.threads[t].phase, id)
  {
    forall t | 0 <= t < |f.threads|
      ensures !Inside(f.threads[t].phase, id)
    {
      if Inside(f.threads[t].phase, id) {
        InsideIsRegistered(p, t0, f, t, id);
      }
    }
  }

  lemma RetiredAt(t0: Table, log: seq<Entry>, later: seq<Entry>, i: nat) returns (id: RegId)
    requires IdsBelowNext(t0) && InjectiveIds(t0)
    requires i < |log| && log <= later && ReportsRemoval(log[i].call, Answer(t0, log, i))
    ensures Target(log[i].call).Ok?
    ensures var t := TableAfter(t0, log[..i]);
      Target(log[i].call).value in t.entries && t.entries[Target(log[i].call).value] == id
    ensures Retired(TableAfter(t0, later), id)
  {
    var t := TableAfter(t0, log[..i]);
    IdsStayUnique(t0, log[..i]);
    RemovalRetires(t, log[i].call, log[i].exit);
    id := t.entries[Target(log[i].call).value];
    var upTo := log[..i + 1];
    assert Before(upTo) == log[..i] && Last(upTo) == log[i];
    assert later == upTo + later[i + 1..];
    ReplaySplits(t0, upTo, later[i + 1..]);
    StaysRetired(TableAfter(t0, upTo), later[i + 1..], id);
  }

  lemma OtherStepDuringCallback(p: Program, s: System, u: nat, id: RegId, e: Event)
    requires ThreadsOK(p, s) && LockOK(s) && u < |p| && Inside(s.threads[u].phase, id) && Enabled(p, s, e) && e.t != u
    ensures Next(p, s, e).table == s.table && Next(p, s, e).threads[u] == s.threads[u] && !e.Acquire?
  {
    assert s.holder == Some(u);
  }

  lemma StepDuringCallback(p: Program, t0: Table, s: System, u: nat, id: RegId, e: Event)
    requires Inv(p, t0, s) && u < |p| && Inside(s.threads[u].phase, id) && Enabled(p, s, e) && e.t != u
    ensures var s' := Next(p, s, e);
      Inv(p, t0, s') && s'.table == s.table && Inside(s'.threads[u].phase, id) && !e.Acquire?
  {
    OtherStepDuringCallback(p, s, u, id, e);
    StepKeepsInv(p, t0, s, e);
  }

  /** If every step that may be taken from a state of one kind leads to a state of that kind, leaves
      the table alone and takes no lock, so does every run. */
  lemma {:induction false} RunStaysFrozen(p: Program, s: System, es: seq<Event>, kind: System -> bool,
                                          may: Event -> bool)
    requires kind(s) && Execution(p, s, es) && forall i :: 0 <= i < |es| ==> may(es[i])
    requires forall x: System, e: Event :: kind(x) && may(e) && Enabled(p, x, e) ==>
               kind(Next(p, x, e)) && Next(p, x, e).table == x.table && !e.Acquire?
    ensures kind(Final(p, s, es)) && Final(p, s, es).table == s.table
    ensures forall i :: 0 <= i < |es| ==> !es[i].Acquire?
    decreases |es|
  {
    if es != [] {
      var rest := es[1..];
      RunStaysFrozen(p, Next(p, s, es[0]), rest, kind, may);
      assert forall i :: 1 <= i < |es| ==> es[i] == rest[i - 1];
    }
  }

  ghost predicate Occupied(p: Program, t0: Table, s: System, u: nat, id: RegId) {
    Inv(p, t0, s) && u < |p| && Inside(s.threads[u].phase, id)
  }

  lemma OccupiedHoldsLock(p: Program, t0: Table, s: System, u: nat, id: RegId)
    requires Occupied(p, t0, s, u, id)
    ensures s.holder == Some(u)
  {
  }

  /** From the moment a thread enters a closure until its own next step, nothing that the other
      threads do, for however long, changes the table or gives any of them the lock. */
  lemma TableFrozenDuringCallback(p: Program, t0: Table, s: System, u: nat, id: RegId, es: seq<Event>)
    requires Inv(p, t0, s) && u < |p| && Inside(s.threads[u].phase, id)
    requires Execution(p, s, es) && forall i :: 0 <= i < |es| ==> es[i].t != u
    ensures Final(p, s, es).table == s.table && Final(p, s, es).holder == Some(u)
    ensures forall i :: 0 <= i < |es| ==> !es[i].Acquire?
  {
    forall x: System, e: Event | Occupied(p, t0, x, u, id) && e.t != u && Enabled(p, x, e)
      ensures Occupied(p, t0, Next(p, x, e), u, id) && Next(p, x, e).table == x.table && !e.Acquire?
    {
      StepDuringCallback(p, t0, x, u, id, e);
    }
    RunStaysFrozen(p, s, es, x => Occupied(p, t0, x, u, id), (e: Event) => e.t != u);
    OccupiedHoldsLock(p, t0, Final(p, s, es), u, id);
  }

  // ---------- Poison ----------

  lemma TablePoison(p: Program, t0: Table, s: System)
    requires Inv(p, t0, s)
    ensures s.table.poisoned <==> TableAfter(t0, Completed(s)).poisoned
    ensures s.table.poisoned ==> s.table == TableAfter(t0, Completed(s))
  {
    if s.holder.Some? {
      assert EntryOK(p, s, |s.log| - 1);
    }
  }

  lemma PoisonReported(p: Program, t0: Table, s: System)
    returns (key: Key)
    requires Inv(p, t0, s) && !t0.poisoned && s.table.poisoned
    ensures key in s.results && s.results[key] == Coded(Panic)
  {
    var done := Completed(s);
    TablePoison(p, t0, s);
    PoisonHasOneCause(t0, done);
    var i :| 0 <= i < |done| && Answer(t0, done, i) == Coded(Panic);
    key := KeyOf(done[i]);
    ResultAt(p, t0, s, i);
  }

  /** The recorded result of the call at position `i` of the lock order. */
  lemma ResultAt(p: Program, t0: Table, s: System, i: nat)
    requires Inv(p, t0, s) && i < |Completed(s)|
    ensures var done := Completed(s);
      KeyOf(done[i]) in s.results && s.results[KeyOf(done[i])] == Answer(t0, done, i)
  {
    var done := Completed(s);
    assert forall j :: 0 <= j < |done| ==> done[j] == s.log[j];
    ReplayAnswers(t0, done, i);
    assert EntryOK(p, s, i);
  }

  lemma ReportMeansPoison(p: Program, t0: Table, s: System, key: Key)
    requires Inv(p, t0, s) && !t0.poisoned
    requires key in s.results && s.results[key] == Coded(Panic)
    ensures s.table.poisoned
  {
    var c := p[key.0][key.1];
    if !Accepted(c) {
      RejectionIsNoPanic(c);
    } else {
      var i := PositionOf(p, t0, s, key);
      PoisonHasOneCause(t0, Completed(s));
      TablePoison(p, t0, s);
    }
  }

  lemma RejectionIsNoPanic(c: Call)
    requires !Accepted(c)
    ensures Rejection(c) != Coded(Panic)
  {
  }

  lemma PanicAnswer(t: Table, c: Call, x: Exit)
    requires !t.poisoned
    ensures Apply(t, c, x).1 == Coded(Panic) <==> Runs(t, c).Some? && x.Panicked?
  {
    if !Accepted(c) {
      RejectionIsNoPanic(c);
    }
  }

  lemma PanicInLog(p: Program, t0: Table, es: seq<Event>, i: nat)
    requires Execution(p, Start(p, t0), es) && !t0.poisoned && i < |Completed(Final(p, Start(p, t0), es))|
    ensures var s := Final(p, Start(p, t0), es);
      var ends := Ends(p, Start(p, t0), es, map[]);
      i < |s.log| && (Answer(t0, s.log, i) == Coded(Panic) <==>
                      KeyOf(s.log[i]) in ends && ends[KeyOf(s.log[i])].exit.Panicked?)
  {
    var s := Final(p, Start(p, t0), es);
    ExitsAreReal(p, t0, es, i);
    var q := TableAfter(t0, s.log[..i]);
    if !q.poisoned {
      PanicAnswer(q, s.log[i].call, s.log[i].exit);
    } else {
      PoisonedAnswer(q, s.log[i].call, s.log[i].exit);
    }
  }

  lemma PoisonedAnswer(t: Table, c: Call, x: Exit)
    requires t.poisoned
    ensures Apply(t, c, x).1 != Coded(Panic) && Runs(t, c).None?
  {
    if !Accepted(c) {
      RejectionIsNoPanic(c);
    }
  }

  /** The calls that reported a panicking callback are those whose closure panicked. */
  lemma PanicIsReported(p: Program, t0: Table, es: seq<Event>, key: Key)
    requires Execution(p, Start(p, t0), es) && !t0.poisoned
    requires key in Final(p, Start(p, t0), es).results
    ensures var s := Final(p, Start(p, t0), es);
      var ends := Ends(p, Start(p, t0), es, map[]);
      s.results[key] == Coded(Panic) <==> key in ends && ends[key].exit.Panicked?
  {
    var s := Final(p, Start(p, t0), es);
    var ends := Ends(p, Start(p, t0), es, map[]);
    StartInv(p, t0);
    RunKeepsInv(p, t0, Start(p, t0), es);
    var c := p[key.0][key.1];
    if Accepted(c) {
      var i := PositionOf(p, t0, s, key);
      PanicInLog(p, t0, es, i);
    } else {
      RejectionIsNoPanic(c);
      EndedIsAccepted(p, t0, es, key);
    }
  }

  lemma EndedIsAccepted(p: Program, t0: Table, es: seq<Event>, key: Key)
    requires Execution(p, Start(p, t0), es)
    ensures key in Ends(p, Start(p, t0), es, map[]) ==>
            key.0 < |p| && key.1 < |p[key.0]| && Accepted(p[key.0][key.1])
  {
    var s := Final(p, Start(p, t0), es);
    StartInv(p, t0);
    RunKeepsInv(p, t0, Start(p, t0), es);
    RunKeepsExits(p, t0, Start(p, t0), es, map[]);
    if key in Ends(p, Start(p, t0), es, map[]) {
      var i :| 0 <= i < |s.log| && KeyOf(s.log[i]) == key;
      assert EntryOK(p, s, i);
    }
  }

  /** The flag is set exactly when some call has reported a panicking callback, and exactly when the
      closure of some finished call did panic. */
  lemma PoisonCause(p: Program, t0: Table, es: seq<Event>)
    requires Execution(p, Start(p, t0), es) && !t0.poisoned
    ensures var s := Final(p, Start(p, t0), es);
      s.table.poisoned <==> exists key :: key in s.results && s.results[key] == Coded(Panic)
    ensures var s := Final(p, Start(p, t0), es);
      var ends := Ends(p, Start(p, t0), es, map[]);
      s.table.poisoned <==> exists key :: key in s.results && key in ends && ends[key].exit.Panicked?
  {
    StartInv(p, t0);
    RunKeepsInv(p, t0, Start(p, t0), es);
    var s := Final(p, Start(p, t0), es);
    var ends := Ends(p, Start(p, t0), es, map[]);
    forall key | key in s.results
      ensures s.results[key] == Coded(Panic) <==> key in ends && ends[key].exit.Panicked?
    {
      PanicIsReported(p, t0, es, key);
    }
    if s.table.poisoned {
      var key := PoisonReported(p, t0, s);
    }
    forall key | key in s.results && s.results[key] == Coded(Panic)
      ensures s.table.poisoned
    {
      ReportMeansPoison(p, t0, s, key);
    }
  }

  lemma PoisonedTable(t0: Table, done: seq<Entry>, later: seq<Entry>)
    requires done <= later && TableAfter(t0, done).poisoned
    requires forall j :: 0 <= j < |later| ==> Accepted(later[j].call)
    ensures TableAfter(t0, later) == TableAfter(t0, done)
  {
    var rest := later[|done|..];
    assert later == done + rest;
    PoisonedForever(TableAfter(t0, done), rest);
    ReplaySplits(t0, done, rest);
  }

  lemma PoisonedApply(t: Table, e: Entry)
    requires t.poisoned && Accepted(e.call)
    ensures Apply(t, e.call, e.exit).1 == PoisonResponse(e.call)
  {
    PoisonedForever(t, [e]);
    assert Before([e]) == [] && Answer(t, [e], 0) == PoisonResponse(e.call);
  }

  lemma PoisonedLogTail(t0: Table, done: seq<Entry>, later: seq<Entry>)
    requires done <= later && TableAfter(t0, done).poisoned
    requires forall j :: 0 <= j < |later| ==> Accepted(later[j].call)
    ensures TableAfter(t0, later) == TableAfter(t0, done)
    ensures forall i :: |done| <= i < |later| ==> Answer(t0, later, i) == PoisonResponse(later[i].call)
  {
    PoisonedTable(t0, done, later);
    forall i | |done| <= i < |later|
      ensures Answer(t0, later, i) == PoisonResponse(later[i].call)
    {
      PoisonedTable(t0, done, later[..i]);
      PoisonedApply(TableAfter(t0, done), later[i]);
    }
  }

  lemma CompletedAccepted(p: Program, f: System)
    requires |f.threads| == |p| && LogOK(p, f)
    ensures forall j :: 0 <= j < |Completed(f)| ==> Accepted(Completed(f)[j].call)
  {
    forall j | 0 <= j < |Completed(f)|
      ensures Accepted(Completed(f)[j].call)
    {
      assert Completed(f)[j] == f.log[j] && EntryOK(p, f, j);
    }
  }

  lemma PoisonedState(p: Program, t0: Table, s: System, f: System)
    requires Inv(p, t0, s) && Inv(p, t0, f) && LogExtends(s, f) && s.table.poisoned
    ensures f.table == s.table
    ensures forall i :: |Completed(s)| <= i < |Completed(f)| ==>
              Answer(t0, Completed(f), i) == PoisonResponse(Completed(f)[i].call)
  {
    TablePoison(p, t0, s);
    CompletedAccepted(p, f);
    PoisonedLogTail(t0, Completed(s), Completed(f));
    TablePoison(p, t0, f);
  }

  /** A call turned away by the poisoned lock: `LockPoisoned` to Rust, -2 or code 8 to C, count 0. */
  predicate TurnedAway(c: Call, r: Response) {
    match c
    case RustRegister(_) => r.PoisonError?
    case RustUnregister(_) => r.PoisonError?
    case CRegister(_) => r.Status? && r.status == -2
    case CUnregister(_) => r.Status? && r.status == -2
    case CInvoke(_) => r.Coded? && Number(r.code) == 8
    case Count => r.Size? && r.n == 0
  }

  lemma LateCallIsPoisoned(p: Program, t0: Table, s: System, f: System, key: Key)
    requires Inv(p, t0, s) && Inv(p, t0, f) && LogExtends(s, f) && s.table.poisoned
    requires key in f.results && key !in s.results
    ensures var c := p[key.0][key.1];
      f.results[key] == if Accepted(c) then PoisonResponse(c) else Rejection(c)
  {
    if Accepted(p[key.0][key.1]) {
      PoisonedState(p, t0, s, f);
      var i := PositionOf(p, t0, f, key);
      if i < |Completed(s)| {
        ResultAt(p, t0, s, i);
      }
    }
  }

  /** From `s` on, the table has not changed and every finished call was turned away or rejected. */
  ghost predicate FrozenSince(p: Program, s: System, f: System) {
    && f.table == s.table
    && forall key :: key in f.results && key !in s.results ==>
         && key.0 < |p| && key.1 < |p[key.0]|
         && var c := p[key.0][key.1];
            if Accepted(c) then TurnedAway(c, f.results[key]) else f.results[key] == Rejection(c)
  }

  lemma FrozenStates(p: Program, t0: Table, s: System, f: System)
    requires Inv(p, t0, s) && Inv(p, t0, f) && LogExtends(s, f) && s.table.poisoned
    ensures FrozenSince(p, s, f)
  {
    PoisonedState(p, t0, s, f);
    forall key | key in f.results && key !in s.results
      ensures var c := p[key.0][key.1];
        if Accepted(c) then TurnedAway(c, f.results[key]) else f.results[key] == Rejection(c)
    {
      LateCallIsPoisoned(p, t0, s, f, key);
      PoisonTurnsAway(p[key.0][key.1]);
    }
  }

  lemma PoisonTurnsAway(c: Call)
    ensures TurnedAway(c, PoisonResponse(c))
  {
  }

  /** Once the flag is set, the table never changes again and every call that finishes later is
      turned away, or was rejected for its name before the lock. */
  lemma PoisonIsFinal(p: Program, t0: Table, es: seq<Event>, more: seq<Event>)
    requires Execution(p, Start(p, t0), es) && Execution(p, Start(p, t0), es + more)
    requires Final(p, Start(p, t0), es).table.poisoned
    ensures FrozenSince(p, Final(p, Start(p, t0), es), Final(p, Start(p, t0), es + more))
  {
    TwoStates(p, t0, es, more);
    FrozenStates(p, t0, Final(p, Start(p, t0), es), Final(p, Start(p, t0), es + more));
  }
}
