/** What a sequence of registry calls means: the one-at-a-time machine that every concurrent run
    is compared with, and a description of its states that does not mention the table. */
module History {
  import opened Wrappers
  import opened Errors
  import opened Names
  import opened Registry

  /** The call with number `at` of thread `tid`, and how its closure ended if it ran one. */
  datatype Entry = Entry(tid: nat, at: nat, call: Call, exit: Exit)

  type Key = (nat, nat)

  function KeyOf(e: Entry): Key {
    (e.tid, e.at)
  }

  function Before(log: seq<Entry>): seq<Entry>
    requires log != []
  {
    log[..|log| - 1]
  }

  function Last(log: seq<Entry>): Entry
    requires log != []
  {
    log[|log| - 1]
  }

  /** The sequential machine: the table after `log`, and the response to each call. */
  function Replay(t: Table, log: seq<Entry>): (Table, map<Key, Response>) {
    if log == [] then (t, map[])
    else
      var (t1, rs) := Replay(t, Before(log));
      var (t2, r) := Apply(t1, Last(log).call, Last(log).exit);
      (t2, rs[KeyOf(Last(log)) := r])
  }

  function TableAfter(t: Table, log: seq<Entry>): Table {
    Replay(t, log).0
  }

  /** The response to the call at position `i`. */
  function Answer(t: Table, log: seq<Entry>, i: nat): Response
    requires i < |log|
  {
    Apply(TableAfter(t, log[..i]), log[i].call, log[i].exit).1
  }

  ghost predicate DistinctKeys(log: seq<Entry>) {
    forall i, j :: 0 <= i < j < |log| ==> KeyOf(log[i]) != KeyOf(log[j])
  }

  lemma ReplayStep(t: Table, log: seq<Entry>)
    requires log != []
    ensures Replay(t, log).1 == Replay(t, Before(log)).1[KeyOf(Last(log)) := Answer(t, log, |log| - 1)]
  {
    assert log[..|log| - 1] == Before(log);
  }

  /** The response recorded for a call is its answer at its position. */
  lemma {:induction false} ReplayAnswers(t: Table, log: seq<Entry>, i: nat)
    requires DistinctKeys(log) && i < |log|
    ensures KeyOf(log[i]) in Replay(t, log).1 && Replay(t, log).1[KeyOf(log[i])] == Answer(t, log, i)
  {
    ReplayStep(t, log);
    if i < |log| - 1 {
      assert Before(log)[i] == log[i] && Before(log)[..i] == log[..i];
      ReplayAnswers(t, Before(log), i);
    }
  }

  lemma {:induction false} ReplayKeys(t: Table, log: seq<Entry>, key: Key) returns (i: nat)
    requires key in Replay(t, log).1
    ensures i < |log| && KeyOf(log[i]) == key
  {
    if key == KeyOf(Last(log)) {
      i := |log| - 1;
    } else {
      i := ReplayKeys(t, Before(log), key);
    }
  }

  lemma {:induction false} ReplaySplits(t: Table, log: seq<Entry>, more: seq<Entry>)
    ensures TableAfter(t, log + more) == TableAfter(TableAfter(t, log), more)
  {
    if more == [] {
      assert log + more == log;
    } else {
      assert Before(log + more) == log + Before(more);
      ReplaySplits(t, log, Before(more));
    }
  }

  // ---------- Poison ----------

  /** Once poisoned, the table is frozen and every call gets its poisoned response. */
  lemma {:induction false} PoisonedForever(t: Table, log: seq<Entry>)
    requires t.poisoned
    requires forall i :: 0 <= i < |log| ==> Accepted(log[i].call)
    ensures TableAfter(t, log) == t
    ensures forall i :: 0 <= i < |log| ==> Answer(t, log, i) == PoisonResponse(log[i].call)
  {
    if log != [] {
      var pre := Before(log);
      assert forall i :: 0 <= i < |pre| ==> pre[i] == log[i];
      PoisonedForever(t, pre);
      forall i | 0 <= i < |log|
        ensures Answer(t, log, i) == PoisonResponse(log[i].call)
      {
        if i < |pre| {
          assert Answer(t, pre, i) == PoisonResponse(pre[i].call);
          assert pre[..i] == log[..i];
        }
      }
    }
  }

  lemma AnswerOfPrefix(t: Table, log: seq<Entry>, n: nat, i: nat)
    requires i < n <= |log|
    ensures Answer(t, log[..n], i) == Answer(t, log, i)
  {
    assert log[..n][..i] == log[..i];
  }

  /** A call poisons the lock exactly when it is told that its callback panicked. */
  lemma PanicPoisons(t: Table, c: Call, x: Exit)
    requires !t.poisoned
    ensures Apply(t, c, x).0.poisoned <==> Apply(t, c, x).1 == Coded(Panic)
  {
  }

  /** The lock is poisoned exactly when some call was told that its callback panicked. */
  lemma {:induction false} PoisonHasOneCause(t: Table, log: seq<Entry>)
    requires !t.poisoned
    ensures TableAfter(t, log).poisoned <==>
            exists i :: 0 <= i < |log| && Answer(t, log, i) == Coded(Panic)
  {
    if log != [] {
      var n := |log| - 1;
      var pre := log[..n];
      PoisonHasOneCause(t, pre);
      if TableAfter(t, pre).poisoned {
        var i :| 0 <= i < n && Answer(t, pre, i) == Coded(Panic);
        AnswerOfPrefix(t, log, n, i);
      } else {
        PanicPoisons(TableAfter(t, pre), log[n].call, log[n].exit);
        forall i | 0 <= i < n
          ensures Answer(t, log, i) != Coded(Panic)
        {
          AnswerOfPrefix(t, log, n, i);
        }
        assert TableAfter(t, log).poisoned <==> Answer(t, log, n) == Coded(Panic);
      }
    }
  }

  /** At most one call is ever told so. */
  lemma OnePanic(t: Table, log: seq<Entry>, i: nat, j: nat)
    requires !t.poisoned && i < |log| && j < |log|
    requires Answer(t, log, i) == Coded(Panic) && Answer(t, log, j) == Coded(Panic)
    ensures i == j
  {
    if i < j {
      PanicPoisonsLater(t, log, i, j);
    } else if j < i {
      PanicPoisonsLater(t, log, j, i);
    }
  }

  lemma PanicPoisonsLater(t: Table, log: seq<Entry>, i: nat, j: nat)
    requires !t.poisoned && i < j < |log|
    requires Answer(t, log, i) == Coded(Panic)
    ensures TableAfter(t, log[..j]).poisoned
    ensures Answer(t, log, j) != Coded(Panic)
  {
    var pre := log[..j];
    assert pre[..i] == log[..i] && pre[i] == log[i];
    assert Answer(t, pre, i) == Coded(Panic);
    PoisonHasOneCause(t, pre);
  }

  // ---------- Registrations are never reused ----------

  predicate IdsBelowNext(t: Table) {
    forall n :: n in t.entries ==> t.entries[n] < t.next
  }

  predicate Retired(t: Table, id: RegId) {
    id < t.next && forall n :: n in t.entries ==> t.entries[n] != id
  }

  lemma {:induction false} StaysRetired(t: Table, log: seq<Entry>, id: RegId)
    requires Retired(t, id)
    ensures Retired(TableAfter(t, log), id)
  {
    if log != [] {
      StaysRetired(t, Before(log), id);
    }
  }

  predicate InjectiveIds(t: Table) {
    forall n, m :: n in t.entries && m in t.entries && n != m ==> t.entries[n] != t.entries[m]
  }

  lemma {:induction false} IdsStayUnique(t: Table, log: seq<Entry>)
    requires IdsBelowNext(t) && InjectiveIds(t)
    ensures IdsBelowNext(TableAfter(t, log)) && InjectiveIds(TableAfter(t, log))
  {
    if log != [] {
      IdsStayUnique(t, Before(log));
    }
  }

  // ---------- A description of the table by the calls alone ----------

  predicate Targets(c: Call, name: Name) {
    Accepted(c) && Target(c) == Ok(name)
  }

  /** The number of registrations made so far. */
  function Registrations(log: seq<Entry>): nat {
    if log == [] then 0
    else Registrations(Before(log)) + if Registers(Last(log).call) then 1 else 0
  }

  /** The last effective operation on `name`: the registration it left behind, if any. */
  function LastRegistration(log: seq<Entry>, name: Name): Option<RegId> {
    if log == [] then None
    else
      var c := Last(log).call;
      if Registers(c) && Targets(c, name) then Some(Registrations(Before(log)))
      else if Unregisters(c) && Targets(c, name) then None
      else LastRegistration(Before(log), name)
  }

  /** The names whose last effective operation was a register. */
  function RegisteredNames(log: seq<Entry>): set<Name> {
    set i | 0 <= i < |log| && Registers(log[i].call)
            && LastRegistration(log, Target(log[i].call).value).Some? :: Target(log[i].call).value
  }

  lemma {:induction false} TableIsLastRegistrations(log: seq<Entry>)
    requires !TableAfter(EMPTY_TABLE, log).poisoned
    ensures TableAfter(EMPTY_TABLE, log).next == Registrations(log)
    ensures forall name :: var t := TableAfter(EMPTY_TABLE, log);
              LastRegistration(log, name) == if name in t.entries then Some(t.entries[name]) else None
  {
    if log != [] {
      TableIsLastRegistrations(Before(log));
    }
  }

  lemma {:induction false} RegisteredNamesAreRegistered(log: seq<Entry>, name: Name)
    requires LastRegistration(log, name).Some?
    ensures exists i :: 0 <= i < |log| && Registers(log[i].call) && Target(log[i].call) == Ok(name)
  {
    var c := Last(log).call;
    if Registers(c) && Targets(c, name) {
      assert log[|log| - 1].call == c;
    } else {
      RegisteredNamesAreRegistered(Before(log), name);
      var i :| 0 <= i < |log| - 1 && Registers(Before(log)[i].call) && Target(Before(log)[i].call) == Ok(name);
      assert log[i] == Before(log)[i];
    }
  }

  lemma TableNames(log: seq<Entry>)
    requires !TableAfter(EMPTY_TABLE, log).poisoned
    ensures TableAfter(EMPTY_TABLE, log).entries.Keys == RegisteredNames(log)
  {
    var t := TableAfter(EMPTY_TABLE, log);
    TableIsLastRegistrations(log);
    forall name | name in t.entries
      ensures name in RegisteredNames(log)
    {
      assert LastRegistration(log, name) == Some(t.entries[name]);
      RegisteredNamesAreRegistered(log, name);
    }
    forall name | name in RegisteredNames(log)
      ensures name in t.entries
    {
      assert LastRegistration(log, name).Some?;
    }
  }

  /** In an unpoisoned history the answer to a call follows from the calls before it: the count is
      the number of names last registered, an invoke runs the closure registered last under its
      name and reports how it ended, and reports code 7 exactly when there is none. */
  lemma HistoryDecidesAnswers(log: seq<Entry>, c: Call, x: Exit)
    requires !TableAfter(EMPTY_TABLE, log).poisoned && Accepted(c)
    ensures var t := TableAfter(EMPTY_TABLE, log);
      var r := Apply(t, c, x).1;
      var last := LastRegistration(log, Target(c).value);
      && (c.Count? ==> r == Size(|RegisteredNames(log)|))
      && (c.RustRegister? ==> r == Registered)
      && (c.CRegister? ==> r == Status(0))
      && (c.RustUnregister? ==> r == Removed(last.Some?))
      && (c.CUnregister? ==> r == Status(if last.Some? then 0 else -1))
      && (c.CInvoke? ==> (Runs(t, c) == last && r.Coded?))
      && (c.CInvoke? ==>
            Number(r.code) == if last.None? then 7 else if x.Panicked? then 5 else if x.ok then 0 else 99)
  {
    TableIsLastRegistrations(log);
    TableNames(log);
  }
}
