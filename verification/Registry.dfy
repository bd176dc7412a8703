/** The callback registry (rust/src/callback.rs): a table of named closures behind a mutex that a
    panicking holder poisons. Each registration gets its own number, so that "the closure
    registered last" can be told from an earlier one of the same name. */
module Registry {
  import opened Wrappers
  import opened Machine
  import opened Errors
  import opened Names

  type RegId = nat

  datatype Table = Table(entries: map<Name, RegId>, poisoned: bool, next: RegId)

  const EMPTY_TABLE: Table := Table(map[], false, 0)

  /** A call into the registry. The C functions take a pointer that may be null, and read the
      name from NUL-terminated memory; the Rust functions take a `&str`. */
  datatype Call =
    | RustRegister(name: Name)
    | RustUnregister(name: Name)
    | CRegister(raw: Option<seq<byte>>)
    | CUnregister(raw: Option<seq<byte>>)
    | CInvoke(raw: Option<seq<byte>>)
    | Count

  /** How the closure behind an invoke ends, if one is run. */
  datatype Exit = Returned(ok: bool) | Panicked

  datatype Response =
    | Registered
    | Removed(found: bool)
    | PoisonError
    | Status(status: int)
    | Coded(code: FfiErrorCode)
    | Size(n: nat)

  /** The name a call works on, or why the call is turned away before it touches the lock. */
  function Target(c: Call): Result<Name, FfiError> {
    match c
    case RustRegister(n) => Ok(n)
    case RustUnregister(n) => Ok(n)
    case CRegister(raw) => CstrToString(raw)
    case CUnregister(raw) => CstrToString(raw)
    case CInvoke(raw) => CstrToString(raw)
    case Count => Ok([])
  }

  predicate Accepted(c: Call) {
    Target(c).Ok?
  }

  function Rejection(c: Call): Response
    requires !Accepted(c)
  {
    if c.CInvoke? then Coded(Code(Target(c).error)) else Status(-1)
  }

  /** A C name is turned away exactly if it is null or not UTF-8 up to its first NUL. */
  lemma RejectedIff(raw: Option<seq<byte>>)
    ensures !Accepted(CRegister(raw)) <==> raw.None? || !Utf8.Valid(NulPrefix(raw.value))
    ensures Accepted(CRegister(raw)) == Accepted(CUnregister(raw)) == Accepted(CInvoke(raw))
    ensures forall n: Name :: Accepted(RustRegister(n)) && Accepted(RustUnregister(n))
  {
  }

  predicate Registers(c: Call) {
    (c.RustRegister? || c.CRegister?) && Accepted(c)
  }

  predicate Unregisters(c: Call) {
    (c.RustUnregister? || c.CUnregister?) && Accepted(c)
  }

  function PoisonResponse(c: Call): Response {
    match c
    case RustRegister(_) => PoisonError
    case RustUnregister(_) => PoisonError
    case CRegister(_) => Status(-2)
    case CUnregister(_) => Status(-2)
    case CInvoke(_) => Coded(LockPoisoned)
    case Count => Size(0)
  }

  /** The closure an invoke runs, if any. */
  function Runs(t: Table, c: Call): Option<RegId> {
    if c.CInvoke? && Accepted(c) && !t.poisoned && Target(c).value in t.entries
    then Some(t.entries[Target(c).value]) else None
  }

  function ExitCode(x: Exit): FfiErrorCode {
    match x
    case Returned(ok) => if ok then FfiOk else Unknown
    case Panicked => Panic
  }

  /** One call from taking the lock to giving it back. */
  function Apply(t: Table, c: Call, x: Exit): (Table, Response) {
    if !Accepted(c) then (t, Rejection(c))
    else if t.poisoned then (t, PoisonResponse(c))
    else
      var name := Target(c).value;
      match c
      case RustRegister(_) => (Insert(t, name), Registered)
      case CRegister(_) => (Insert(t, name), Status(0))
      case RustUnregister(_) => (Remove(t, name), Removed(name in t.entries))
      case CUnregister(_) => (Remove(t, name), Status(if name in t.entries then 0 else -1))
      case Count => (t, Size(|t.entries|))
      case CInvoke(_) =>
        if name !in t.entries then (t, Coded(NotFound))
        else (t.(poisoned := x.Panicked?), Coded(ExitCode(x)))
  }

  /** A call with a bad name leaves every table alone, poisoned or not: -1 from register and
      unregister, and from invoke code 1 for a null pointer and 3 for bytes that are not UTF-8. */
  lemma RejectedAnswers(t: Table, c: Call, x: Exit)
    requires !Accepted(c)
    ensures c.CRegister? || c.CUnregister? || c.CInvoke?
    ensures Apply(t, c, x).0 == t
    ensures !c.CInvoke? ==> Apply(t, c, x).1 == Status(-1)
    ensures c.CInvoke? ==> Apply(t, c, x).1.Coded? && Number(Apply(t, c, x).1.code) == if c.raw.None? then 1 else 3
  {
  }

  /** What the status of a C registration tells its caller. */
  lemma RegisterStatus(t: Table, raw: Option<seq<byte>>, x: Exit)
    ensures var (t2, r) := Apply(t, CRegister(raw), x);
      && r.Status?
      && (r.status == 0 <==> Accepted(CRegister(raw)) && !t.poisoned)
      && (r.status == -1 <==> raw.None? || !Utf8.Valid(NulPrefix(raw.value)))
      && (r.status == -2 <==> Accepted(CRegister(raw)) && t.poisoned)
      && (r.status == 0 <==> t2 != t)
      && (r.status == 0 ==> NulPrefix(raw.value) in t2.entries && t2.entries[NulPrefix(raw.value)] == t.next)
      && (forall n :: Some(n) != (if r.status == 0 then Some(NulPrefix(raw.value)) else None) ==>
            (n in t2.entries <==> n in t.entries) && (n in t.entries ==> t2.entries[n] == t.entries[n]))
  {
  }

  /** And that of an unregistration: -1 stands for a bad name and for a name that is not registered. */
  lemma UnregisterStatus(t: Table, raw: Option<seq<byte>>, x: Exit)
    ensures var (t2, r) := Apply(t, CUnregister(raw), x);
      && r.Status?
      && (r.status == 0 <==> Accepted(CUnregister(raw)) && !t.poisoned && NulPrefix(raw.value) in t.entries)
      && (r.status == -2 <==> Accepted(CUnregister(raw)) && t.poisoned)
      && (r.status == 0 || r.status == -1 || r.status == -2)
      && (r.status == 0 <==> t2 != t)
      && (r.status == 0 ==> t2 == t.(entries := t.entries - {NulPrefix(raw.value)}))
  {
    if Accepted(CUnregister(raw)) && NulPrefix(raw.value) !in t.entries {
      assert t.entries - {NulPrefix(raw.value)} == t.entries;
    }
  }

  /** The Rust functions work on the very name they are given: the table after a register, entry by
      entry, and the count. */
  lemma RustRegisterAnswers(t: Table, name: Name, x: Exit)
    ensures Apply(t, RustRegister(name), x) ==
            if t.poisoned then (t, PoisonError)
            else (Table(t.entries[name := t.next], false, t.next + 1), Registered)
    ensures Apply(t, Count, x) == (t, Size(if t.poisoned then 0 else |t.entries|))
  {
  }

  /** And after an unregister. */
  lemma RustUnregisterAnswers(t: Table, name: Name, x: Exit)
    ensures var (t2, r) := Apply(t, RustUnregister(name), x);
      && r == (if t.poisoned then PoisonError else Removed(name in t.entries))
      && t2.poisoned == t.poisoned && t2.next == t.next
      && (forall n :: n in t2.entries <==> n in t.entries && (t.poisoned || n != name))
      && (forall n :: n in t2.entries ==> t2.entries[n] == t.entries[n])
  {
  }

  /** An invoke runs the entry under the NUL-free prefix of its name, on a healthy lock only. */
  lemma InvokeRunsEntry(t: Table, raw: Option<seq<byte>>, id: RegId)
    ensures Runs(t, CInvoke(raw)) == Some(id) <==>
            && raw.Some? && Utf8.Valid(NulPrefix(raw.value)) && !t.poisoned
            && NulPrefix(raw.value) in t.entries && t.entries[NulPrefix(raw.value)] == id
  {
  }

  function Insert(t: Table, name: Name): Table {
    t.(entries := t.entries[name := t.next], next := t.next + 1)
  }

  function Remove(t: Table, name: Name): Table {
    t.(entries := t.entries - {name})
  }

  // ---------- The static CALLBACKS, in place ----------

  class CallbackRegistry {
    var entries: map<Name, RegId>
    var poisoned: bool
    var next: RegId

    constructor ()
      ensures State() == EMPTY_TABLE
    {
      entries, poisoned, next := map[], false, 0;
    }

    function State(): Table
      reads this
    {
      Table(entries, poisoned, next)
    }

    method RegisterCallback(name: Name) returns (r: Response)
      modifies this
      ensures (State(), r) == Apply(old(State()), RustRegister(name), Returned(true))
    {
      if poisoned {
        return PoisonError;
      }
      entries, next := entries[name := next], next + 1;
      r := Registered;
    }

    method UnregisterCallback(name: Name) returns (r: Response)
      modifies this
      ensures (State(), r) == Apply(old(State()), RustUnregister(name), Returned(true))
    {
      if poisoned {
        return PoisonError;
      }
      r := Removed(name in entries);
      entries := entries - {name};
    }

    method CallbackCount() returns (n: nat)
      ensures (State(), Size(n)) == Apply(old(State()), Count, Returned(true))
    {
      n := if poisoned then 0 else |entries|;
    }

    method FfiRegisterCallback(raw: Option<seq<byte>>) returns (status: int)
      modifies this
      ensures (State(), Status(status)) == Apply(old(State()), CRegister(raw), Returned(true))
    {
      var name := CstrToString(raw);
      if name.Err? {
        return -1;
      }
      if poisoned {
        return -2;
      }
      entries, next := entries[name.value := next], next + 1;
      status := 0;
    }

    method FfiUnregisterCallback(raw: Option<seq<byte>>) returns (status: int)
      modifies this
      ensures (State(), Status(status)) == Apply(old(State()), CUnregister(raw), Returned(true))
    {
      var name := CstrToString(raw);
      if name.Err? {
        return -1;
      }
      if poisoned {
        return -2;
      }
      status := if name.value in entries then 0 else -1;
      entries := entries - {name.value};
    }
  }
}
