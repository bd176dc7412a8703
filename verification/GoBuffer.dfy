/** Go's owner of a Rust buffer (go/bridge.go) and the cross-boundary copies (go/memory.go). */
module GoBuffer {
  import opened Wrappers
  import opened Machine
  import opened Memory

  /** The value of a `*Buffer`: its struct, its `freed` flag, and whether its finalizer is set. */
  datatype Owner = Owner(inner: FfiBuffer, freed: bool, finalizer: bool)

  /** A Go byte slice, or the run-time panic that a negative length raises. */
  datatype Slice = Nil | Bytes(bytes: seq<byte>) | OutOfRange

  /** `C.GoBytes` and `C.GoStringN`: copy `n` bytes out. */
  function GoCopy(h: Heap, p: Ptr, n: int): (Heap, Slice) {
    if n < 0 then (h, OutOfRange)
    else var (h1, bytes) := Read(h, p, n); (h1, Bytes(bytes))
  }

  function Wrap(raw: FfiBuffer): Owner {
    Owner(raw, false, true)
  }

  function NewBuffer(h: Heap, capacity: nat): (Heap, Owner) {
    var (h1, raw) := BufferNew(h, capacity);
    (h1, Wrap(raw))
  }

  function FromBytes(h: Heap, data: seq<byte>): (Heap, Owner) {
    var (h1, b) := NewBuffer(h, |data|);
    if data == [] then (h1, b)
    else (CopyIn(h1, b.inner.data, data), b.(inner := b.inner.(len := |data|)))
  }

  /** `Bytes()`. */
  function Contents(h: Heap, b: Owner): (Heap, Slice) {
    if b.freed || b.inner.data.Null? || b.inner.len == 0 then (h, Nil)
    else GoCopy(h, b.inner.data, CInt(b.inner.len))
  }

  function Len(b: Owner): nat {
    if b.freed then 0 else b.inner.len
  }

  /** `ToJSON`, for a given decoder. */
  datatype Decoded<T> = EmptyOrFreed | Malformed | Decoded(value: T) | ReadPanic

  function ToJson<T>(h: Heap, b: Owner, decode: seq<byte> -> Option<T>): (Heap, Decoded<T>) {
    var (h1, s) := Contents(h, b);
    match s
    case Nil => (h1, EmptyOrFreed)
    case OutOfRange => (h1, ReadPanic)
    case Bytes(bytes) => (h1, match decode(bytes) case None => Malformed case Some(v) => Decoded(v))
  }

  function FreeOwner(h: Heap, b: Owner): (Heap, Owner) {
    if b.freed then (h, b) else (BufferFree(h, b.inner), b.(freed := true, finalizer := false))
  }

  /** The garbage collector runs the finalizer, if one is set. */
  function Finalize(h: Heap, b: Owner): (Heap, Owner) {
    if b.finalizer then FreeOwner(h, b) else (h, b)
  }

  // ---------- go/memory.go ----------

  /** `GoStringFromFfiString`; `OutOfRange` is a Go panic. */
  function GoString(h: Heap, s: FfiString): (Heap, Slice) {
    if s.data.Null? || s.len == 0 then (h, Bytes([])) else GoCopy(h, s.data, CInt(s.len))
  }

  /** `AllocFfiString`: the length is passed on, so NULs inside the string survive. */
  function AllocFfiString(h: Heap, s: seq<byte>): (Heap, FfiString) {
    if s == [] then (h, NULL_STRING) else StringAlloc(h, Some(s))
  }

  /** `copyBuffer`; nothing if the read panics. */
  function CopyBuffer(h: Heap, raw: FfiBuffer): (Heap, Option<Owner>) {
    if raw.data.Null? || raw.len == 0 then (h, Some(Wrap(NULL_BUFFER)))
    else
      var (h1, s) := GoCopy(h, raw.data, CInt(raw.len));
      if s.Bytes? then var (h2, b) := FromBytes(h1, s.bytes); (h2, Some(b)) else (h1, None)
  }

  // ---------- The owner's life ----------

  datatype OwnerEvent = FreeCalled | FinalizerFired

  function OwnerStep(h: Heap, b: Owner, e: OwnerEvent): (Heap, Owner) {
    match e
    case FreeCalled => FreeOwner(h, b)
    case FinalizerFired => Finalize(h, b)
  }

  /** A sequence of events, and how many times it called `ffi_buffer_free`. */
  function OwnerLife(h: Heap, b: Owner, es: seq<OwnerEvent>): (Heap, Owner, nat)
    decreases |es|
  {
    if es == [] then (h, b, 0)
    else
      var (h1, b1) := OwnerStep(h, b, es[0]);
      var (h2, b2, n) := OwnerLife(h1, b1, es[1..]);
      (h2, b2, n + if b1.freed && !b.freed then 1 else 0)
  }

  /** However often an owner is freed or finalized, in whatever order, the Rust buffer is freed
      once; afterwards every read of the owner sees an empty buffer and touches no memory. */
  lemma {:induction false} FreedOnce<T>(h: Heap, b: Owner, es: seq<OwnerEvent>, g: Heap,
                                        decode: seq<byte> -> Option<T>)
    requires b.finalizer == !b.freed
    ensures var (h2, b2, n) := OwnerLife(h, b, es);
      && n == (if es != [] && !b.freed then 1 else 0)
      && h2 == (if n == 1 then BufferFree(h, b.inner) else h)
      && b2.finalizer == !b2.freed
      && (es != [] ==> Len(b2) == 0 && Contents(g, b2) == (g, Nil) && ToJson(g, b2, decode) == (g, EmptyOrFreed))
    decreases |es|
  {
    if es != [] {
      var (h1, b1) := OwnerStep(h, b, es[0]);
      FreedOnce(h1, b1, es[1..], g, decode);
    }
  }

  // ---------- The object ----------

  /** Go's `Buffer`. The Rust heap it points into is passed to the methods that reach it. */
  class Buffer {
    var inner: FfiBuffer
    var freed: bool
    var finalizer: bool

    constructor (raw: FfiBuffer)
      ensures Value() == Wrap(raw)
    {
      inner, freed, finalizer := raw, false, true;
    }

    function Value(): Owner
      reads this
    {
      Owner(inner, freed, finalizer)
    }

    static method New(a: Allocator, capacity: nat) returns (b: Buffer)
      modifies a
      ensures fresh(b) && (a.State(), b.Value()) == NewBuffer(old(a.State()), capacity)
    {
      var raw := a.NewBuffer(capacity);
      b := new Buffer(raw);
    }

    static method OfBytes(a: Allocator, data: seq<byte>) returns (b: Buffer)
      modifies a
      ensures fresh(b) && (a.State(), b.Value()) == FromBytes(old(a.State()), data)
    {
      b := New(a, |data|);
      if |data| > 0 {
        a.Memcpy(b.inner.data, data);
        b.inner := b.inner.(len := |data|);
      }
    }

    method Bytes(a: Allocator) returns (s: Slice)
      modifies a
      ensures (a.State(), s) == Contents(old(a.State()), Value())
    {
      if freed || inner.data.Null? || inner.len == 0 {
        return Nil;
      }
      if CInt(inner.len) < 0 {
        return OutOfRange;
      }
      var bytes := a.Load(inner.data, CInt(inner.len));
      s := Slice.Bytes(bytes);
    }

    method Free(a: Allocator)
      modifies this, a
      ensures (a.State(), Value()) == FreeOwner(old(a.State()), old(Value()))
    {
      if !freed {
        a.FreeBuffer(inner);
        freed := true;
        finalizer := false;
      }
    }
  }

  method CopyOf(a: Allocator, raw: FfiBuffer) returns (b: Buffer?)
    modifies a
    ensures b != null ==> fresh(b)
    ensures (a.State(), if b == null then None else Some(b.Value())) == CopyBuffer(old(a.State()), raw)
  {
    if raw.data.Null? || raw.len == 0 {
      b := new Buffer(NULL_BUFFER);
      return;
    }
    if CInt(raw.len) < 0 {
      return null;
    }
    var bytes := a.Load(raw.data, CInt(raw.len));
    b := Buffer.OfBytes(a, bytes);
  }
}
