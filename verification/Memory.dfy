/** Rust's side of the heap (rust/src/memory.rs): an explicit heap of blocks, the plain structs
    that point into it, and the exported functions that allocate, read and free.

    A use of memory the allocator does not permit - a layout above `isize::MAX`, a second free, a
    free with another size than the block was allocated with, a read or write outside live,
    initialised bytes - does not get stuck: it raises `fault` and the heap stays faulty. Whole-run
    safety is then the statement that a run ends without a fault. */
module Memory {
  import opened Wrappers
  import opened Machine
  import Utf8

  /** `Dangling` is a non-null pointer to no block, as an empty `Vec` has. */
  datatype Ptr = Null | Dangling | At(id: nat)

  /** A block of `size` bytes whose first `|bytes|` bytes are initialised. */
  datatype Block = Block(size: nat, bytes: seq<byte>, live: bool)

  /** All blocks ever allocated, numbered in order, and the number of frees carried out. */
  datatype Heap = Heap(blocks: seq<Block>, frees: nat, fault: bool)

  datatype FfiBuffer = FfiBuffer(data: Ptr, len: nat, capacity: nat)
  datatype FfiString = FfiString(data: Ptr, len: nat)

  const EMPTY_HEAP: Heap := Heap([], 0, false)
  const NULL_BUFFER: FfiBuffer := FfiBuffer(Null, 0, 0)
  const NULL_STRING: FfiString := FfiString(Null, 0)

  predicate IsLive(h: Heap, p: Ptr) {
    p.At? && p.id < |h.blocks| && h.blocks[p.id].live
  }

  function Live(h: Heap): set<nat> {
    set id | 0 <= id < |h.blocks| && h.blocks[id].live
  }

  function Dead(h: Heap): set<nat> {
    set id | 0 <= id < |h.blocks| && !h.blocks[id].live
  }

  predicate CanRead(h: Heap, p: Ptr, n: nat) {
    n == 0 || (IsLive(h, p) && n <= |h.blocks[p.id].bytes|)
  }

  // ---------- The global allocator ----------

  function Alloc(h: Heap, size: nat): (Heap, Ptr) {
    if 0 < size <= ISIZE_MAX
    then (h.(blocks := h.blocks + [Block(size, [], true)]), At(|h.blocks|))
    else (h.(fault := true), Null)
  }

  function Dealloc(h: Heap, p: Ptr, size: nat): Heap {
    if IsLive(h, p) && h.blocks[p.id].size == size
    then h.(blocks := h.blocks[p.id := h.blocks[p.id].(live := false)], frees := h.frees + 1)
    else h.(fault := true)
  }

  function Overwrite(before: seq<byte>, data: seq<byte>): seq<byte> {
    data + if |data| <= |before| then before[|data|..] else []
  }

  /** `memcpy` of `data` to the start of a block. */
  function CopyIn(h: Heap, p: Ptr, data: seq<byte>): Heap {
    if IsLive(h, p) && |data| <= h.blocks[p.id].size
    then var b := h.blocks[p.id]; h.(blocks := h.blocks[p.id := b.(bytes := Overwrite(b.bytes, data))])
    else h.(fault := true)
  }

  function Read(h: Heap, p: Ptr, n: nat): (Heap, seq<byte>) {
    if !CanRead(h, p, n) then (h.(fault := true), [])
    else if n == 0 then (h, [])
    else (h, h.blocks[p.id].bytes[..n])
  }

  // ---------- FfiBuffer and FfiString ----------

  function BufferNew(h: Heap, capacity: nat): (Heap, FfiBuffer) {
    if capacity == 0 then (h, NULL_BUFFER)
    else var (h1, p) := Alloc(h, capacity); (h1, FfiBuffer(p, 0, capacity))
  }

  /** `from_vec` of a vector holding `bytes` that keeps `slack` spare bytes of capacity. */
  function FromVec(h: Heap, bytes: seq<byte>, slack: nat): (Heap, FfiBuffer) {
    var capacity := |bytes| + slack;
    if capacity == 0 then (h, FfiBuffer(Dangling, 0, 0))
    else
      var (h1, p) := Alloc(h, capacity);
      (CopyIn(h1, p, bytes), FfiBuffer(p, |bytes|, capacity))
  }

  function AsSlice(h: Heap, b: FfiBuffer): (Heap, seq<byte>) {
    if b.data.Null? || b.len == 0 then (h, []) else Read(h, b.data, b.len)
  }

  /** Both `dealloc` methods: a null pointer or a zero size frees nothing. */
  function Release(h: Heap, p: Ptr, size: nat): Heap {
    if p.Null? || size == 0 then h else Dealloc(h, p, size)
  }

  function BufferFree(h: Heap, b: FfiBuffer): Heap {
    Release(h, b.data, b.capacity)
  }

  function StringNew(h: Heap, s: seq<byte>): (Heap, FfiString) {
    if s == [] then (h, NULL_STRING)
    else var (h1, p) := Alloc(h, |s|); (CopyIn(h1, p, s), FfiString(p, |s|))
  }

  /** `ffi_string_alloc`; the caller's memory is null or holds the bytes. */
  function StringAlloc(h: Heap, str: Option<seq<byte>>): (Heap, FfiString) {
    if str.Some? && str.value != [] && Utf8.Valid(str.value) then StringNew(h, str.value)
    else (h, NULL_STRING)
  }

  function StringFree(h: Heap, s: FfiString): Heap {
    Release(h, s.data, s.len)
  }

  // ---------- The same, in place ----------

  /** The process-wide Rust heap, changed in place by the exported functions. */
  class Allocator {
    var blocks: seq<Block>
    var frees: nat
    var fault: bool

    constructor ()
      ensures State() == EMPTY_HEAP
    {
      blocks, frees, fault := [], 0, false;
    }

    function State(): Heap
      reads this
    {
      Heap(blocks, frees, fault)
    }

    method Allocate(size: nat) returns (p: Ptr)
      modifies this
      ensures (State(), p) == Alloc(old(State()), size)
    {
      if 0 < size <= ISIZE_MAX {
        p := At(|blocks|);
        blocks := blocks + [Block(size, [], true)];
      } else {
        p, fault := Null, true;
      }
    }

    method Deallocate(p: Ptr, size: nat)
      modifies this
      ensures State() == Dealloc(old(State()), p, size)
    {
      if IsLive(State(), p) && blocks[p.id].size == size {
        blocks := blocks[p.id := blocks[p.id].(live := false)];
        frees := frees + 1;
      } else {
        fault := true;
      }
    }

    method Memcpy(p: Ptr, data: seq<byte>)
      modifies this
      ensures State() == CopyIn(old(State()), p, data)
    {
      if IsLive(State(), p) && |data| <= blocks[p.id].size {
        blocks := blocks[p.id := blocks[p.id].(bytes := Overwrite(blocks[p.id].bytes, data))];
      } else {
        fault := true;
      }
    }

    method Load(p: Ptr, n: nat) returns (bytes: seq<byte>)
      modifies this
      ensures (State(), bytes) == Read(old(State()), p, n)
    {
      bytes := [];
      if !CanRead(State(), p, n) {
        fault := true;
      } else if n > 0 {
        bytes := blocks[p.id].bytes[..n];
      }
    }

    method NewBuffer(capacity: nat) returns (b: FfiBuffer)
      modifies this
      ensures (State(), b) == BufferNew(old(State()), capacity)
    {
      if capacity == 0 {
        return NULL_BUFFER;
      }
      var p := Allocate(capacity);
      b := FfiBuffer(p, 0, capacity);
    }

    method BufferFromVec(bytes: seq<byte>, slack: nat) returns (b: FfiBuffer)
      modifies this
      ensures (State(), b) == FromVec(old(State()), bytes, slack)
    {
      if |bytes| + slack == 0 {
        return FfiBuffer(Dangling, 0, 0);
      }
      var p := Allocate(|bytes| + slack);
      Memcpy(p, bytes);
      b := FfiBuffer(p, |bytes|, |bytes| + slack);
    }

    method FreeBuffer(b: FfiBuffer)
      modifies this
      ensures State() == BufferFree(old(State()), b)
    {
      if b.data.Null? || b.capacity == 0 {
        return;
      }
      Deallocate(b.data, b.capacity);
    }

    method NewString(s: seq<byte>) returns (r: FfiString)
      modifies this
      ensures (State(), r) == StringNew(old(State()), s)
    {
      if s == [] {
        return NULL_STRING;
      }
      var p := Allocate(|s|);
      Memcpy(p, s);
      r := FfiString(p, |s|);
    }

    method AllocString(str: Option<seq<byte>>) returns (r: FfiString)
      modifies this
      ensures (State(), r) == StringAlloc(old(State()), str)
    {
      if str.None? || str.value == [] {
        return NULL_STRING;
      }
      if !Utf8.Valid(str.value) {
        return NULL_STRING;
      }
      r := NewString(str.value);
    }

    method FreeString(s: FfiString)
      modifies this
      ensures State() == StringFree(old(State()), s)
    {
      if s.data.Null? || s.len == 0 {
        return;
      }
      Deallocate(s.data, s.len);
    }
  }
}
