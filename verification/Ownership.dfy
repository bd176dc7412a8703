/** Who owns which block. The structs that cross the boundary are plain values, so ownership is
    not visible in any type; here it is a ledger kept beside the heap. */
module Ownership {
  import opened Machine
  import opened Memory
  import opened Errors
  import opened Results

  // ---------- Sound heaps ----------

  /** No fault so far, every layout is one the allocator accepts, and each dead block was freed
      exactly once. */
  ghost predicate Sound(h: Heap) {
    && !h.fault
    && h.frees == |Dead(h)|
    && forall id :: 0 <= id < |h.blocks| ==> var b := h.blocks[id]; 0 < b.size <= ISIZE_MAX && |b.bytes| <= b.size
  }

  /** The block freed by a `dealloc` of this pointer and size. */
  function Owns(p: Ptr, size: nat): set<nat> {
    if p.At? && size > 0 then {p.id} else {}
  }

  /** Freeing this pointer with this size is what the allocator permits. */
  predicate Releasable(h: Heap, p: Ptr, size: nat) {
    size == 0 || p.Null? || (IsLive(h, p) && h.blocks[p.id].size == size)
  }

  /** From `h` to `h2`, the blocks in `keep` stay as live as they were, with the same layout and
      at least the same bytes initialised. */
  ghost predicate Keeps(h: Heap, h2: Heap, keep: set<nat>) {
    && |h.blocks| <= |h2.blocks|
    && forall id :: id in keep && 0 <= id < |h.blocks| ==>
         && h2.blocks[id].live == h.blocks[id].live
         && h2.blocks[id].size == h.blocks[id].size
         && |h.blocks[id].bytes| <= |h2.blocks[id].bytes|
  }

  /** From `h` to `h2`, the blocks in `ids` stay exactly as they are, bytes included. */
  ghost predicate Same(h: Heap, h2: Heap, ids: set<nat>) {
    && |h.blocks| <= |h2.blocks|
    && forall id :: id in ids && 0 <= id < |h.blocks| ==> h2.blocks[id] == h.blocks[id]
  }

  function All(h: Heap): set<nat> {
    Live(h) + Dead(h)
  }

  lemma WithoutLast(h: Heap)
    requires h.blocks != []
    ensures var n := |h.blocks| - 1;
      var g := h.(blocks := h.blocks[..n]);
      && n !in Live(g) && n !in Dead(g)
      && Live(h) == (if h.blocks[n].live then Live(g) + {n} else Live(g))
      && Dead(h) == (if h.blocks[n].live then Dead(g) else Dead(g) + {n})
  {
    var n := |h.blocks| - 1;
    var g := h.(blocks := h.blocks[..n]);
    assert forall id :: 0 <= id < n ==> g.blocks[id] == h.blocks[id];
  }

  lemma {:induction false} LivePlusDead(h: Heap)
    ensures |Live(h)| + |Dead(h)| == |h.blocks|
    decreases |h.blocks|
  {
    if h.blocks == [] {
      assert Live(h) == {} && Dead(h) == {};
    } else {
      WithoutLast(h);
      LivePlusDead(h.(blocks := h.blocks[..|h.blocks| - 1]));
    }
  }

  /** Every allocation is either still live or was freed: allocations = frees + live blocks. */
  lemma Conservation(h: Heap)
    requires Sound(h)
    ensures |h.blocks| == h.frees + |Live(h)|
  {
    LivePlusDead(h);
  }

  // ---------- What the primitives do to it ----------

  /** A heap whose blocks differ only in their contents has the same live blocks. */
  lemma SameLiveness(h: Heap, h2: Heap)
    requires |h2.blocks| == |h.blocks|
    requires forall id :: 0 <= id < |h.blocks| ==> h2.blocks[id].live == h.blocks[id].live
    ensures Live(h2) == Live(h) && Dead(h2) == Dead(h)
  {
  }

  lemma CopyInEffect(h: Heap, p: Ptr, data: seq<byte>)
    requires Sound(h) && IsLive(h, p) && |data| <= h.blocks[p.id].size
    ensures var h2 := CopyIn(h, p, data);
      && Sound(h2) && Live(h2) == Live(h) && Keeps(h, h2, All(h)) && |h2.blocks| == |h.blocks|
      && data <= h2.blocks[p.id].bytes && IsLive(h2, p) && h2.blocks[p.id].size == h.blocks[p.id].size
  {
    var h2 := CopyIn(h, p, data);
    var b := h.blocks[p.id];
    assert h2.blocks == h.blocks[p.id := b.(bytes := Overwrite(b.bytes, data))];
    assert |data| <= |Overwrite(b.bytes, data)| <= b.size && |b.bytes| <= |Overwrite(b.bytes, data)|;
    SameLiveness(h, h2);
  }

  /** A write replaces the bytes it covers and no others, in this block or any other. */
  lemma CopyInTouchesOne(h: Heap, p: Ptr, data: seq<byte>)
    requires IsLive(h, p) && |data| <= h.blocks[p.id].size
    ensures var h2 := CopyIn(h, p, data);
      var before, after := h.blocks[p.id].bytes, h2.blocks[p.id].bytes;
      && (forall ids: set<nat> :: p.id !in ids ==> Same(h, h2, ids))
      && |after| == (if |data| <= |before| then |before| else |data|)
      && (forall k :: 0 <= k < |after| ==> after[k] == if k < |data| then data[k] else before[k])
  {
  }

  /** A permitted free ends the life of exactly the block it owns, and changes no other block. */
  lemma ReleaseEffect(h: Heap, p: Ptr, size: nat)
    requires Sound(h) && Releasable(h, p, size)
    ensures var h2 := Release(h, p, size);
      && Sound(h2) && Live(h2) == Live(h) - Owns(p, size) && |h2.blocks| == |h.blocks|
      && Keeps(h, h2, All(h) - Owns(p, size)) && h2.frees == h.frees + |Owns(p, size)|
      && Same(h, h2, All(h) - Owns(p, size))
  {
    var h2 := Release(h, p, size);
    if h2 != h {
      assert Dead(h2) == Dead(h) + {p.id};
    }
  }

  /** A free goes wrong exactly when the block is not live or its layout is another. */
  lemma FreeFaultsIff(h: Heap, p: Ptr, size: nat)
    requires !h.fault
    ensures Release(h, p, size).fault <==> !Releasable(h, p, size)
  {
  }

  /** After a free of a block, a second free of it always goes wrong. */
  lemma SecondFreeFaults(h: Heap, p: Ptr, size: nat)
    requires p.At? && size > 0
    ensures Release(Release(h, p, size), p, size).fault
  {
  }

  /** The header promises a zeroed buffer when an allocation fails. An allocation fails exactly when
      the layout is above the limit, and then there is no buffer at all: the promise holds exactly
      for the sizes that do not fail. */
  lemma AllocFailsIff(h: Heap, n: nat)
    requires !h.fault
    ensures BufferNew(h, n).0.fault <==> n > ISIZE_MAX
    ensures BufferNew(h, n).1 == NULL_BUFFER <==> n == 0
    ensures (BufferNew(h, n).0.fault ==> BufferNew(h, n).1 == NULL_BUFFER) <==> n <= ISIZE_MAX
  {
  }

  /** The smallest request that breaks the promise. */
  lemma SmallestFailure(h: Heap)
    requires !h.fault
    ensures BufferNew(h, ISIZE_MAX + 1).0.fault && BufferNew(h, ISIZE_MAX + 1).1 != NULL_BUFFER
    ensures !BufferNew(h, ISIZE_MAX).0.fault
  {
    AllocFailsIff(h, ISIZE_MAX + 1);
    AllocFailsIff(h, ISIZE_MAX);
  }

  /** The heap `h` with one new block, holding `bytes` in a block of `size`. */
  function Grown(h: Heap, size: nat, bytes: seq<byte>): Heap {
    h.(blocks := h.blocks + [Block(size, bytes, true)])
  }

  lemma GrownEffect(h: Heap, size: nat, bytes: seq<byte>)
    requires Sound(h) && 0 < size <= ISIZE_MAX && |bytes| <= size
    ensures var h2 := Grown(h, size, bytes);
      Sound(h2) && Live(h2) == Live(h) + {|h.blocks|} && Keeps(h, h2, All(h))
  {
    assert Dead(Grown(h, size, bytes)) == Dead(h);
  }

  lemma AllocAndFill(h: Heap, size: nat, bytes: seq<byte>)
    requires 0 < size <= ISIZE_MAX && |bytes| <= size
    ensures var (h1, p) := Alloc(h, size); p == At(|h.blocks|) && CopyIn(h1, p, bytes) == Grown(h, size, bytes)
  {
    assert bytes + [] == bytes;
  }

  lemma StringNewEffect(h: Heap, s: seq<byte>)
    requires 0 < |s| <= ISIZE_MAX
    ensures StringNew(h, s) == (Grown(h, |s|, s), FfiString(At(|h.blocks|), |s|))
  {
    AllocAndFill(h, |s|, s);
  }

  lemma ErrEffect(h: Heap, e: FfiError)
    requires |Message(e)| <= ISIZE_MAX
    ensures var m := Message(e);
      ResultErr(h, e) == (Grown(h, |m|, m), FfiResult(Code(e), FfiString(At(|h.blocks|), |m|), NULL_BUFFER))
  {
    StringNewEffect(h, Message(e));
  }

  lemma FromVecEffect(h: Heap, bytes: seq<byte>, slack: nat)
    requires |bytes| + slack <= ISIZE_MAX
    ensures var n := |bytes| + slack;
      FromVec(h, bytes, slack) == if n == 0 then (h, FfiBuffer(Dangling, 0, 0))
                                  else (Grown(h, n, bytes), FfiBuffer(At(|h.blocks|), |bytes|, n))
  {
    if |bytes| + slack > 0 {
      AllocAndFill(h, |bytes| + slack, bytes);
    }
  }

  // ---------- The ledger ----------

  /** The blocks owned by a list of holders. */
  function Union(slots: seq<set<nat>>): set<nat> {
    set i, id | 0 <= i < |slots| && id in slots[i] :: id
  }

  ghost predicate Disjoint(slots: seq<set<nat>>) {
    forall i, j :: 0 <= i < j < |slots| ==> slots[i] !! slots[j]
  }

  /** Every live block is accounted for exactly once: by one holder, or as an orphan. */
  ghost predicate Balanced(h: Heap, slots: seq<set<nat>>, orphans: set<nat>) {
    Disjoint(slots) && Union(slots) !! orphans && Live(h) == Union(slots) + orphans
  }

  lemma UnionAdd(slots: seq<set<nat>>, s: set<nat>)
    ensures Union(slots + [s]) == Union(slots) + s
  {
    var more := slots + [s];
    forall id | id in Union(slots) + s
      ensures id in Union(more)
    {
      if id in s {
        assert id in more[|slots|];
      } else {
        var i :| 0 <= i < |slots| && id in slots[i];
        assert id in more[i];
      }
    }
  }

  lemma UnionClear(slots: seq<set<nat>>, i: nat)
    requires Disjoint(slots) && i < |slots|
    ensures Union(slots[i := {}]) == Union(slots) - slots[i]
    ensures Disjoint(slots[i := {}])
  {
    var less := slots[i := {}];
    forall id | id in Union(slots) - slots[i]
      ensures id in Union(less)
    {
      var j :| 0 <= j < |slots| && id in slots[j];
      assert id in less[j];
    }
    forall id | id in Union(less)
      ensures id in Union(slots) - slots[i]
    {
      var j :| 0 <= j < |less| && id in less[j];
      assert id in slots[j] && j != i;
    }
  }

  lemma SlotBelow(slots: seq<set<nat>>, i: nat)
    requires i < |slots|
    ensures slots[i] <= Union(slots)
  {
  }
}
