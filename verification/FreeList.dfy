/** freelist.h: an arena that hands out slices of equally long chunks and is recycled as a whole. */
module FreeList {

  /** A slice [off, off + len) of a chunk. */
  datatype Slice = Slice(chunk: nat, off: nat, len: nat)

  ghost predicate Disjoint(a: Slice, b: Slice) {
    a.chunk != b.chunk || a.off + a.len <= b.off || b.off + b.len <= a.off
  }

  class FreeList {
    const size: nat
    var chunks: nat  // freeList.size()
    var pi: nat
    var li: nat
    ghost var live: seq<Slice>  // slices handed out since the last free

    ghost predicate Valid()
      reads this
    {
      && li <= chunks && pi <= size && (li == chunks ==> pi == 0)
      && (forall s :: s in live ==> s.chunk < chunks && s.off + s.len <= size)
      && (forall s :: s in live ==> s.chunk < li || (s.chunk == li && s.off + s.len <= pi))
      && (forall a, b :: 0 <= a < b < |live| ==> Disjoint(live[a], live[b]))
    }

    constructor (size: nat)
      ensures Valid() && this.size == size && chunks == 0 && live == []
    {
      this.size := size;
      chunks, pi, li, live := 0, 0, 0, [];
    }

    /** Nothing is given back to the system: all chunks are used again from the start. */
    method Free()
      requires Valid()
      modifies this
      ensures Valid() && live == [] && chunks == old(chunks)
    {
      li, pi, live := 0, 0, [];
    }

    /** The next alloc(len) starts a chunk that does not exist yet. */
    predicate NeedsChunk(len: nat)
      reads this
    {
      (if pi + len >= size then li + 1 else li) == chunks
    }

    /** The next alloc(len) stays within a chunk: len < size, or len == size away from the end of the arena. */
    ghost predicate Room(len: nat)
      reads this
    {
      len < size || (len == size && li < chunks)
    }

    /** The slice lies within a chunk exactly when there is room.
        It is then disjoint from every slice handed out since the last Free. */
    method Alloc(len: nat) returns (chunk: nat, off: nat)
      requires Valid() && len > 0
      modifies this
      ensures chunks == old(chunks) + if old(NeedsChunk(len)) then 1 else 0
      ensures chunk < chunks && off + len <= size <==> old(Room(len))
      ensures chunk < chunks && off + len <= size ==>
        && Valid() && live == old(live) + [Slice(chunk, off, len)]
        && forall s :: s in old(live) ==> Disjoint(s, Slice(chunk, off, len))
    {
      if pi + len >= size {
        li := li + 1;
        pi := 0;
      }
      if li == chunks {
        chunks := chunks + 1;
      }
      chunk, off := li, pi;
      pi := pi + len;
      live := live + [Slice(chunk, off, len)];
    }
  }
}
