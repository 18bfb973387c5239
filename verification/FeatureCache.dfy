/** feature_cache.cpp: sentinel-terminated feature vectors in recycled arena memory. */
module FeatureCache {
  import opened FreeList

  /** What shrink makes of one vector: features without a new id are dropped, the others renamed, in order. */
  ghost function Renamed(old2new: map<nat, nat>, f: seq<nat>): seq<nat> {
    if f == [] then []
    else Renamed(old2new, f[..|f| - 1]) + if f[|f| - 1] in old2new then [old2new[f[|f| - 1]]] else []
  }

  lemma {:induction false} RenamedLength(old2new: map<nat, nat>, f: seq<nat>)
    ensures |Renamed(old2new, f)| <= |f|
  {
    if f != [] { RenamedLength(old2new, f[..|f| - 1]); }
  }

  class FeatureCache {
    const list: FreeList
    var mem: seq<array<int>>  // the chunks of the arena
    var vectors: seq<Slice>   // the int* entries of the std::vector
    ghost var contents: seq<seq<nat>>

    /** The memory of the slice holds the ids f and then the sentinel -1. */
    ghost predicate Holds(s: Slice, f: seq<nat>)
      reads `mem, mem
    {
      && s.chunk < |mem| && s.off + s.len <= mem[s.chunk].Length && |f| < s.len
      && (forall q :: s.off <= q < s.off + |f| ==> mem[s.chunk][q] == f[q - s.off])
      && mem[s.chunk][s.off + |f|] == -1
    }

    ghost predicate Shaped()
      reads this, list
    {
      && list.Valid() && |mem| == list.chunks && vectors == list.live && |contents| == |vectors|
      && (forall c :: 0 <= c < |mem| ==> mem[c].Length == list.size)
      && (forall a, b :: 0 <= a < b < |mem| ==> mem[a] != mem[b])
    }

    ghost predicate Valid()
      reads this, list, mem
    {
      && Shaped()
      && (forall i :: 0 <= i < |vectors| ==> Holds(vectors[i], contents[i]))
    }

    lemma SameSize()
      requires Valid()
      ensures |contents| == |vectors|
    {}

    constructor (size: nat)
      ensures Valid() && contents == [] && fresh(list) && list.size == size && mem == []
    {
      list := new FreeList(size);
      mem, vectors, contents := [], [], [];
    }

    method Clear()
      requires Valid()
      modifies this, list
      ensures Valid() && contents == [] && mem == old(mem)
    {
      vectors, contents := [], [];
      list.Free();
    }

    /** A slice for a vector of n entries, in a new chunk if need be. */
    method Slot(n: nat) returns (s: Slice)
      requires Valid() && 0 < n && list.Room(n)
      modifies `mem, list
      ensures list.Valid() && |mem| == list.chunks && list.live == old(list.live) + [s] && s.len == n
      ensures |mem| >= |old(mem)| && mem[..|old(mem)|] == old(mem) && s.chunk < |mem| && s.off + n <= list.size
      ensures forall c :: 0 <= c < |mem| ==> mem[c].Length == list.size
      ensures forall a, b :: 0 <= a < b < |mem| ==> mem[a] != mem[b]
      ensures forall k :: 0 <= k < |mem| ==> mem[k] in old(mem) || fresh(mem[k])
      ensures forall j :: 0 <= j < |vectors| ==> Holds(vectors[j], contents[j])
    {
      hide FreeList.Valid, Disjoint;
      var c, off := list.Alloc(n);
      if |mem| < list.chunks {
        var chunk := new int[list.size];
        mem := mem + [chunk];
      }
      s := Slice(c, off, n);
      forall j | 0 <= j < |vectors| ensures Holds(vectors[j], contents[j]) {
        assert old(Holds(vectors[j], contents[j]));
      }
    }

    /** push_back of a fresh slice that holds f and the sentinel; the vectors before it keep their contents. */
    method Add(f: seq<nat>)
      requires Valid() && list.Room(|f| + 1)
      modifies this, list, mem
      ensures Valid() && contents == old(contents) + [f]
      ensures forall k :: 0 <= k < |mem| ==> mem[k] in old(mem) || fresh(mem[k])
    {
      hide FreeList.Valid, Disjoint;
      var s := Slot(|f| + 1);
      vectors := vectors + [s];
      contents := contents + [f];
      Fill(|vectors| - 1, f);
    }

    /** Write f into the memory of vector i, which no other vector shares. */
    method Fill(i: nat, f: seq<nat>)
      requires Shaped() && i < |vectors| && |f| < vectors[i].len && contents[i] == f
      requires forall j :: 0 <= j < |vectors| && j != i ==> Holds(vectors[j], contents[j])
      modifies mem[vectors[i].chunk]
      ensures Valid()
    {
      hide FreeList.Valid, Disjoint;
      SliceIn(i);
      var s := vectors[i];
      Write(mem[s.chunk], s.off, f);
      forall j | 0 <= j < |vectors| && j != i ensures Holds(vectors[j], contents[j]) {
        Apart(i, j);
        assert old(Holds(vectors[j], contents[j]));
      }
    }

    /** Follow the pointer of vector i up to the sentinel. */
    method Vector(i: nat) returns (f: seq<nat>)
      requires Valid() && i < |vectors|
      ensures f == contents[i]
    {
      var p, off := mem[vectors[i].chunk], vectors[i].off;
      assert Holds(vectors[i], contents[i]);
      f := [];
      while p[off + |f|] != -1
        invariant |f| <= |contents[i]| && f == contents[i][..|f|]
        decreases |contents[i]| - |f|
      {
        var id: nat := p[off + |f|];
        f := f + [id];
      }
    }

    /** Every vector is overwritten, within its own memory, by what is left of it. */
    method Shrink(old2new: map<nat, nat>)
      requires Valid()
      modifies `contents, mem
      ensures Valid() && |contents| == |old(contents)|
      ensures forall i :: 0 <= i < |contents| ==> contents[i] == Renamed(old2new, old(contents)[i])
    {
      var i := 0;
      while i < |vectors|
        invariant i <= |vectors| && Valid() && |contents| == |old(contents)|
        invariant forall j :: 0 <= j < i ==> contents[j] == Renamed(old2new, old(contents)[j])
        invariant forall j :: i <= j < |contents| ==> contents[j] == old(contents)[j]
      {
        ShrinkVector(i, old2new);
        i := i + 1;
      }
    }

    /** The loop that collects the surviving features of one vector. */
    method Survivors(i: nat, old2new: map<nat, nat>) returns (newf: seq<nat>)
      requires Valid() && i < |vectors|
      ensures newf == Renamed(old2new, contents[i])
    {
      var s := vectors[i];
      var p := mem[s.chunk];
      var f := 0;
      newf := [];
      assert Holds(s, contents[i]);
      while p[s.off + f] != -1
        invariant f <= |contents[i]| && newf == Renamed(old2new, contents[i][..f])
        decreases |contents[i]| - f
      {
        assert contents[i][..f + 1][..f] == contents[i][..f];
        if p[s.off + f] in old2new {
          newf := newf + [old2new[p[s.off + f]]];
        }
        f := f + 1;
      }
      assert contents[i][..f] == contents[i];
    }

    lemma SliceIn(i: nat)
      requires Shaped() && i < |vectors|
      ensures vectors[i].chunk < |mem| && vectors[i].off + vectors[i].len <= mem[vectors[i].chunk].Length
    {}

    lemma Apart(i: nat, j: nat)
      requires Shaped() && i < |vectors| && j < |vectors| && i != j
      ensures vectors[j].chunk < |mem| && vectors[j].off + vectors[j].len <= mem[vectors[j].chunk].Length
      ensures vectors[i].chunk != vectors[j].chunk ==> mem[vectors[i].chunk] != mem[vectors[j].chunk]
      ensures Disjoint(vectors[i], vectors[j])
    {
      assert Disjoint(vectors[i], vectors[j]) || Disjoint(vectors[j], vectors[i]);
    }

    method ShrinkVector(i: nat, old2new: map<nat, nat>)
      requires Valid() && i < |vectors|
      modifies `contents, mem[vectors[i].chunk]
      ensures Valid() && contents == old(contents)[i := Renamed(old2new, old(contents)[i])]
    {
      hide FreeList.Valid, Disjoint, Renamed, Holds;
      SliceIn(i);
      var newf := Survivors(i, old2new);
      RenamedLength(old2new, contents[i]);
      Shorter(i);
      contents := contents[i := newf];
      Fill(i, newf);
    }

    lemma Shorter(i: nat)
      requires Valid() && i < |vectors|
      ensures |contents[i]| < vectors[i].len
    {
      assert Holds(vectors[i], contents[i]);
    }
  }

  /** std::copy of the ids and the sentinel to p + off. */
  method Write(p: array<int>, off: nat, f: seq<nat>)
    requires off + |f| < p.Length
    modifies p
    ensures forall q :: off <= q < off + |f| ==> p[q] == f[q - off]
    ensures p[off + |f|] == -1
    ensures forall i :: 0 <= i < p.Length && !(off <= i <= off + |f|) ==> p[i] == old(p[i])
  {
    var k := 0;
    while k < |f|
      invariant k <= |f|
      invariant forall q :: off <= q < off + k ==> p[q] == f[q - off]
      invariant forall i :: 0 <= i < p.Length && !(off <= i < off + k) ==> p[i] == old(p[i])
    {
      p[off + k] := f[k];
      k := k + 1;
    }
    p[off + |f|] := -1;
  }
}
