/** The heap objects of the lattice: Node (node.h, node.cpp) and Path (path.h, path.cpp). */
module Nodes {
  import opened Sums
  import opened ExpLog

  /** How many of the features, moved by off, land on index q. */
  ghost function Hits(fv: seq<nat>, off: int, q: int): nat {
    if fv == [] then 0 else Hits(fv[..|fv| - 1], off, q) + if fv[|fv| - 1] + off == q then 1 else 0
  }

  /** Every feature, moved by off, is an index of a vector of the given length. */
  ghost predicate Indexes(fv: seq<nat>, off: int, length: nat) {
    forall k :: 0 <= k < |fv| ==> 0 <= fv[k] + off < length
  }

  /** Where the block of a bigram feature keeps the pair of tags k, j. */
  ghost function EdgeOff(k: nat, size: nat, j: nat): nat { k * size + j }

  lemma EdgeOffIs(k: nat, size: nat, j: nat)
    ensures EdgeOff(k, size, j) == k * size + j
  {}

  lemma EdgeOffRange(k: nat, y: nat, j: nat)
    requires k < y && j < y
    ensures 0 <= EdgeOff(k, y, j) < y * y
  {
    MulLe(k + 1, y, y);
    assert (k + 1) * y == k * y + y;
  }

  lemma {:induction false} MulLe(a: nat, b: nat, c: nat)
    requires a <= b
    ensures a * c <= b * c
    decreases b
  {
    if a < b {
      MulLe(a, b - 1, c);
      assert b * c == (b - 1) * c + c;
    }
  }

  lemma DivMod(k: nat, y: nat, j: nat)
    requires j < y
    ensures (k * y + j) / y == k && (k * y + j) % y == j
  {
    var o := k * y + j;
    assert o == o / y * y + o % y;
    if o / y < k { MulLe(o / y + 1, k, y); }
    if o / y > k { MulLe(k + 1, o / y, y); }
  }

  /** The pairs of tags and the y * y ids of a block correspond one to one, in row-major order. */
  lemma PairIds(y: nat)
    ensures forall k: nat, j: nat :: k < y && j < y ==>
      EdgeOff(k, y, j) < y * y && EdgeOff(k, y, j) / y == k && EdgeOff(k, y, j) % y == j
    ensures y > 0 ==> forall o: nat :: o < y * y ==>
      o / y < y && o % y < y && EdgeOff(o / y, y, o % y) == o
  {
    forall k: nat, j: nat | k < y && j < y
      ensures EdgeOff(k, y, j) < y * y && EdgeOff(k, y, j) / y == k && EdgeOff(k, y, j) % y == j
    {
      EdgeOffRange(k, y, j);
      DivMod(k, y, j);
    }
    if y > 0 {
      forall o: nat | o < y * y ensures o / y < y && o % y < y && EdgeOff(o / y, y, o % y) == o {
        assert o == o / y * y + o % y;
        if o / y >= y { MulLe(y, o / y, y); }
      }
    }
  }

  /** What the left paths of a node with tag y add to index q, path k having probability p(k). */
  ghost function EdgeHits(p: int -> real, bf: seq<nat>, size: nat, y: nat, q: int): int -> real {
    k => if k < 0 then 0.0 else Times(p(k), Hits(bf, EdgeOff(k, size, y), q) as real)
  }

  /** The loop over a feature vector that adds c at every index it hits, as expectation and gradient have it. */
  method AddAt(a: array<real>, fv: seq<nat>, off: nat, c: real)
    requires Indexes(fv, off, a.Length)
    modifies a
    ensures forall q :: 0 <= q < a.Length ==> a[q] == old(a[q]) + Times(c, Hits(fv, off, q) as real)
  {
    var f := 0;
    while f < |fv|
      invariant f <= |fv|
      invariant forall q :: 0 <= q < a.Length ==> a[q] == old(a[q]) + Times(c, Hits(fv[..f], off, q) as real)
    {
      assert fv[..f + 1][..f] == fv[..f];
      a[fv[f] + off] := a[fv[f] + off] + c;
      f := f + 1;
    }
    assert fv[..|fv|] == fv;
  }

  /** From before to now a node with tag y and its first n left paths have been added. */
  ghost predicate NodeAdded(before: seq<real>, now: seq<real>, c: real, fv: seq<nat>, p: int -> real, bf: seq<nat>,
                            size: nat, y: nat, n: nat) {
    |now| == |before| && forall q :: 0 <= q < |now| ==>
      now[q] == before[q] + Times(c, Hits(fv, y, q) as real) + Sum(n, EdgeHits(p, bf, size, y, q))
  }

  lemma NodeAddedFirst(before: seq<real>, now: seq<real>, c: real, fv: seq<nat>, p: int -> real, bf: seq<nat>,
                       size: nat, y: nat)
    requires |now| == |before|
    requires forall q :: 0 <= q < |now| ==> now[q] == before[q] + Times(c, Hits(fv, y, q) as real)
    ensures NodeAdded(before, now, c, fv, p, bf, size, y, 0)
  {
    hide Times, Hits;
  }

  lemma NodeAddedMore(before: seq<real>, mid: seq<real>, now: seq<real>, c: real, fv: seq<nat>, p: int -> real,
                      bf: seq<nat>, size: nat, y: nat, n: nat)
    requires NodeAdded(before, mid, c, fv, p, bf, size, y, n) && |now| == |mid|
    requires forall q :: 0 <= q < |now| ==> now[q] == mid[q] + Times(p(n), Hits(bf, n * size + y, q) as real)
    ensures NodeAdded(before, now, c, fv, p, bf, size, y, n + 1)
  {
    hide Times, Hits;
    EdgeOffIs(n, size, y);
    hide EdgeOff;
  }

  lemma NodeAddedAll(before: seq<real>, now: seq<real>, c: real, fv: seq<nat>, p: int -> real, bf: seq<nat>, size: nat,
                     y: nat, n: nat)
    requires NodeAdded(before, now, c, fv, p, bf, size, y, n)
    ensures |now| == |before| && forall q :: 0 <= q < |now| ==>
      now[q] == before[q] + Times(c, Hits(fv, y, q) as real) + Sum(n, EdgeHits(p, bf, size, y, q))
  {}

  class Node {
    var x: nat
    var y: nat
    var alpha: real
    var beta: real
    var cost: real
    var bestCost: real
    var prev: Node?
    var fvector: seq<nat>
    var lpath: seq<Path>
    var rpath: seq<Path>

    constructor ()
      ensures x == y == 0 && alpha == beta == cost == bestCost == 0.0
      ensures prev == null && fvector == [] && lpath == [] && rpath == []
    {
      x, y, alpha, beta, cost, bestCost := 0, 0, 0.0, 0.0, 0.0, 0.0;
      prev, fvector, lpath, rpath := null, [], [], [];
    }

    /** node.h Node::clear: everything but bestCost. */
    method Clear()
      modifies this
      ensures x == y == 0 && alpha == beta == cost == 0.0 && bestCost == old(bestCost)
      ensures prev == null && fvector == [] && lpath == [] && rpath == []
    {
      x, y, alpha, beta, cost := 0, 0, 0.0, 0.0, 0.0;
      prev, fvector, lpath, rpath := null, [], [], [];
    }

    /** f(k) is what left path k contributes, in exp space. */
    method CalcAlpha(m: ExpLog, ghost f: int -> real)
      requires Lawful(m)
      requires forall k :: 0 <= k < |lpath| ==> lpath[k].lnode != null && lpath[k].lnode != this
      requires forall k :: 0 <= k < |lpath| ==> m.exp(lpath[k].cost + lpath[k].lnode.alpha) == f(k)
      modifies this`alpha
      ensures lpath == [] ==> alpha == cost
      ensures lpath != [] ==> m.exp(alpha) == Times(m.exp(cost), Sum(|lpath|, f))
    {
      hide Times, Lawful, LogSumExp, Sum;
      alpha := 0.0;
      var it := 0;
      while it < |lpath|
        invariant it <= |lpath|
        invariant it == 0 ==> alpha == 0.0
        invariant it > 0 ==> m.exp(alpha) == Sum(it, f)
      {
        var term := lpath[it].cost + lpath[it].lnode.alpha;
        SumNext(it, f);
        LogSumExpStep(m, alpha, term, it == 0, Sum(it, f));
        alpha := LogSumExp(m, alpha, term, it == 0);
        it := it + 1;
      }
      if it > 0 { AddCost(m, alpha, cost, Sum(it, f)); }
      alpha := alpha + cost;
    }

    /** g(k) is what right path k contributes, in exp space. */
    method CalcBeta(m: ExpLog, ghost g: int -> real)
      requires Lawful(m)
      requires forall k :: 0 <= k < |rpath| ==> rpath[k].rnode != null && rpath[k].rnode != this
      requires forall k :: 0 <= k < |rpath| ==> m.exp(rpath[k].cost + rpath[k].rnode.beta) == g(k)
      modifies this`beta
      ensures rpath == [] ==> beta == cost
      ensures rpath != [] ==> m.exp(beta) == Times(m.exp(cost), Sum(|rpath|, g))
    {
      hide Times, Lawful, LogSumExp, Sum;
      beta := 0.0;
      var it := 0;
      while it < |rpath|
        invariant it <= |rpath|
        invariant it == 0 ==> beta == 0.0
        invariant it > 0 ==> m.exp(beta) == Sum(it, g)
      {
        var term := rpath[it].cost + rpath[it].rnode.beta;
        SumNext(it, g);
        LogSumExpStep(m, beta, term, it == 0, Sum(it, g));
        beta := LogSumExp(m, beta, term, it == 0);
        it := it + 1;
      }
      if it > 0 { AddCost(m, beta, cost, Sum(it, g)); }
      beta := beta + cost;
    }

    /** p(k) is the probability of left path k; all left paths carry the feature vector bf. */
    method CalcExpectation(expected: array<real>, z: real, size: nat, m: ExpLog, ghost p: int -> real,
                           ghost bf: seq<nat>)
      requires forall k :: 0 <= k < |lpath| ==>
        && lpath[k].lnode != null && lpath[k].rnode == this && lpath[k].lnode.y == k && lpath[k].fvector == bf
        && m.exp(lpath[k].lnode.alpha + lpath[k].cost + lpath[k].rnode.beta - z) == p(k)
      requires Indexes(fvector, y, expected.Length)
      requires forall k :: 0 <= k < |lpath| ==> Indexes(bf, EdgeOff(k, size, y), expected.Length)
      modifies expected
      ensures forall q :: 0 <= q < expected.Length ==>
        expected[q] == old(expected[q]) + Times(m.exp(alpha + beta - cost - z), Hits(fvector, y, q) as real) +
                       Sum(|lpath|, EdgeHits(p, bf, size, y, q))
    {
      hide Times, Hits, EdgeOff, Indexes, NodeAdded;
      var c := m.exp(alpha + beta - cost - z);
      ghost var before := expected[..];
      AddAt(expected, fvector, y, c);
      NodeAddedFirst(before, expected[..], c, fvector, p, bf, size, y);
      var it := 0;
      while it < |lpath|
        invariant it <= |lpath| && NodeAdded(before, expected[..], c, fvector, p, bf, size, y, it)
      {
        ghost var mid := expected[..];
        EdgeOffIs(it, size, y);
        lpath[it].CalcExpectation(expected, z, size, m, p(it));
        NodeAddedMore(before, mid, expected[..], c, fvector, p, bf, size, y, it);
        it := it + 1;
      }
      NodeAddedAll(before, expected[..], c, fvector, p, bf, size, y, it);
    }
  }

  class Path {
    var rnode: Node?
    var lnode: Node?
    var fvector: seq<nat>
    var cost: real

    constructor ()
      ensures rnode == null && lnode == null && fvector == [] && cost == 0.0
    {
      rnode, lnode, fvector, cost := null, null, [], 0.0;
    }

    method Clear()
      modifies this
      ensures rnode == null && lnode == null && fvector == [] && cost == 0.0
    {
      rnode, lnode, fvector, cost := null, null, [], 0.0;
    }

    /** path.cpp Path::add: link this path between two nodes. */
    method Add(left: Node, right: Node)
      requires left != right
      modifies this`lnode, this`rnode, left`rpath, right`lpath
      ensures lnode == left && rnode == right
      ensures left.rpath == old(left.rpath) + [this] && right.lpath == old(right.lpath) + [this]
    {
      lnode := left;
      rnode := right;
      left.rpath := left.rpath + [this];
      right.lpath := right.lpath + [this];
    }

    /** p is the probability of this path. */
    method CalcExpectation(expected: array<real>, z: real, size: nat, m: ExpLog, ghost p: real)
      requires lnode != null && rnode != null
      requires m.exp(lnode.alpha + cost + rnode.beta - z) == p
      requires Indexes(fvector, lnode.y * size + rnode.y, expected.Length)
      modifies expected
      ensures forall q :: 0 <= q < expected.Length ==>
        expected[q] == old(expected[q]) + Times(p, Hits(fvector, lnode.y * size + rnode.y, q) as real)
    {
      var c := m.exp(lnode.alpha + cost + rnode.beta - z);
      AddAt(expected, fvector, lnode.y * size + rnode.y, c);
    }
  }
}
