/** The exponential-size meaning of bestCost, and the steps of the dynamic program that computes it. */
module Viterbi {
  import opened Sums
  import opened Lattice

  /** tagger.cpp starts every maximum search from this value. */
  const SENTINEL: real := -10000000000000000000000000000000000000.0

  ghost function PrefixScore(l: Lattice, u: Tags, j: int): real {
    Span(l, 0, u + [j])
  }

  /** c is the largest score of a prefix that ends with tag j at token i. */
  ghost predicate IsBest(l: Lattice, i: nat, j: int, c: real) {
    && (forall u: Tags :: |u| == i && InRange(l.y, u) ==> PrefixScore(l, u, j) <= c)
    && (exists u: Tags :: |u| == i && InRange(l.y, u) && PrefixScore(l, u, j) == c)
  }

  /** Some prefix that ends with tag j at token i scores above the sentinel. */
  ghost predicate Above(l: Lattice, i: nat, j: int) {
    exists u: Tags :: |u| == i && InRange(l.y, u) && PrefixScore(l, u, j) > SENTINEL
  }

  /** Every node with a left neighbour can be reached with a score above the sentinel. */
  ghost predicate AboveSentinel(l: Lattice) {
    forall i: nat, j :: 0 < i < l.n && 0 <= j < l.y ==> Above(l, i, j)
  }

  /** Some complete tag sequence scores above the sentinel. */
  ghost predicate SomeAbove(l: Lattice) {
    exists t: Tags :: IsTagging(l, t) && Score(l, t) > SENTINEL
  }

  ghost predicate IsOptimal(l: Lattice, t: Tags) {
    && IsTagging(l, t)
    && forall u :: IsTagging(l, u) ==> Score(l, u) <= Score(l, t)
  }

  /** The candidate viterbi looks at: best prefix to tag k at token i - 1, then the edge to j, then j itself. */
  ghost function Candidate(l: Lattice, i: nat, j: int, b: int -> real, k: int): real {
    b(k) + l.edge(i, k, j) + l.node(i, j)
  }

  lemma BestFirst(l: Lattice, j: int)
    ensures IsBest(l, 0, j, l.node(0, j))
  {
    var none: Tags := [];
    assert none + [j] == [j];
    assert PrefixScore(l, none, j) == l.node(0, j);
  }

  lemma BestOfFirst(l: Lattice, j: int, c: real)
    requires IsBest(l, 0, j, c)
    ensures c == l.node(0, j)
  {
    var u: Tags :| |u| == 0 && InRange(l.y, u) && PrefixScore(l, u, j) == c;
    assert u + [j] == [j];
  }

  /** A prefix of i + 1 tags is bounded by the candidate through its last tag. */
  lemma PrefixBound(l: Lattice, i: nat, j: int, b: int -> real, u: Tags)
    requires i > 0 && |u| == i && InRange(l.y, u)
    requires forall k :: 0 <= k < l.y ==> IsBest(l, i - 1, k, b(k))
    ensures PrefixScore(l, u, j) <= Candidate(l, i, j, b, u[i - 1])
  {
    var w, k := u[..i - 1], u[i - 1];
    assert u == w + [k];
    SpanSnoc(l, 0, w, k, j);
    assert PrefixScore(l, w, k) <= b(k);
  }

  lemma BestStep(l: Lattice, i: nat, j: int, b: int -> real, kb: int)
    requires i > 0 && 0 <= kb < l.y
    requires forall k :: 0 <= k < l.y ==> IsBest(l, i - 1, k, b(k))
    requires forall k :: 0 <= k < l.y ==> Candidate(l, i, j, b, k) <= Candidate(l, i, j, b, kb)
    ensures IsBest(l, i, j, Candidate(l, i, j, b, kb))
  {
    forall u: Tags | |u| == i && InRange(l.y, u) ensures PrefixScore(l, u, j) <= Candidate(l, i, j, b, kb) {
      PrefixBound(l, i, j, b, u);
    }
    assert IsBest(l, i - 1, kb, b(kb));
    var w: Tags :| |w| == i - 1 && InRange(l.y, w) && PrefixScore(l, w, kb) == b(kb);
    SpanSnoc(l, 0, w, kb, j);
    assert InRange(l.y, w + [kb]) && PrefixScore(l, w + [kb], j) == Candidate(l, i, j, b, kb);
  }

  lemma BestIsAbove(l: Lattice, i: nat, j: int, c: real)
    requires IsBest(l, i, j, c)
    ensures c > SENTINEL <==> Above(l, i, j)
  {}

  /** If no candidate beats the sentinel, no prefix does. */
  lemma NoneAbove(l: Lattice, i: nat, j: int, b: int -> real)
    requires i > 0
    requires forall k :: 0 <= k < l.y ==> IsBest(l, i - 1, k, b(k))
    requires forall k :: 0 <= k < l.y ==> Candidate(l, i, j, b, k) <= SENTINEL
    ensures !Above(l, i, j)
  {
    forall u: Tags | |u| == i && InRange(l.y, u) ensures PrefixScore(l, u, j) <= SENTINEL {
      PrefixBound(l, i, j, b, u);
    }
  }

  /** The best of the last row bounds every complete tag sequence. */
  lemma ScoreBound(l: Lattice, b: int -> real, c: real, t: Tags)
    requires IsTagging(l, t) && l.n > 0
    requires forall j :: 0 <= j < l.y ==> IsBest(l, l.n - 1, j, b(j)) && b(j) <= c
    ensures Score(l, t) <= c
  {
    var u, j := t[..l.n - 1], t[l.n - 1];
    assert t == u + [j];
    assert PrefixScore(l, u, j) <= b(j);
  }

  /** The best cost of an end node is the score of some tag sequence. */
  lemma BestIsAScore(l: Lattice, j: int, c: real)
    requires l.n > 0 && 0 <= j < l.y && IsBest(l, l.n - 1, j, c) && c > SENTINEL
    ensures SomeAbove(l)
  {
    var u: Tags :| |u| == l.n - 1 && InRange(l.y, u) && PrefixScore(l, u, j) == c;
    assert IsTagging(l, u + [j]) && Score(l, u + [j]) == c;
  }

  lemma FirstPrefix(l: Lattice, j: int, c: real)
    requires IsBest(l, 0, j, c)
    ensures PrefixScore(l, [], j) == c
  {
    BestOfFirst(l, j, c);
    var none: Tags := [];
    assert none + [j] == [j];
  }

  lemma PrefixMore(l: Lattice, u: Tags, k: int, j: int)
    ensures PrefixScore(l, u + [k], j) == PrefixScore(l, u, k) + l.edge(|u| + 1, k, j) + l.node(|u| + 1, j)
  {
    SpanSnoc(l, 0, u, k, j);
  }

  lemma BestOver(l: Lattice, i: nat, j: int, c: real, u: Tags)
    requires IsBest(l, i, j, c) && |u| == i && InRange(l.y, u)
    ensures PrefixScore(l, u, j) <= c
  {}

  // ---------- which of several best sequences ----------

  /** Every prefix that enters tag t[i] from a smaller tag than t[i - 1] scores less than that of t. */
  ghost predicate FirstInto(l: Lattice, t: Tags, i: nat)
    requires 0 < i < |t|
  {
    forall u: Tags, k :: |u| == i - 1 && InRange(l.y, u) && 0 <= k < t[i - 1] ==>
      PrefixScore(l, u + [k], t[i]) < PrefixScore(l, t[..i], t[i])
  }

  /** Every tag sequence that ends in a smaller tag scores less. */
  ghost predicate FirstAtEnd(l: Lattice, t: Tags)
    requires |t| > 0
  {
    forall u: Tags, k :: |u| == |t| - 1 && InRange(l.y, u) && 0 <= k < t[|t| - 1] ==>
      PrefixScore(l, u, k) < Score(l, t)
  }

  /** Of the best tag sequences t has the smallest tags, read from the end: a sequence with a smaller tag at d and the
      same tags behind it scores less. */
  ghost predicate FirstBest(l: Lattice, t: Tags) {
    && IsOptimal(l, t)
    && forall u, d: nat :: IsTagging(l, u) && d < l.n && u[d] < t[d] && u[d + 1..] == t[d + 1..] ==>
      Score(l, u) < Score(l, t)
  }

  lemma SmallerTag(l: Lattice, t: Tags, u: Tags, d: nat)
    requires IsTagging(l, t) && IsTagging(l, u) && d < l.n && u[d] < t[d] && u[d + 1..] == t[d + 1..]
    requires FirstAtEnd(l, t) && forall i: nat :: 0 < i < l.n ==> FirstInto(l, t, i)
    ensures Score(l, u) < Score(l, t)
  {
    if d + 1 == l.n {
      assert u == u[..d] + [u[d]];
      assert PrefixScore(l, u[..d], u[d]) < Score(l, t);
    } else {
      var i := d + 1;
      assert FirstInto(l, t, i);
      hide Span, FirstInto, FirstAtEnd;
      SameTail(u, t, i);
      assert u[..i] == u[..d] + [u[d]];
      IntoFirst(l, t, i, u[..d], u[d]);
      SpanOverlap(l, 0, u[..i], t[i], t[i + 1..]);
      SpanOverlap(l, 0, t[..i], t[i], t[i + 1..]);
    }
  }

  lemma IntoFirst(l: Lattice, t: Tags, i: nat, u: Tags, k: int)
    requires 0 < i < |t| && FirstInto(l, t, i) && |u| == i - 1 && InRange(l.y, u) && 0 <= k < t[i - 1]
    ensures PrefixScore(l, u + [k], t[i]) < PrefixScore(l, t[..i], t[i])
  {}

  lemma SameTail(u: Tags, t: Tags, i: nat)
    requires |u| == |t| && i < |t| && u[i..] == t[i..]
    ensures u == u[..i] + [t[i]] + t[i + 1..] && t == t[..i] + [t[i]] + t[i + 1..]
  {
    assert u[i] == u[i..][0] && t[i] == t[i..][0];
    assert u[i + 1..] == u[i..][1..] && t[i + 1..] == t[i..][1..];
  }

  lemma IsFirstBest(l: Lattice, t: Tags)
    requires IsOptimal(l, t) && l.n > 0 && FirstAtEnd(l, t) && forall i: nat :: 0 < i < l.n ==> FirstInto(l, t, i)
    ensures FirstBest(l, t)
  {
    hide FirstInto, FirstAtEnd, Score;
    forall u, d: nat | IsTagging(l, u) && d < l.n && u[d] < t[d] && u[d + 1..] == t[d + 1..]
      ensures Score(l, u) < Score(l, t) { SmallerTag(l, t, u, d); }
  }

  // ---------- where the sentinel lies ----------

  /** No cost is larger than b, or smaller than -b. */
  ghost predicate Bounded(l: Lattice, b: real) {
    && (forall i, j :: 0 <= i < l.n && 0 <= j < l.y ==> -b <= l.node(i, j) <= b)
    && (forall i, k, j :: 0 < i < l.n && 0 <= k < l.y && 0 <= j < l.y ==> -b <= l.edge(i, k, j) <= b)
  }

  /** m * b. */
  ghost function Fold(m: nat, b: real): real {
    if m == 0 then 0.0 else Fold(m - 1, b) + b
  }

  lemma {:induction false} FoldIs(m: nat, b: real)
    ensures Fold(m, b) == Times(m as real, b)
  {
    if m > 0 { FoldIs(m - 1, b); }
  }

  lemma {:induction false} FoldGrows(m: nat, n: nat, b: real)
    requires m <= n && b >= 0.0
    ensures Fold(m, b) <= Fold(n, b)
    decreases n
  {
    if m < n { FoldGrows(m, n - 1, b); }
  }

  /** A span of m tags has 2m - 1 costs. */
  lemma {:induction false} SpanBounded(l: Lattice, b: real, p: nat, t: Tags)
    requires Bounded(l, b) && |t| > 0 && p + |t| <= l.n && InRange(l.y, t)
    ensures -Fold(2 * |t| - 1, b) <= Span(l, p, t)
    decreases |t|
  {
    if |t| > 1 {
      SpanBounded(l, b, p + 1, t[1..]);
      assert 2 * |t| - 1 == 2 * (|t| - 1) - 1 + 2;
      assert Fold(2 * |t| - 1, b) == Fold(2 * (|t| - 1) - 1, b) + b + b;
    }
  }

  lemma PrefixAbove(l: Lattice, b: real, t: Tags)
    requires Bounded(l, b) && b >= 0.0 && 0 < |t| <= l.n && InRange(l.y, t) && Fold(2 * l.n - 1, b) < -SENTINEL
    ensures Span(l, 0, t) > SENTINEL
  {
    hide Span, Bounded, Fold;
    SpanBounded(l, b, 0, t);
    FoldGrows(2 * |t| - 1, 2 * l.n - 1, b);
  }

  lemma AllAbove(l: Lattice, b: real)
    requires l.n > 0 && l.y > 0 && Bounded(l, b) && b >= 0.0 && Fold(2 * l.n - 1, b) < -SENTINEL
    ensures AboveSentinel(l) && SomeAbove(l)
  {
    hide Span, Fold, Bounded;
    forall i: nat, j | 0 < i < l.n && 0 <= j < l.y ensures Above(l, i, j) {
      var u := seq(i, _ => 0);
      PrefixAbove(l, b, u + [j]);
      assert PrefixScore(l, u, j) > SENTINEL;
    }
    var t := seq(l.n, _ => 0);
    PrefixAbove(l, b, t);
    assert IsTagging(l, t) && Score(l, t) > SENTINEL;
  }

  lemma NotNegative(l: Lattice, b: real)
    requires l.n > 0 && l.y > 0 && Bounded(l, b)
    ensures b >= 0.0
  {
    assert -b <= l.node(0, 0) <= b;
  }

  /** In a lattice of ordinary costs nothing comes near the sentinel. */
  lemma OrdinaryCosts(l: Lattice, b: real)
    requires l.n > 0 && l.y > 0 && Bounded(l, b)
    requires Times((2 * l.n - 1) as real, b) < 10000000000000000000000000000000000000.0
    ensures AboveSentinel(l) && SomeAbove(l)
  {
    hide Bounded, AboveSentinel, SomeAbove, Fold, Times;
    FoldIs(2 * l.n - 1, b);
    NotNegative(l, b);
    AllAbove(l, b);
  }

  /** All 2n - 1 costs of a tag sequence together stay below 1e37. */
  ghost predicate Ordinary(l: Lattice) {
    && l.n > 0 && l.y > 0
    && exists b :: Bounded(l, b) && Times((2 * l.n - 1) as real, b) < 10000000000000000000000000000000000000.0
  }

  lemma OrdinaryIsAbove(l: Lattice)
    requires Ordinary(l)
    ensures AboveSentinel(l) && SomeAbove(l)
  {
    hide Bounded, AboveSentinel, SomeAbove, Times;
    var b :| Bounded(l, b) && Times((2 * l.n - 1) as real, b) < 10000000000000000000000000000000000000.0;
    OrdinaryCosts(l, b);
  }

  /** A sentence of one token whose two tags score exactly the sentinel and less: viterbi finds no end, and a result
      that was tag 0 stays tag 0, although tag 1 scores more. */
  lemma SentinelTooHigh()
    ensures var low := -10000000000000000000000000000000000000.0;
      var l := Lattice(1, 2, (i, j) => if j == 0 then low - 1.0 else low, (i, k, j) => 0.0);
      AboveSentinel(l) && !SomeAbove(l) && IsTagging(l, [0]) && !IsOptimal(l, [0]) && IsOptimal(l, [1])
  {
    var low := -10000000000000000000000000000000000000.0;
    var l := Lattice(1, 2, (i, j) => if j == 0 then low - 1.0 else low, (i, k, j) => 0.0);
    forall t | IsTagging(l, t) ensures Score(l, t) == l.node(0, t[0]) && (t == [0] || t == [1]) {}
    assert IsTagging(l, [0]) && IsTagging(l, [1]);
  }
}
