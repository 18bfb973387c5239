/** tagger.cpp gradient and collins: what one training sentence adds to the vector of feature statistics. */
module Training {
  import opened Sums
  import opened Lattice
  import opened ExpLog
  import opened ForwardBackward
  import opened Viterbi
  import opened Nodes
  import opened LatticeHeap
  import opened Features
  import opened FeatureIndex
  import opened Tagger

  /** Every feature block of the sentence lies within a vector of the given length. */
  ghost predicate InBounds(ft: Features, y: nat, length: nat) {
    && (forall i, j :: 0 <= i < |ft.uni| && 0 <= j < y ==> Indexes(ft.uni[i], j, length))
    && (forall i, k, j :: 0 <= i < |ft.bi| && 0 <= k < y && 0 <= j < y ==> Indexes(ft.bi[i], EdgeOff(k, y, j), length))
  }

  /** The lattice of the tagger holds the features ft. */
  ghost predicate Carries(t: Tagger)
    reads t`ysize, t`node, t`lattice, t`features, t`nodes, t`paths
    reads t.nodes`x, t.nodes`y, t.nodes`lpath, t.nodes`rpath, t.paths`lnode, t.paths`rnode, t.nodes`cost, t.paths`cost
    reads t.nodes`fvector, t.paths`fvector
  {
    t.Ready() && Featured(t.node, t.ysize, t.nodes, t.paths, t.features)
  }

  lemma BuiltCarries(t: Tagger, index: FeatureIndex)
    requires t.Built(index)
    ensures Carries(t) && t.lattice == CostLattice(index.costFactor, index.alpha, t.features, t.ysize)
  {}

  lemma FeaturesAt(t: Tagger, i: nat, j: nat)
    requires Carries(t) && i < |t.node| && j < t.ysize
    ensures |t.features.uni| == |t.node| && |t.features.bi| + 1 == |t.node|
    ensures t.node[i][j].fvector == t.features.uni[i]
    ensures forall k :: 0 <= k < |t.node[i][j].lpath| ==> i > 0 && t.node[i][j].lpath[k].fvector == t.features.bi[i - 1]
  {}

  // ---------- expectations ----------

  lemma EdgeProbs(t: Tagger, m: ExpLog, i: nat, j: nat)
    requires Lawful(m) && t.Summed(m) && 0 < i < |t.node| && j < t.ysize
    ensures Partition(m, t.lattice) > 0.0 && i < t.lattice.n && |t.node[i]| == t.ysize
    ensures forall k {:trigger t.node[i][j].lpath[k]} :: 0 <= k < |t.node[i][j].lpath| ==>
      var e := t.node[i][j].lpath[k];
      e.lnode != null && e.rnode != null
      && m.exp(e.lnode.alpha + e.cost + e.rnode.beta - t.z) == EdgeProb(m, t.lattice, i, k, j)
  {
    hide Times, Lawful, Linked, Priced, Partition, AlphaSum, BetaSum, EdgeProb, Inverse;
    t.NodeAt(i, j);
    assert t.AlphaDone(m, i, j) && t.BetaDone(m, i, j);
    NodeProbLog(m, t.lattice, i, j, t.node[i][j].alpha, t.node[i][j].beta, t.z);
    forall k | 0 <= k < |t.node[i][j].lpath|
      ensures var e := t.node[i][j].lpath[k];
        e.lnode != null && e.rnode != null
        && m.exp(e.lnode.alpha + e.cost + e.rnode.beta - t.z) == EdgeProb(m, t.lattice, i, k, j)
    {
      var e := t.node[i][j].lpath[k];
      assert t.AlphaDone(m, i - 1, k);
      EdgeProbLog(m, t.lattice, i, k, j, e.lnode.alpha, e.rnode.beta, t.z);
    }
  }

  /** The contribution of one calcExpectation is the node term of the expectation. */
  lemma NodeTermIs(m: ExpLog, l: Lattice, ft: Features, q: int, i: nat, j: nat, p: int -> real, bf: seq<nat>)
    requires i < l.n && Partition(m, l) != 0.0 && l.n == |ft.uni| == |ft.bi| + 1
    requires i > 0 ==> bf == ft.bi[i - 1] && forall k :: 0 <= k < l.y ==> p(k) == EdgeProb(m, l, i, k, j)
    ensures NodeTerm(m, l, ft, q, i)(j) ==
            Times(NodeProb(m, l, i, j), Hits(ft.uni[i], j, q) as real) +
            Sum(if i > 0 then l.y else 0, EdgeHits(p, bf, l.y, j, q))
  {
    hide Times, Partition, NodeProb, EdgeProb, Hits, EdgeOff;
    if i > 0 {
      SumCong(l.y, EdgeTerm(m, l, ft, q, i, j), EdgeHits(p, bf, l.y, j, q));
    }
  }

  /** calcExpectation on one node. */
  method AddNode(t: Tagger, m: ExpLog, expected: array<real>, i: nat, j: nat)
    requires Lawful(m) && t.Summed(m) && Carries(t) && i < |t.node| && j < t.ysize
    requires InBounds(t.features, t.ysize, expected.Length)
    modifies expected
    ensures Partition(m, t.lattice) > 0.0 && i < t.lattice.n
    ensures forall q :: 0 <= q < expected.Length ==>
      expected[q] == old(expected[q]) + NodeTerm(m, t.lattice, t.features, q, i)(j)
  {
    hide Times, Lawful, Linked, Priced, Featured, Sum, Hits, EdgeOff, Indexes, Partition, AlphaSum, BetaSum, NodeProb;
    hide EdgeProb, NodeTerm, EdgeHits;
    t.NodeAt(i, j);
    FeaturesAt(t, i, j);
    var n := t.node[i][j];
    ghost var l, ft := t.lattice, t.features;
    assert t.AlphaDone(m, i, j) && t.BetaDone(m, i, j);
    NodeProbLog(m, l, i, j, n.alpha, n.beta, t.z);
    ghost var p := k => if 0 < i < l.n && Partition(m, l) != 0.0 then EdgeProb(m, l, i, k, j) else 0.0;
    ghost var bf := if i > 0 then ft.bi[i - 1] else [];
    if i > 0 { EdgeProbs(t, m, i, j); }
    n.CalcExpectation(expected, t.z, t.ysize, m, p, bf);
    forall q | 0 <= q < expected.Length
      ensures expected[q] == old(expected[q]) + NodeTerm(m, l, ft, q, i)(j)
    {
      NodeTermIs(m, l, ft, q, i, j, p, bf);
    }
  }

  /** The loop over all nodes that accumulates expectations. */
  method AddExpectations(t: Tagger, m: ExpLog, expected: array<real>)
    requires Lawful(m) && t.Summed(m) && Carries(t) && InBounds(t.features, t.ysize, expected.Length)
    modifies expected
    ensures Partition(m, t.lattice) > 0.0
    ensures forall q :: 0 <= q < expected.Length ==>
      expected[q] == old(expected[q]) + ExpectedCount(m, t.lattice, t.features, q)
  {
    hide Times, Lawful, Tagger.Summed, Carries, InBounds, Partition, NodeTerm, ExpectedCount;
    ghost var l, ft := t.lattice, t.features;
    Sizes(t, m);
    var i := 0;
    while i < |t.node|
      invariant i <= |t.node|
      invariant forall q :: 0 <= q < expected.Length ==>
        expected[q] == old(expected[q]) + Sum(i, TokenTerm(m, l, ft, q))
    {
      ghost var before := expected[..];
      var j := 0;
      while j < t.ysize
        invariant j <= t.ysize
        invariant forall q :: 0 <= q < expected.Length ==> expected[q] == before[q] + Sum(j, NodeTerm(m, l, ft, q, i))
      {
        AddNode(t, m, expected, i, j);
        j := j + 1;
      }
      forall q | 0 <= q < expected.Length
        ensures expected[q] == old(expected[q]) + Sum(i + 1, TokenTerm(m, l, ft, q))
      {
        assert TokenTerm(m, l, ft, q)(i) == Sum(l.y, NodeTerm(m, l, ft, q, i));
      }
      i := i + 1;
    }
    forall q | 0 <= q < expected.Length
      ensures expected[q] == old(expected[q]) + ExpectedCount(m, l, ft, q)
    {
      NodeSumIsExpectation(m, l, ft, q);
    }
  }

  lemma Sizes(t: Tagger, m: ExpLog)
    requires Lawful(m) && t.Summed(m)
    ensures t.lattice.n == |t.node| > 0 && t.lattice.y == t.ysize > 0 && Partition(m, t.lattice) > 0.0
  {
    hide Partition;
    ExpPositive(m, t.z);
  }

  // ---------- counts of one tag sequence ----------

  /** The loop body shared by gradient and collins: sign times the features of token i under the tags ts, found by
      looking for the left path that comes from the tag before. */
  method AddToken(t: Tagger, ts: Tags, a: array<real>, i: nat, sign: real) returns (s: real)
    requires Carries(t) && |ts| == |t.node| && InRange(t.ysize, ts) && i < |ts|
    requires InBounds(t.features, t.ysize, a.Length)
    modifies a
    ensures forall q :: 0 <= q < a.Length ==>
      a[q] == old(a[q]) + Times(sign, TokenCount(t.features, t.ysize, ts, q, i))
    ensures s == TokenScore(t.lattice, ts, i)
  {
    hide Times, Tagger.Ready, Linked, Priced, Featured, Hits, EdgeOff, Indexes;
    var y, j := t.ysize, ts[i];
    ghost var ft := t.features;
    t.NodeAt(i, j);
    FeaturesAt(t, i, j);
    var n := t.node[i][j];
    AddAt(a, n.fvector, j, sign);
    s := n.cost;
    ghost var mid := a[..];
    if i > 0 {
      var k := ts[i - 1];
      var it := 0;
      while it < |n.lpath| && n.lpath[it].lnode.y != ts[n.lpath[it].lnode.x]
        invariant it <= k
        decreases |n.lpath| - it
      {
        it := it + 1;
      }
      var p := n.lpath[it];
      EdgeOffIs(p.lnode.y, y, p.rnode.y);
      AddAt(a, p.fvector, p.lnode.y * y + p.rnode.y, sign);
      s := s + p.cost;
    }
    forall q | 0 <= q < a.Length ensures a[q] == old(a[q]) + Times(sign, TokenCount(ft, y, ts, q, i)) {
      TimesLaws(sign, NodeCount(ft, i, j, q), if i > 0 then EdgeCount(ft, y, i, ts[i - 1], j, q) else 0.0);
    }
  }

  /** The count of q among the first i tokens. */
  ghost function PrefixCount(ft: Features, y: nat, ts: Tags, q: int, i: nat): real {
    Sum(i, k => TokenCount(ft, y, ts, q, k))
  }

  /** All tokens of one tag sequence: sign times its feature counts, and its score. */
  method AddSequence(t: Tagger, ts: Tags, a: array<real>, sign: real) returns (s: real)
    requires Carries(t) && |ts| == |t.node| && InRange(t.ysize, ts) && InBounds(t.features, t.ysize, a.Length)
    modifies a
    ensures forall q :: 0 <= q < a.Length ==> a[q] == old(a[q]) + Times(sign, Count(t.features, t.ysize, ts, q))
    ensures s == Score(t.lattice, ts)
  {
    hide Carries, Times, InBounds, InRange, TokenCount, TokenScore, Score;
    ghost var ft, y, l := t.features, t.ysize, t.lattice;
    s := 0.0;
    var i := 0;
    forall q ensures Times(sign, PrefixCount(ft, y, ts, q, 0)) == 0.0 { TimesLaws(sign, 0.0, 0.0); }
    while i < |ts|
      invariant i <= |ts|
      invariant forall q :: 0 <= q < a.Length ==>
        a[q] == old(a[q]) + Times(sign, PrefixCount(ft, y, ts, q, i))
      invariant s == Sum(i, k => TokenScore(l, ts, k))
    {
      ghost var before := a[..];
      var c := AddToken(t, ts, a, i, sign);
      forall q | 0 <= q < a.Length
        ensures a[q] == old(a[q]) + Times(sign, PrefixCount(ft, y, ts, q, i + 1))
      {
        assert a[q] == before[q] + Times(sign, TokenCount(ft, y, ts, q, i));
        TimesLaws(sign, PrefixCount(ft, y, ts, q, i), TokenCount(ft, y, ts, q, i));
      }
      s := s + c;
      i := i + 1;
    }
    ScoreByToken(l, ts);
  }

  /** From before to after, every entry has changed by its expected count minus its count in the tag sequence ts. */
  ghost predicate Gained(m: ExpLog, l: Lattice, ft: Features, ts: Tags, before: seq<real>, after: seq<real>)
    requires Partition(m, l) != 0.0
  {
    && |before| == |after|
    && forall q :: 0 <= q < |after| ==> after[q] == before[q] + ExpectedCount(m, l, ft, q) - Count(ft, l.y, ts, q)
  }

  /** exp(-r) is the probability of the tag sequence ts. */
  ghost predicate NegLogProb(m: ExpLog, l: Lattice, ts: Tags, r: real) {
    Times(m.exp(-r), Partition(m, l)) == m.exp(Score(l, ts))
  }

  /** gradient on a built lattice: expected minus observed counts, and minus the log-probability of the answer. */
  method Accumulate(t: Tagger, m: ExpLog, expected: array<real>) returns (r: real)
    requires Lawful(m) && Carries(t) && InBounds(t.features, t.ysize, expected.Length)
    requires |t.answer| == |t.node| && InRange(t.ysize, t.answer)
    modifies expected, t.nodes`alpha, t.nodes`beta, t`z
    ensures Carries(t) && Partition(m, t.lattice) > 0.0
    ensures Gained(m, t.lattice, t.features, t.answer, old(expected[..]), expected[..])
    ensures NegLogProb(m, t.lattice, t.answer, r)
  {
    hide Lawful, Times, Tagger.Ready, Tagger.Forwarded, Tagger.Backwarded, Featured, InBounds, Partition;
    hide ExpectedCount, Count, InRange, Score;
    ghost var l, ft, y := t.lattice, t.features, t.ysize;
    t.ForwardBackward(m);
    Sizes(t, m);
    AddExpectations(t, m, expected);
    ghost var mid := expected[..];
    var s := AddSequence(t, t.answer, expected, -1.0);
    forall q | 0 <= q < expected.Length ensures expected[q] == mid[q] - Count(ft, y, t.answer, q) {
      MinusOne(Count(ft, y, t.answer, q));
    }
    r := t.z - s;
    ExpDiff(m, s, t.z);
  }

  /** gradient after buildLattice. */
  method GradientOn(t: Tagger, m: ExpLog, expected: array<real>) returns (r: real)
    requires Lawful(m) && Carries(t) && InBounds(t.features, t.ysize, expected.Length)
    requires |t.result| == |t.answer| == |t.node| && InRange(t.ysize, t.answer) && InRange(t.ysize, t.result)
    modifies expected, t.nodes`alpha, t.nodes`beta, t.nodes`prev, t.nodes`bestCost, t`z, t`result, t`cost
    ensures |t.result| == |t.answer| && InRange(t.ysize, t.result) && Partition(m, t.lattice) > 0.0
    ensures Gained(m, t.lattice, t.features, t.answer, old(expected[..]), expected[..])
    ensures NegLogProb(m, t.lattice, t.answer, r)
  {
    hide Lawful, Tagger.Ready, Featured, InBounds, Partition, InRange, Gained, NegLogProb;
    r := Accumulate(t, m, expected);
    t.Viterbi();  // the source runs it for eval()
  }

  lemma MinusOne(x: real)
    ensures Times(-1.0, x) == -x
  {}

  /** tagger.cpp gradient: the vector changes by expected minus observed counts, although only nodes and edges are
      visited; the value is minus the log-probability of the answer. */
  method Gradient(t: Tagger, index: FeatureIndex, m: ExpLog, fid: nat, expected: array<real>, ghost ft: Features)
    returns (r: real)
    requires Lawful(m) && index.Valid() && t.ysize == index.y && t.ysize > 0
    requires |t.result| == |t.answer| && InRange(t.ysize, t.answer) && InRange(t.ysize, t.result)
    requires |t.answer| > 0 ==> index.Cached(fid, |t.answer|, ft) && InBounds(ft, t.ysize, expected.Length)
    modifies t`node, t`lattice, t`features, t`nodes, t`paths, t`z, t`result, t`cost, expected
    modifies index.nodeArena, index.nodeArena.list, index.nodeArena.owned
    modifies index.pathArena, index.pathArena.list, index.pathArena.owned
    ensures index.Valid() && |t.result| == |t.answer| && InRange(t.ysize, t.result)
    ensures fresh(index.nodeArena.owned - old(index.nodeArena.owned))
    ensures fresh(index.pathArena.owned - old(index.pathArena.owned))
    ensures |t.answer| == 0 ==> r == 0.0 && expected[..] == old(expected[..])
    ensures |t.answer| > 0 ==>
      && t.features == ft && t.lattice == CostLattice(index.costFactor, index.alpha, ft, index.y)
      && Partition(m, t.lattice) > 0.0
      && Gained(m, t.lattice, ft, t.answer, old(expected[..]), expected[..])
      && NegLogProb(m, t.lattice, t.answer, r)
  {
    hide Lawful, FeatureIndex.Valid, FeatureIndex.Cached, Tagger.Built, Carries, InBounds, Partition, CostLattice;
    hide InRange;
    hide Gained, NegLogProb;
    if |t.answer| == 0 {
      return 0.0;
    }
    t.BuildLattice(index, fid, |t.answer|, ft);
    BuiltCarries(t, index);
    r := GradientOn(t, m, expected);
  }

  // ---------- collins ----------

  /** From before to after, the counts of ts have been added and those of us subtracted. */
  ghost predicate Moved(ft: Features, y: nat, ts: Tags, us: Tags, n: nat, before: seq<real>, after: seq<real>) {
    && |before| == |after|
    && forall q :: 0 <= q < |after| ==>
      after[q] == before[q] + PrefixCount(ft, y, ts, q, n) - PrefixCount(ft, y, us, q, n)
  }

  ghost function ScoreUpTo(l: Lattice, ts: Tags, i: nat): real {
    Sum(i, k => TokenScore(l, ts, k))
  }

  /** The loop of collins over the tokens. */
  method CollinsLoop(t: Tagger, a: array<real>) returns (s: real)
    requires Carries(t) && InBounds(t.features, t.ysize, a.Length)
    requires |t.answer| == |t.result| == |t.node| && InRange(t.ysize, t.answer) && InRange(t.ysize, t.result)
    modifies a
    ensures Moved(t.features, t.ysize, t.answer, t.result, |t.node|, old(a[..]), a[..])
    ensures s == Score(t.lattice, t.answer) - Score(t.lattice, t.result)
  {
    hide Carries, Times, InBounds, InRange, TokenCount, TokenScore, Score;
    ghost var ft, y, l := t.features, t.ysize, t.lattice;
    s := 0.0;
    var i := 0;
    while i < |t.node|
      invariant i <= |t.node|
      invariant Moved(ft, y, t.answer, t.result, i, old(a[..]), a[..])
      invariant s == ScoreUpTo(l, t.answer, i) - ScoreUpTo(l, t.result, i)
    {
      var plus := AddToken(t, t.answer, a, i, 1.0);
      var minus := AddToken(t, t.result, a, i, -1.0);
      forall x ensures Times(1.0, x) == x && Times(-1.0, x) == -x {
        TimesLaws(x, 0.0, 0.0);
        MinusOne(x);
      }
      s := s + plus - minus;
      i := i + 1;
    }
    ScoreByToken(l, t.answer);
    ScoreByToken(l, t.result);
  }

  /** collins after buildLattice and viterbi, with the early return when the answer was found. */
  method CollinsOn(t: Tagger, a: array<real>) returns (r: real)
    requires Carries(t) && InBounds(t.features, t.ysize, a.Length)
    requires |t.answer| == |t.result| == |t.node| && InRange(t.ysize, t.answer) && InRange(t.ysize, t.result)
    modifies a
    ensures Moved(t.features, t.ysize, t.answer, t.result, |t.node|, old(a[..]), a[..])
    ensures r == Score(t.lattice, t.result) - Score(t.lattice, t.answer)
  {
    var num, i := 0, 0;
    while i < |t.answer|
      invariant 0 <= num <= i <= |t.answer|
      invariant num == i <==> t.answer[..i] == t.result[..i]
    {
      assert t.answer[..i + 1] == t.answer[..i] + [t.answer[i]] && t.result[..i + 1] == t.result[..i] + [t.result[i]];
      if t.answer[i] == t.result[i] {
        num := num + 1;
      }
      i := i + 1;
    }
    if num == |t.answer| {
      assert t.answer == t.answer[..i] && t.result == t.result[..i];
      return 0.0;
    }
    var s := CollinsLoop(t, a);
    r := -s;
  }

  /** r is how much better the found tag sequence scores than the answer: the cost factor times the inner product of
      the weights with the counts that were lost, and never negative when viterbi finds an optimal sequence. */
  ghost predicate LossOf(l: Lattice, ft: Features, cf: real, w: seq<real>, answer: Tags, found: Tags, r: real) {
    && IsTagging(l, found)
    && r == Score(l, found) - Score(l, answer)
    && r == -Times(cf, Dot(w, CountDiff(ft, l.y, answer, found)))
    && (AboveSentinel(l) && SomeAbove(l) ==> IsOptimal(l, found) && r >= 0.0)
  }

  method ViterbiLoss(t: Tagger, index: FeatureIndex, a: array<real>) returns (r: real)
    requires Carries(t) && InBounds(t.features, t.ysize, a.Length)
    requires t.lattice == CostLattice(index.costFactor, index.alpha, t.features, t.ysize)
    requires |t.answer| == |t.result| == |t.node| && InRange(t.ysize, t.answer) && InRange(t.ysize, t.result)
    modifies t.nodes`prev, t.nodes`bestCost, t`result, t`cost, a
    ensures |t.result| == |t.answer| && InRange(t.ysize, t.result)
    ensures Moved(t.features, t.ysize, t.answer, t.result, |t.answer|, old(a[..]), a[..])
    ensures LossOf(t.lattice, t.features, index.costFactor, index.alpha, t.answer, t.result, r)
  {
    hide Tagger.Ready, Featured, InBounds, InRange, Moved, Score, AboveSentinel, SomeAbove, CountDiff, Dot, Times;
    hide CostLattice;
    t.Basics();
    FeaturesAt(t, 0, 0);
    t.Viterbi();
    r := CollinsOn(t, a);
    DiffIsDot(index.costFactor, index.alpha, t.features, t.ysize, t.answer, t.result);
  }

  /** tagger.cpp collins: the vector gains the counts of the answer and loses those of the tag sequence viterbi found;
      the value is the loss of the answer against it. */
  method Collins(t: Tagger, index: FeatureIndex, fid: nat, a: array<real>, ghost ft: Features) returns (r: real)
    requires index.Valid() && t.ysize == index.y && t.ysize > 0
    requires |t.result| == |t.answer| && InRange(t.ysize, t.answer) && InRange(t.ysize, t.result)
    requires |t.answer| > 0 ==> index.Cached(fid, |t.answer|, ft) && InBounds(ft, t.ysize, a.Length)
    modifies t`node, t`lattice, t`features, t`nodes, t`paths, t`result, t`cost, a
    modifies index.nodeArena, index.nodeArena.list, index.nodeArena.owned
    modifies index.pathArena, index.pathArena.list, index.pathArena.owned
    ensures index.Valid() && |t.result| == |t.answer| && InRange(t.ysize, t.result)
    ensures fresh(index.nodeArena.owned - old(index.nodeArena.owned))
    ensures fresh(index.pathArena.owned - old(index.pathArena.owned))
    ensures |t.answer| == 0 ==> r == 0.0 && a[..] == old(a[..])
    ensures |t.answer| > 0 ==>
      && t.features == ft && t.lattice == CostLattice(index.costFactor, index.alpha, ft, index.y)
      && Moved(ft, t.ysize, t.answer, t.result, |t.answer|, old(a[..]), a[..])
      && LossOf(t.lattice, ft, index.costFactor, index.alpha, t.answer, t.result, r)
  {
    hide FeatureIndex.Valid, FeatureIndex.Cached, Tagger.Built, Carries, InBounds, InRange, Moved, LossOf, CostLattice;
    if |t.answer| == 0 {
      return 0.0;
    }
    t.BuildLattice(index, fid, |t.answer|, ft);
    BuiltCarries(t, index);
    r := ViterbiLoss(t, index, a);
  }

  ghost function CountDiff(ft: Features, y: nat, ts: Tags, us: Tags): int -> real {
    q => Count(ft, y, ts, q) - Count(ft, y, us, q)
  }

  lemma DiffIsDot(cf: real, w: seq<real>, ft: Features, y: nat, ts: Tags, us: Tags)
    requires |ts| == |us| == |ft.uni| && |ft.uni| <= |ft.bi| + 1 && InRange(y, ts) && InRange(y, us)
    ensures var l := CostLattice(cf, w, ft, y);
      Score(l, us) - Score(l, ts) == -Times(cf, Dot(w, CountDiff(ft, y, ts, us)))
  {
    hide Times, Dot, Score, Count;
    ScoreIsDot(cf, w, ft, y, ts);
    ScoreIsDot(cf, w, ft, y, us);
    var cs, cu := q => Count(ft, y, ts, q), q => Count(ft, y, us, q);
    DotAdd(w, CountDiff(ft, y, ts, us), cu, cs);
    TimesLaws(cf, Dot(w, CountDiff(ft, y, ts, us)), Dot(w, cu));
  }
}
