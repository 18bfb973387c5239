/** Feature vectors of a sentence, how often each feature occurs in a tag sequence, and the costs they induce. */
module Features {
  import opened Sums
  import opened Lattice
  import opened ExpLog
  import opened ForwardBackward
  import opened Nodes

  /** uni[i]: features of token i.  bi[i]: features of the edges into token i + 1. */
  datatype Features = Features(uni: seq<seq<nat>>, bi: seq<seq<nat>>)

  /** How often index q is hit by tag j at token i. */
  ghost function NodeCount(ft: Features, i: int, j: int, q: int): real {
    if 0 <= i < |ft.uni| then Hits(ft.uni[i], j, q) as real else 0.0
  }

  /** How often index q is hit by the edge from tag k to tag j into token i. */
  ghost function EdgeCount(ft: Features, y: nat, i: int, k: int, j: int, q: int): real {
    if 0 < i <= |ft.bi| && 0 <= k && 0 <= j then Hits(ft.bi[i - 1], EdgeOff(k, y, j), q) as real else 0.0
  }

  ghost function TokenCount(ft: Features, y: nat, t: Tags, q: int, i: int): real {
    if 0 <= i < |t| then NodeCount(ft, i, t[i], q) + if i > 0 then EdgeCount(ft, y, i, t[i - 1], t[i], q) else 0.0
    else 0.0
  }

  /** How often feature index q occurs in the tag sequence t. */
  ghost function Count(ft: Features, y: nat, t: Tags, q: int): real {
    Sum(|t|, i => TokenCount(ft, y, t, q, i))
  }

  // ---------- expected counts ----------

  ghost function Inverse(z: real): real
    requires z != 0.0
  {
    1.0 / z
  }

  lemma InverseLaw(z: real, p: real, mass: real)
    requires z != 0.0 && Times(p, z) == mass
    ensures p == Times(Inverse(z), mass)
  {}

  ghost function NodeProb(m: ExpLog, l: Lattice, i: nat, j: int): real
    requires i < l.n && Partition(m, l) != 0.0
  {
    Times(Inverse(Partition(m, l)), NodeMass(m, l, i, j))
  }

  /** The probabilities of the tags of one token add up to 1. */
  lemma NodeProbsSumToOne(m: ExpLog, l: Lattice, i: nat)
    requires Lawful(m) && i < l.n && l.y > 0
    ensures Partition(m, l) > 0.0 && Sum(l.y, j => NodeProb(m, l, i, j)) == 1.0
  {
    PartitionPositive(m, l);
    hide Times, NodeMass, Partition;
    var z := Partition(m, l);
    MassesSumToPartition(m, l, i);
    var F, G := j => NodeMass(m, l, i, j), j => NodeProb(m, l, i, j);
    SumScale(l.y, Inverse(z), F, G);
    InverseLaw(z, 1.0, z) by { TimesLaws(z, 0.0, 0.0); }
  }

  /** The share of one tag sequence. */
  ghost function SequenceProb(m: ExpLog, l: Lattice): Tags -> real
    requires Partition(m, l) != 0.0
  {
    t => Times(Inverse(Partition(m, l)), m.exp(Score(l, t)))
  }

  /** The shares of all tag sequences, listed in any order, add up to 1. */
  lemma SequenceProbsSumToOne(m: ExpLog, l: Lattice, out: seq<Tags>)
    requires Partition(m, l) != 0.0 && Distinct(out) && forall t :: IsTagging(l, t) <==> t in out
    ensures SumList(out, SequenceProb(m, l)) == 1.0
  {
    hide Times, SumTags, SumList, Inverse, Distinct, AllTags, Partition, Weight, SequenceProb, IsTagging;
    var p := SequenceProb(m, l);
    SameTaggings(l, out);
    AllTagsSpec(l.y, l.n);
    SumListSame(out, AllTags(l.y, l.n), p);
    SumTagsIsSumOverList(l.y, l.n, p);
    SequenceProbsTotal(m, l);
  }

  lemma SameTaggings(l: Lattice, out: seq<Tags>)
    requires forall t :: IsTagging(l, t) <==> t in out
    ensures forall t :: t in out <==> t in AllTags(l.y, l.n)
  {
    hide AllTags;
    AllTagsSpec(l.y, l.n);
    forall t ensures t in out <==> t in AllTags(l.y, l.n) { assert IsTagging(l, t) <==> t in AllTags(l.y, l.n); }
  }

  lemma SequenceProbsTotal(m: ExpLog, l: Lattice)
    requires Partition(m, l) != 0.0
    ensures SumTags(l.y, l.n, SequenceProb(m, l)) == 1.0
  {
    hide Times, SumTags, Inverse, Span;
    var z := Partition(m, l);
    var p, w := SequenceProb(m, l), Weight(m, l, 0);
    forall t: Tags ensures p(t) == Times(Inverse(z), w(t)) { assert w(t) == m.exp(Score(l, t)); }
    TagsScale(l.y, l.n, Inverse(z), w, p);
    InverseLaw(z, 1.0, z) by { TimesLaws(z, 0.0, 0.0); }
  }

  ghost function EdgeProb(m: ExpLog, l: Lattice, i: nat, k: int, j: int): real
    requires 0 < i < l.n && Partition(m, l) != 0.0
  {
    Times(Inverse(Partition(m, l)), EdgeMass(m, l, i, k, j))
  }

  /** The count of q in a tag sequence drawn with probability proportional to its weight. */
  ghost function ExpectedCount(m: ExpLog, l: Lattice, ft: Features, q: int): real
    requires Partition(m, l) != 0.0
  {
    Times(Inverse(Partition(m, l)), SumTags(l.y, l.n, t => Times(Count(ft, l.y, t, q), m.exp(Score(l, t)))))
  }

  ghost function EdgeTerm(m: ExpLog, l: Lattice, ft: Features, q: int, i: nat, j: int): int -> real
    requires 0 < i < l.n && Partition(m, l) != 0.0
  {
    k => Times(EdgeProb(m, l, i, k, j), EdgeCount(ft, l.y, i, k, j, q))
  }

  /** What calcExpectation adds to expected[q] for the node of tag j at token i and its left paths. */
  ghost function NodeTerm(m: ExpLog, l: Lattice, ft: Features, q: int, i: nat): int -> real
    requires i < l.n && Partition(m, l) != 0.0
  {
    j => Times(NodeProb(m, l, i, j), NodeCount(ft, i, j, q))
         + if i > 0 then Sum(l.y, EdgeTerm(m, l, ft, q, i, j)) else 0.0
  }

  ghost function TokenTerm(m: ExpLog, l: Lattice, ft: Features, q: int): int -> real
    requires Partition(m, l) != 0.0
  {
    i => if 0 <= i < l.n then Sum(l.y, NodeTerm(m, l, ft, q, i)) else 0.0
  }

  ghost function OfToken(m: ExpLog, l: Lattice, ft: Features, q: int, i: int): Tags -> real {
    t => Times(TokenCount(ft, l.y, t, q, i), m.exp(Score(l, t)))
  }

  /** The node and edge terms of one token add up to the expected count of q at that token. */
  lemma TokenExpectation(m: ExpLog, l: Lattice, ft: Features, q: int, i: nat)
    requires i < l.n && Partition(m, l) != 0.0
    ensures TokenTerm(m, l, ft, q)(i) == Times(Inverse(Partition(m, l)), SumTags(l.y, l.n, OfToken(m, l, ft, q, i)))
  {
    hide Times, Inverse, NodeMass, EdgeMass, Hits, Partition, Score, SumTags;
    var inv := Inverse(Partition(m, l));
    var cn := j => NodeCount(ft, i, j, q);
    var ce := (k, j) => EdgeCount(ft, l.y, i, k, j, q);
    var A := j => Times(NodeProb(m, l, i, j), cn(j));
    var A' := j => Times(cn(j), NodeMass(m, l, i, j));
    ExpectationByNode(m, l, i, cn);
    forall j ensures A(j) == Times(inv, A'(j)) {
      TimesLaws(inv, NodeMass(m, l, i, j), cn(j));
      TimesLaws(NodeMass(m, l, i, j), cn(j), 0.0);
    }
    SumScale(l.y, inv, A', A);
    if i == 0 {
      SumCong(l.y, A, NodeTerm(m, l, ft, q, i));
      forall t: Tags | |t| == l.n ensures OfToken(m, l, ft, q, i)(t) == OfTag(m, l, i, cn)(t) {
        assert TokenCount(ft, l.y, t, q, i) == cn(t[i]);
      }
      TagsCong(l.y, l.n, OfToken(m, l, ft, q, i), OfTag(m, l, i, cn));
    } else {
      var B := j => Sum(l.y, EdgeTerm(m, l, ft, q, i, j));
      var B' := j => Sum(l.y, k => Times(ce(k, j), EdgeMass(m, l, i, k, j)));
      ExpectationByEdge(m, l, i, ce);
      forall j ensures B(j) == Times(inv, B'(j)) {
        var C := k => Times(ce(k, j), EdgeMass(m, l, i, k, j));
        forall k ensures EdgeTerm(m, l, ft, q, i, j)(k) == Times(inv, C(k)) {
          TimesLaws(inv, EdgeMass(m, l, i, k, j), ce(k, j));
          TimesLaws(EdgeMass(m, l, i, k, j), ce(k, j), 0.0);
        }
        SumScale(l.y, inv, C, EdgeTerm(m, l, ft, q, i, j));
      }
      SumScale(l.y, inv, B', B);
      SumAdd(l.y, A, B, NodeTerm(m, l, ft, q, i));
      forall t: Tags | |t| == l.n
        ensures OfToken(m, l, ft, q, i)(t) == OfTag(m, l, i, cn)(t) + OfEdge(m, l, i, ce)(t)
      {
        var w := m.exp(Score(l, t));
        TimesLaws(w, cn(t[i]), ce(t[i - 1], t[i]));
        TimesLaws(w, cn(t[i]) + ce(t[i - 1], t[i]), 0.0);
        TimesLaws(w, ce(t[i - 1], t[i]), 0.0);
      }
      TagsAdd(l.y, l.n, OfTag(m, l, i, cn), OfEdge(m, l, i, ce), OfToken(m, l, ft, q, i));
      TimesLaws(inv, SumTags(l.y, l.n, OfTag(m, l, i, cn)), SumTags(l.y, l.n, OfEdge(m, l, i, ce)));
    }
  }

  /** Visiting the n * y nodes and their edges yields the expectation over all y^n tag sequences. */
  lemma NodeSumIsExpectation(m: ExpLog, l: Lattice, ft: Features, q: int)
    requires Partition(m, l) != 0.0
    ensures Sum(l.n, TokenTerm(m, l, ft, q)) == ExpectedCount(m, l, ft, q)
  {
    hide Times, Inverse, TokenCount, NodeTerm, Partition, Score;
    var inv := Inverse(Partition(m, l));
    var h := (t: Tags, i: int) => OfToken(m, l, ft, q, i)(t);
    var F := i => SumTags(l.y, l.n, t => h(t, i));
    forall i | 0 <= i < l.n ensures TokenTerm(m, l, ft, q)(i) == Times(inv, F(i)) {
      TokenExpectation(m, l, ft, q, i);
      TagsCong(l.y, l.n, OfToken(m, l, ft, q, i), t => h(t, i));
    }
    SumScale(l.n, inv, F, TokenTerm(m, l, ft, q));
    TagsSwap(l.y, l.n, l.n, h);
    var g := t => Times(Count(ft, l.y, t, q), m.exp(Score(l, t)));
    forall t: Tags | |t| == l.n ensures g(t) == Sum(l.n, i => h(t, i)) {
      var w := m.exp(Score(l, t));
      var c := i => TokenCount(ft, l.y, t, q, i);
      forall i ensures h(t, i) == Times(w, c(i)) {
        TimesLaws(w, c(i), 0.0);
        assert OfToken(m, l, ft, q, i)(t) == Times(c(i), w);
      }
      SumScale(l.n, w, c, i => h(t, i));
      TimesLaws(w, Count(ft, l.y, t, q), 0.0);
    }
    TagsCong(l.y, l.n, g, t => Sum(l.n, i => h(t, i)));
  }

  // ---------- costs ----------

  /** feature_index.cpp calcCost: cost_factor times the weights of the features, moved by off. */
  ghost function FeatureCost(w: seq<real>, fv: seq<nat>, off: int): real {
    if fv == [] then 0.0
    else FeatureCost(w, fv[..|fv| - 1], off) +
         if 0 <= fv[|fv| - 1] + off < |w| then w[fv[|fv| - 1] + off] else 0.0
  }

  /** The lattice that buildLattice computes from weights and feature vectors. */
  ghost function CostLattice(cf: real, w: seq<real>, ft: Features, y: nat): Lattice {
    Lattice(|ft.uni|, y,
            (i, j) => if 0 <= i < |ft.uni| then Times(cf, FeatureCost(w, ft.uni[i], j)) else 0.0,
            (i, k, j) => if 0 < i <= |ft.bi| && 0 <= k && 0 <= j
                         then Times(cf, FeatureCost(w, ft.bi[i - 1], EdgeOff(k, y, j)))
                         else 0.0)
  }

  lemma {:induction false} CostChange(w: seq<real>, q: nat, x: real, fv: seq<nat>, off: int)
    requires q < |w|
    ensures FeatureCost(w[q := x], fv, off) == FeatureCost(w, fv, off) + Times(Hits(fv, off, q) as real, x - w[q])
  {
    if fv != [] {
      CostChange(w, q, x, fv[..|fv| - 1], off);
    }
  }

  lemma {:induction false} HitsOne(fv: seq<nat>, y: nat, f: nat, k: nat, j: nat, k': nat, j': nat)
    requires k < y && j < y && k' < y && j' < y
    requires forall i :: 0 <= i < |fv| ==> fv[i] == f || fv[i] + y * y <= f || f + y * y <= fv[i]
    ensures Hits(fv, EdgeOff(k', y, j'), f + EdgeOff(k, y, j)) == if k' == k && j' == j then multiset(fv)[f] else 0
  {
    hide EdgeOff;
    if fv != [] {
      var most, g := fv[..|fv| - 1], fv[|fv| - 1];
      HitsOne(most, y, f, k, j, k', j');
      PairIds(y);
      assert fv == most + [g];
    }
  }

  /** Changing the weight of bigram feature f for tags k and j changes the edge from k to j, by the change times how
      often the edge has the feature, and no other edge. */
  lemma OneWeightOneEdge(cf: real, w: seq<real>, ft: Features, y: nat, i: nat, f: nat, k: nat, j: nat, x: real)
    requires 0 < i <= |ft.bi| && k < y && j < y && f + k * y + j < |w|
    requires var fv := ft.bi[i - 1];
      forall n :: 0 <= n < |fv| ==> fv[n] == f || fv[n] + y * y <= f || f + y * y <= fv[n]
    ensures var q := f + k * y + j;
      var a, b := CostLattice(cf, w, ft, y), CostLattice(cf, w[q := x], ft, y);
      forall k': nat, j': nat :: k' < y && j' < y ==>
        b.edge(i, k', j') == a.edge(i, k', j') +
          if k' == k && j' == j then Times(cf, Times(multiset(ft.bi[i - 1])[f] as real, x - w[q])) else 0.0
  {
    hide Times, Hits, FeatureCost, EdgeOff;
    var q, fv := f + k * y + j, ft.bi[i - 1];
    EdgeOffIs(k, y, j);
    var a, b := CostLattice(cf, w, ft, y), CostLattice(cf, w[q := x], ft, y);
    forall k': nat, j': nat | k' < y && j' < y
      ensures b.edge(i, k', j') == a.edge(i, k', j') +
        if k' == k && j' == j then Times(cf, Times(multiset(fv)[f] as real, x - w[q])) else 0.0
    {
      var off := EdgeOff(k', y, j');
      CostChange(w, q, x, fv, off);
      HitsOne(fv, y, f, k, j, k', j');
      TimesLaws(cf, FeatureCost(w, fv, off), Times(Hits(fv, off, q) as real, x - w[q]));
      TimesLaws(x - w[q], 0.0, 0.0);
      TimesLaws(0.0, x - w[q], 0.0);
      TimesLaws(cf, 0.0, 0.0);
    }
  }

  ghost function TokenScore(l: Lattice, t: Tags, i: int): real {
    if 0 <= i < |t| then l.node(i, t[i]) + if i > 0 then l.edge(i, t[i - 1], t[i]) else 0.0 else 0.0
  }

  lemma {:induction false} ScoreByToken(l: Lattice, t: Tags)
    ensures Score(l, t) == Sum(|t|, i => TokenScore(l, t, i))
  {
    hide Span;
    if |t| > 0 {
      var u, j := t[..|t| - 1], t[|t| - 1];
      assert t == u + [j];
      ScoreByToken(l, u);
      SumCong(|u|, i => TokenScore(l, u, i), i => TokenScore(l, t, i));
      SpanOne(l, |u|, j);
      if |u| > 0 { SpanAppend(l, 0, u, [j]); } else { assert t == [j]; SpanNone(l, 0); }
    } else {
      SpanNone(l, 0);
    }
  }

  lemma SpanNone(l: Lattice, p: int)
    ensures Span(l, p, []) == 0.0
  {}

  /** The inner product of the weights with counts. */
  ghost function Dot(w: seq<real>, c: int -> real): real {
    Sum(|w|, q => if 0 <= q < |w| then Times(c(q), w[q]) else 0.0)
  }

  lemma {:induction false} FeatureCostIsDot(w: seq<real>, fv: seq<nat>, off: int)
    ensures FeatureCost(w, fv, off) == Dot(w, q => Hits(fv, off, q) as real)
  {
    hide Times;
    var c := q => Hits(fv, off, q) as real;
    var F := q => if 0 <= q < |w| then Times(c(q), w[q]) else 0.0;
    if fv == [] {
      forall q ensures F(q) == 0.0 { if 0 <= q < |w| { TimesLaws(w[q], 0.0, 0.0); } }
      SumZero(|w|, F);
    } else {
      var fv', f := fv[..|fv| - 1], fv[|fv| - 1] + off;
      FeatureCostIsDot(w, fv', off);
      var c' := q => Hits(fv', off, q) as real;
      var F' := q => if 0 <= q < |w| then Times(c'(q), w[q]) else 0.0;
      var G := q => if 0 <= q < |w| && q == f then w[q] else 0.0;
      forall q ensures F(q) == F'(q) + G(q) {
        if 0 <= q < |w| {
          TimesLaws(w[q], c'(q), 1.0);
          TimesLaws(w[q], c'(q) + 1.0, 0.0);
          TimesLaws(w[q], 1.0, 0.0);
          TimesLaws(w[q], 1.0, 1.0);
        }
      }
      SumAdd(|w|, F', G, F);
      if 0 <= f < |w| { SumPick(|w|, G, f); } else { SumZero(|w|, G); }
    }
  }

  lemma DotAdd(w: seq<real>, a: int -> real, b: int -> real, c: int -> real)
    requires forall q :: c(q) == a(q) + b(q)
    ensures Dot(w, c) == Dot(w, a) + Dot(w, b)
  {
    hide Times;
    var A := q => if 0 <= q < |w| then Times(a(q), w[q]) else 0.0;
    var B := q => if 0 <= q < |w| then Times(b(q), w[q]) else 0.0;
    var C := q => if 0 <= q < |w| then Times(c(q), w[q]) else 0.0;
    forall q | 0 <= q < |w| ensures C(q) == A(q) + B(q) {
      TimesLaws(w[q], a(q), b(q));
      TimesLaws(w[q], a(q) + b(q), 0.0);
      TimesLaws(w[q], b(q), 0.0);
    }
    SumAdd(|w|, A, B, C);
  }

  lemma TokenScoreIsDot(cf: real, w: seq<real>, ft: Features, y: nat, t: Tags, i: int)
    requires |t| == |ft.uni| && |ft.uni| <= |ft.bi| + 1 && InRange(y, t) && 0 <= i < |t|
    ensures TokenScore(CostLattice(cf, w, ft, y), t, i) == Times(cf, Dot(w, q => TokenCount(ft, y, t, q, i)))
  {
    hide Times, Dot, FeatureCost, Hits;
    var cn, c := q => NodeCount(ft, i, t[i], q), q => TokenCount(ft, y, t, q, i);
    FeatureCostIsDot(w, ft.uni[i], t[i]);
    DotCong(w, cn, q => Hits(ft.uni[i], t[i], q) as real);
    if i == 0 {
      DotCong(w, cn, c);
    } else {
      var ce := q => EdgeCount(ft, y, i, t[i - 1], t[i], q);
      var off := EdgeOff(t[i - 1], y, t[i]);
      FeatureCostIsDot(w, ft.bi[i - 1], off);
      DotCong(w, ce, q => Hits(ft.bi[i - 1], off, q) as real);
      DotAdd(w, cn, ce, c);
      TimesLaws(cf, Dot(w, cn), Dot(w, ce));
    }
  }

  lemma DotCong(w: seq<real>, a: int -> real, b: int -> real)
    requires forall q :: a(q) == b(q)
    ensures Dot(w, a) == Dot(w, b)
  {
    SumCong(|w|, q => if 0 <= q < |w| then Times(a(q), w[q]) else 0.0,
            q => if 0 <= q < |w| then Times(b(q), w[q]) else 0.0);
  }

  /** The score of a tag sequence is cost_factor times the inner product of the weights with its feature counts. */
  lemma ScoreIsDot(cf: real, w: seq<real>, ft: Features, y: nat, t: Tags)
    requires |t| == |ft.uni| && |ft.uni| <= |ft.bi| + 1 && InRange(y, t)
    ensures Score(CostLattice(cf, w, ft, y), t) == Times(cf, Dot(w, q => Count(ft, y, t, q)))
  {
    hide Times, Score, TokenScore, TokenCount;
    var l, n := CostLattice(cf, w, ft, y), |t|;
    var S := i => TokenScore(l, t, i);
    var D := i => Dot(w, q => TokenCount(ft, y, t, q, i));
    ScoreByToken(l, t);
    forall i | 0 <= i < n ensures S(i) == Times(cf, D(i)) { TokenScoreIsDot(cf, w, ft, y, t, i); }
    SumScale(n, cf, D, S);
    var f := (i: int, q: int) => if 0 <= q < |w| then Times(TokenCount(ft, y, t, q, i), w[q]) else 0.0;
    forall i ensures D(i) == Sum(|w|, q => f(i, q)) {
      SumCong(|w|, q => if 0 <= q < |w| then Times((q => TokenCount(ft, y, t, q, i))(q), w[q]) else 0.0, q => f(i, q));
    }
    SumCong(n, D, i => Sum(|w|, q => f(i, q)));
    SumSwap(n, |w|, f);
    var C := q => Count(ft, y, t, q);
    var G := q => if 0 <= q < |w| then Times(C(q), w[q]) else 0.0;
    forall q | 0 <= q < |w| ensures Sum(n, i => f(i, q)) == G(q) {
      var c := i => TokenCount(ft, y, t, q, i);
      forall i ensures f(i, q) == Times(w[q], c(i)) { TimesLaws(w[q], c(i), 0.0); }
      SumScale(n, w[q], c, i => f(i, q));
      TimesLaws(w[q], C(q), 0.0);
    }
    SumCong(|w|, q => Sum(n, i => f(i, q)), G);
  }
}
