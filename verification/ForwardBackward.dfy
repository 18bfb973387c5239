/** What alpha, beta and Z mean: sums over exponentially many tag sequences, and the recurrences they obey. */
module ForwardBackward {
  import opened Sums
  import opened Lattice
  import opened ExpLog

  /** The weight of the tags t laid over tokens p, p + 1, ... */
  ghost function Weight(m: ExpLog, l: Lattice, p: int): Tags -> real {
    t => m.exp(Span(l, p, t))
  }

  /** Total weight of all prefixes that end with tag j at token i. */
  ghost function AlphaSum(m: ExpLog, l: Lattice, i: nat, j: int): real {
    SumTags(l.y, i, Ending(m, l, j))
  }

  ghost function Ending(m: ExpLog, l: Lattice, j: int): Tags -> real {
    u => m.exp(Span(l, 0, u + [j]))
  }

  /** Total weight of all suffixes that start with tag j at token i. */
  ghost function BetaSum(m: ExpLog, l: Lattice, i: nat, j: int): real {
    SumTags(l.y, if i < l.n then l.n - 1 - i else 0, After([j], Weight(m, l, i)))
  }

  /** The partition function: total weight of all y^n tag sequences. */
  ghost function Partition(m: ExpLog, l: Lattice): real {
    SumTags(l.y, l.n, Weight(m, l, 0))
  }

  /** Total weight of the tag sequences that use tag j at token i. */
  ghost function NodeMass(m: ExpLog, l: Lattice, i: nat, j: int): real
    requires i < l.n
  {
    SumTags(l.y, l.n, ByNode(m, l, i, j))
  }

  ghost function ByNode(m: ExpLog, l: Lattice, i: nat, j: int): Tags -> real {
    t => if i < |t| && t[i] == j then m.exp(Score(l, t)) else 0.0
  }

  /** Total weight of the tag sequences that go from tag k at token i - 1 to tag j at token i. */
  ghost function EdgeMass(m: ExpLog, l: Lattice, i: nat, k: int, j: int): real
    requires 0 < i < l.n
  {
    SumTags(l.y, l.n, ByEdge(m, l, i, k, j))
  }

  ghost function ByEdge(m: ExpLog, l: Lattice, i: nat, k: int, j: int): Tags -> real {
    t => if 0 < i < |t| && t[i - 1] == k && t[i] == j then m.exp(Score(l, t)) else 0.0
  }

  // ---------- recurrences ----------

  lemma WeightSnoc(m: ExpLog, l: Lattice, u: Tags, k: int, j: int)
    requires Lawful(m)
    ensures Ending(m, l, j)(u + [k]) ==
            Times(m.exp(l.node(|u| + 1, j)), Times(m.exp(l.edge(|u| + 1, k, j)), Ending(m, l, k)(u)))
  {
    SpanSnoc(l, 0, u, k, j);
    ExpSum(m, Span(l, 0, u + [k]), l.edge(|u| + 1, k, j));
    ExpSum(m, Span(l, 0, u + [k]) + l.edge(|u| + 1, k, j), l.node(|u| + 1, j));
  }

  lemma AlphaFirst(m: ExpLog, l: Lattice, j: int)
    ensures AlphaSum(m, l, 0, j) == m.exp(l.node(0, j))
  {
    var none: Tags := [];
    assert none + [j] == [j];
    assert Span(l, 0, [j]) == l.node(0, j);
    assert SumTags(l.y, 0, Ending(m, l, j)) == Ending(m, l, j)(none);
  }

  lemma AlphaTerm(m: ExpLog, l: Lattice, i: nat, k: int, j: int)
    requires Lawful(m) && i > 0
    ensures SumTags(l.y, i - 1, (u: Tags) => Ending(m, l, j)(u + [k])) ==
            Times(m.exp(l.node(i, j)), Times(m.exp(l.edge(i, k, j)), AlphaSum(m, l, i - 1, k)))
  {
    hide Times, Span, Lawful;
    var c := Times(m.exp(l.node(i, j)), m.exp(l.edge(i, k, j)));
    var f, g := Ending(m, l, k), (u: Tags) => Ending(m, l, j)(u + [k]);
    forall u: Tags | |u| == i - 1 && InRange(l.y, u) ensures g(u) == Times(c, f(u)) {
      WeightSnoc(m, l, u, k, j);
      TimesLaws(m.exp(l.node(i, j)), m.exp(l.edge(i, k, j)), f(u));
    }
    TagsScale(l.y, i - 1, c, f, g);
    TimesLaws(m.exp(l.node(i, j)), m.exp(l.edge(i, k, j)), AlphaSum(m, l, i - 1, k));
  }

  /** The sum calcAlpha forms over the left paths of a node. */
  ghost function LeftTerm(m: ExpLog, l: Lattice, i: nat, j: int): int -> real
    requires i > 0
  {
    k => Times(m.exp(l.edge(i, k, j)), AlphaSum(m, l, i - 1, k))
  }

  lemma AlphaStep(m: ExpLog, l: Lattice, i: nat, j: int)
    requires Lawful(m) && i > 0
    ensures AlphaSum(m, l, i, j) == Times(m.exp(l.node(i, j)), Sum(l.y, LeftTerm(m, l, i, j)))
  {
    hide Times, Span, Lawful;
    var f := Ending(m, l, j);
    TagsSplit(l.y, i - 1, 1, f);
    var F := u => SumTags(l.y, 1, After(u, f));
    var h := (u: Tags, k) => f(u + [k]);
    var G := u => Sum(l.y, k => h(u, k));
    forall u: Tags ensures F(u) == G(u) {
      TagsSingle(l.y, After(u, f));
      SumCong(l.y, k => After(u, f)([k]), k => h(u, k));
    }
    TagsCong(l.y, i - 1, F, G);
    TagsSwap(l.y, i - 1, l.y, h);
    var H := k => SumTags(l.y, i - 1, u => h(u, k));
    forall k | 0 <= k < l.y ensures H(k) == Times(m.exp(l.node(i, j)), LeftTerm(m, l, i, j)(k)) {
      AlphaTerm(m, l, i, k, j);
      TagsCong(l.y, i - 1, u => h(u, k), (u: Tags) => Ending(m, l, j)(u + [k]));
    }
    SumScale(l.y, m.exp(l.node(i, j)), LeftTerm(m, l, i, j), H);
  }

  lemma BetaLast(m: ExpLog, l: Lattice, j: int)
    requires l.n > 0
    ensures BetaSum(m, l, l.n - 1, j) == m.exp(l.node(l.n - 1, j))
  {
    assert [j] + [] == [j];
    assert Span(l, l.n - 1, [j]) == l.node(l.n - 1, j);
    assert After([j], Weight(m, l, l.n - 1))([]) == m.exp(l.node(l.n - 1, j));
  }

  /** The sum calcBeta forms over the right paths of a node. */
  ghost function RightTerm(m: ExpLog, l: Lattice, i: nat, j: int): int -> real
    requires i + 1 < l.n
  {
    k => Times(m.exp(l.edge(i + 1, j, k)), BetaSum(m, l, i + 1, k))
  }

  lemma BetaStep(m: ExpLog, l: Lattice, i: nat, j: int)
    requires Lawful(m) && i + 1 < l.n
    ensures BetaSum(m, l, i, j) == Times(m.exp(l.node(i, j)), Sum(l.y, RightTerm(m, l, i, j)))
  {
    hide Times, Span, Lawful;
    var f := After([j], Weight(m, l, i));
    var F := k => SumTags(l.y, l.n - 2 - i, After([k], f));
    var e := m.exp(l.node(i, j));
    forall k | 0 <= k < l.y ensures F(k) == Times(e, RightTerm(m, l, i, j)(k)) { BetaTerm(m, l, i, j, k); }
    hide After, Weight;
    SumScale(l.y, e, RightTerm(m, l, i, j), F);
  }

  /** What the sequences that go on with tag k contribute. */
  lemma BetaTerm(m: ExpLog, l: Lattice, i: nat, j: int, k: int)
    requires Lawful(m) && i + 1 < l.n
    ensures SumTags(l.y, l.n - 2 - i, After([k], After([j], Weight(m, l, i)))) ==
            Times(m.exp(l.node(i, j)), RightTerm(m, l, i, j)(k))
  {
    hide Times, Span, Lawful, SumTags;
    var e := m.exp(l.node(i, j));
    var g, h := After([k], After([j], Weight(m, l, i))), After([k], Weight(m, l, i + 1));
    var c := Times(e, m.exp(l.edge(i + 1, j, k)));
    forall v: Tags ensures g(v) == Times(c, h(v)) { WeightCons(m, l, i, j, k, v); }
    TagsScale(l.y, l.n - 2 - i, c, h, g);
    TimesLaws(e, m.exp(l.edge(i + 1, j, k)), BetaSum(m, l, i + 1, k));
  }

  lemma WeightCons(m: ExpLog, l: Lattice, i: nat, j: int, k: int, v: Tags)
    requires Lawful(m)
    ensures Weight(m, l, i)([j] + ([k] + v)) ==
            Times(Times(m.exp(l.node(i, j)), m.exp(l.edge(i + 1, j, k))), Weight(m, l, i + 1)([k] + v))
  {
    hide Times, Lawful;
    var t := [j] + ([k] + v);
    assert t[0] == j && t[1] == k && t[1..] == [k] + v;
    assert Span(l, i, t) == l.node(i, j) + l.edge(i + 1, j, k) + Span(l, i + 1, [k] + v);
    ExpSum(m, l.node(i, j), l.edge(i + 1, j, k));
    ExpSum(m, l.node(i, j) + l.edge(i + 1, j, k), Span(l, i + 1, [k] + v));
  }

  lemma PartitionIsBetaSum(m: ExpLog, l: Lattice)
    requires l.n > 0
    ensures Partition(m, l) == Sum(l.y, j => BetaSum(m, l, 0, j))
  {
    SumCong(l.y, j => SumTags(l.y, l.n - 1, After([j], Weight(m, l, 0))), j => BetaSum(m, l, 0, j));
  }

  // ---------- marginals ----------

  lemma PartitionPositive(m: ExpLog, l: Lattice)
    requires Lawful(m) && l.y > 0
    ensures Partition(m, l) > 0.0
  {
    TagsPositive(l.y, l.n, Weight(m, l, 0));
  }

  lemma TagsZero(y: nat, m: nat, f: Tags -> real)
    requires forall t: Tags :: |t| == m && InRange(y, t) ==> f(t) == 0.0
    ensures SumTags(y, m, f) == 0.0
  {
    TagsScale(y, m, 0.0, f, f);
  }

  /** A sum in which only the sequences with tag j at token i count is a sum over what surrounds that token. */
  lemma SumThrough(y: nat, n: nat, i: nat, j: int, f: Tags -> real)
    requires i < n && 0 <= j < y
    requires forall t: Tags :: |t| == n && InRange(y, t) && t[i] != j ==> f(t) == 0.0
    ensures SumTags(y, n, f) == SumTags(y, i, u => SumTags(y, n - 1 - i, After(u + [j], f)))
  {
    TagsSplit(y, i, n - i, f);
    var F, G := u => SumTags(y, n - i, After(u, f)), u => SumTags(y, n - 1 - i, After(u + [j], f));
    forall u: Tags | |u| == i && InRange(y, u) ensures F(u) == G(u) { SumThroughAfter(y, n, i, j, f, u); }
    hide SumTags, After;
    TagsCong(y, i, F, G);
  }

  lemma SumThroughAfter(y: nat, n: nat, i: nat, j: int, f: Tags -> real, u: Tags)
    requires i < n && 0 <= j < y && |u| == i && InRange(y, u)
    requires forall t: Tags :: |t| == n && InRange(y, t) && t[i] != j ==> f(t) == 0.0
    ensures SumTags(y, n - i, After(u, f)) == SumTags(y, n - 1 - i, After(u + [j], f))
  {
    var H := k => SumTags(y, n - i - 1, After([k], After(u, f)));
    forall k | 0 <= k < y && k != j ensures H(k) == 0.0 {
      forall v: Tags | |v| == n - i - 1 && InRange(y, v) ensures After([k], After(u, f))(v) == 0.0 {
        var t := u + ([k] + v);
        assert t[i] == k && InRange(y, t);
      }
      TagsZero(y, n - i - 1, After([k], After(u, f)));
    }
    SumPick(y, H, j);
    AfterAfter(y, n - i - 1, u, [j], f);
  }

  lemma WeightOverlap(m: ExpLog, l: Lattice, u: Tags, j: int, v: Tags)
    requires Lawful(m)
    ensures Times(m.exp(l.node(|u|, j)), m.exp(Span(l, 0, u + [j] + v))) ==
            Times(m.exp(Span(l, 0, u + [j])), m.exp(Span(l, |u|, [j] + v)))
  {
    hide Times, Span, Lawful;
    SpanOverlap(l, 0, u, j, v);
    ExpSum(m, Span(l, 0, u + [j] + v), l.node(|u|, j));
    ExpSum(m, Span(l, 0, u + [j]), Span(l, |u|, [j] + v));
    TimesLaws(m.exp(l.node(|u|, j)), m.exp(Span(l, 0, u + [j] + v)), 0.0);
  }

  lemma WeightJoin(m: ExpLog, l: Lattice, u: Tags, k: int, j: int, v: Tags)
    requires Lawful(m)
    ensures m.exp(Span(l, 0, u + [k] + ([j] + v))) ==
            Times(Times(m.exp(Span(l, 0, u + [k])), m.exp(l.edge(|u| + 1, k, j))), m.exp(Span(l, |u| + 1, [j] + v)))
  {
    hide Times, Span, Lawful;
    SpanAppend(l, 0, u + [k], [j] + v);
    ExpSum(m, Span(l, 0, u + [k]), l.edge(|u| + 1, k, j));
    ExpSum(m, Span(l, 0, u + [k]) + l.edge(|u| + 1, k, j), Span(l, |u| + 1, [j] + v));
  }

  /** Summing over what follows token i, for a fixed prefix u that ends with tag j at token i. */
  lemma SumAfterNode(m: ExpLog, l: Lattice, u: Tags, j: int)
    requires Lawful(m) && |u| < l.n
    ensures Times(m.exp(l.node(|u|, j)), SumTags(l.y, l.n - 1 - |u|, After(u + [j], Weight(m, l, 0)))) ==
            Times(Ending(m, l, j)(u), BetaSum(m, l, |u|, j))
  {
    hide Times, Span, Lawful;
    var r := l.n - 1 - |u|;
    var e, a := m.exp(l.node(|u|, j)), Ending(m, l, j)(u);
    var f, b := After(u + [j], Weight(m, l, 0)), After([j], Weight(m, l, |u|));
    var g := v => Times(e, f(v));
    forall v: Tags ensures g(v) == Times(a, b(v)) {
      WeightOverlap(m, l, u, j, v);
    }
    TagsScale(l.y, r, e, f, g);
    TagsScale(l.y, r, a, b, g);
  }

  lemma ThroughNode(m: ExpLog, l: Lattice, u: Tags, j: int, v: Tags)
    ensures ByNode(m, l, |u|, j)(u + [j] + v) == Weight(m, l, 0)(u + [j] + v)
  {
    var t := u + [j] + v;
    assert t[|u|] == j && Score(l, t) == Span(l, 0, t);
  }

  lemma ThroughEdge(m: ExpLog, l: Lattice, u: Tags, k: int, j: int, v: Tags)
    ensures ByEdge(m, l, |u| + 1, k, j)(u + [k] + ([j] + v)) == Weight(m, l, 0)(u + [k] + ([j] + v))
  {
    var t := u + [k] + ([j] + v);
    assert t[|u|] == k && t[|u| + 1] == j && Score(l, t) == Span(l, 0, t);
  }

  /** alpha times beta is the mass of the node, its own cost counted twice. */
  lemma NodeMassIsAlphaBeta(m: ExpLog, l: Lattice, i: nat, j: int)
    requires Lawful(m) && i < l.n && 0 <= j < l.y
    ensures Times(m.exp(l.node(i, j)), NodeMass(m, l, i, j)) == Times(AlphaSum(m, l, i, j), BetaSum(m, l, i, j))
  {
    hide Times, Span, Lawful;
    var f, w := ByNode(m, l, i, j), Weight(m, l, 0);
    var r := l.n - 1 - i;
    var a, b := Ending(m, l, j), BetaSum(m, l, i, j);
    var e := m.exp(l.node(i, j));
    SumThrough(l.y, l.n, i, j, f);
    var F := u => SumTags(l.y, r, After(u + [j], f));
    var G := u => Times(e, F(u));
    forall u: Tags | |u| == i && InRange(l.y, u) ensures G(u) == Times(b, a(u)) {
      forall v: Tags ensures After(u + [j], f)(v) == After(u + [j], w)(v) { ThroughNode(m, l, u, j, v); }
      TagsCong(l.y, r, After(u + [j], f), After(u + [j], w));
      SumAfterNode(m, l, u, j);
      TimesLaws(a(u), b, 0.0);
    }
    TimesLaws(b, SumTags(l.y, i, a), 0.0);
    TagsScale(l.y, i, b, a, G);
    TagsScale(l.y, i, e, F, G);
  }

  /** Summing over what follows token i, for a fixed prefix u ++ [k, j] that ends with the edge k, j. */
  lemma SumAfterEdge(m: ExpLog, l: Lattice, u: Tags, k: int, j: int)
    requires Lawful(m) && |u| + 1 < l.n
    ensures SumTags(l.y, l.n - 2 - |u|, After([j], After(u + [k], Weight(m, l, 0)))) ==
            Times(Times(m.exp(l.edge(|u| + 1, k, j)), BetaSum(m, l, |u| + 1, j)), Ending(m, l, k)(u))
  {
    hide Times, Span, Lawful, SumTags;
    var r := l.n - 2 - |u|;
    var e, a := m.exp(l.edge(|u| + 1, k, j)), Ending(m, l, k)(u);
    var f, b := After([j], After(u + [k], Weight(m, l, 0))), After([j], Weight(m, l, |u| + 1));
    forall v: Tags ensures f(v) == Times(Times(a, e), b(v)) {
      WeightJoin(m, l, u, k, j, v);
    }
    TagsScale(l.y, r, Times(a, e), b, f);
    TimesLaws(a, e, BetaSum(m, l, |u| + 1, j));
    TimesLaws(a, Times(e, BetaSum(m, l, |u| + 1, j)), 0.0);
  }

  /** alpha of the left node, the edge, and beta of the right node make up the mass of an edge. */
  lemma EdgeMassIsAlphaBeta(m: ExpLog, l: Lattice, i: nat, k: int, j: int)
    requires Lawful(m) && 0 < i < l.n && 0 <= j < l.y && 0 <= k < l.y
    ensures EdgeMass(m, l, i, k, j) ==
            Times(Times(m.exp(l.edge(i, k, j)), BetaSum(m, l, i, j)), AlphaSum(m, l, i - 1, k))
  {
    hide Times, Span, Lawful, ByEdge;
    var f := ByEdge(m, l, i, k, j);
    var r := l.n - 1 - i;
    var a, c := Ending(m, l, k), Times(m.exp(l.edge(i, k, j)), BetaSum(m, l, i, j));
    ByEdgeNeedsNode(m, l, i, k, j);
    SumThrough(l.y, l.n, i - 1, k, f);
    var F := u => SumTags(l.y, r + 1, After(u + [k], f));
    forall u: Tags | |u| == i - 1 && InRange(l.y, u) ensures F(u) == Times(c, a(u)) {
      EdgeMassAfter(m, l, i, k, j, u);
    }
    TagsScale(l.y, i - 1, c, a, F);
  }

  lemma ByEdgeNeedsNode(m: ExpLog, l: Lattice, i: nat, k: int, j: int)
    requires 0 < i < l.n
    ensures forall t: Tags :: |t| == l.n && t[i - 1] != k ==> ByEdge(m, l, i, k, j)(t) == 0.0
  {}

  /** The mass of the sequences that start with u and then take the edge from k to j. */
  lemma EdgeMassAfter(m: ExpLog, l: Lattice, i: nat, k: int, j: int, u: Tags)
    requires Lawful(m) && 0 < i < l.n && 0 <= j < l.y && 0 <= k < l.y && |u| == i - 1 && InRange(l.y, u)
    ensures SumTags(l.y, l.n - i, After(u + [k], ByEdge(m, l, i, k, j))) ==
            Times(Times(m.exp(l.edge(i, k, j)), BetaSum(m, l, i, j)), Ending(m, l, k)(u))
  {
    hide Times, Span, Lawful;
    var w, r := Weight(m, l, 0), l.n - 1 - i;
    var g := After(u + [k], ByEdge(m, l, i, k, j));
    var H := x => SumTags(l.y, r, After([x], g));
    forall x | 0 <= x < l.y && x != j ensures H(x) == 0.0 {
      forall v: Tags ensures After([x], g)(v) == 0.0 { assert (u + [k] + ([x] + v))[i] == x; }
      TagsZero(l.y, r, After([x], g));
    }
    SumPick(l.y, H, j);
    forall v: Tags ensures After([j], g)(v) == After([j], After(u + [k], w))(v) {
      ThroughEdge(m, l, u, k, j, v);
    }
    TagsCong(l.y, r, After([j], g), After([j], After(u + [k], w)));
    SumAfterEdge(m, l, u, k, j);
  }

  /** A quantity read off the tag at token i, averaged over all sequences, can be summed over the nodes instead. */
  lemma ExpectationByNode(m: ExpLog, l: Lattice, i: nat, c: int -> real)
    requires i < l.n
    ensures SumTags(l.y, l.n, OfTag(m, l, i, c)) == Sum(l.y, j => Times(c(j), NodeMass(m, l, i, j)))
  {
    hide Times, Span, Lawful;
    var f := OfTag(m, l, i, c);
    var g := (t: Tags, j: int) => Times(c(j), ByNode(m, l, i, j)(t));
    forall t: Tags | |t| == l.n && InRange(l.y, t) ensures f(t) == Sum(l.y, j => g(t, j)) {
      forall j | j != t[i] ensures g(t, j) == 0.0 { TimesLaws(c(j), 0.0, 0.0); assert ByNode(m, l, i, j)(t) == 0.0; }
      SumPick(l.y, j => g(t, j), t[i]);
      assert ByNode(m, l, i, t[i])(t) == m.exp(Score(l, t));
    }
    TagsCong(l.y, l.n, f, t => Sum(l.y, j => g(t, j)));
    TagsSwap(l.y, l.n, l.y, g);
    forall j ensures SumTags(l.y, l.n, t => g(t, j)) == Times(c(j), NodeMass(m, l, i, j)) {
      TagsScale(l.y, l.n, c(j), ByNode(m, l, i, j), t => g(t, j));
    }
    SumCong(l.y, j => SumTags(l.y, l.n, t => g(t, j)), j => Times(c(j), NodeMass(m, l, i, j)));
  }

  ghost function OfTag(m: ExpLog, l: Lattice, i: nat, c: int -> real): Tags -> real {
    t => if i < |t| then Times(c(t[i]), m.exp(Score(l, t))) else 0.0
  }

  /** The same for a quantity read off the edge into token i. */
  lemma ExpectationByEdge(m: ExpLog, l: Lattice, i: nat, c: (int, int) -> real)
    requires 0 < i < l.n
    ensures SumTags(l.y, l.n, OfEdge(m, l, i, c)) ==
            Sum(l.y, j => Sum(l.y, k => Times(c(k, j), EdgeMass(m, l, i, k, j))))
  {
    hide Times, Span, Lawful;
    var f := OfEdge(m, l, i, c);
    var g := (t: Tags, j: int) => if 0 < i < |t| && t[i] == j then f(t) else 0.0;
    forall t: Tags | |t| == l.n && InRange(l.y, t) ensures f(t) == Sum(l.y, j => g(t, j)) {
      SumPick(l.y, j => g(t, j), t[i]);
    }
    TagsCong(l.y, l.n, f, t => Sum(l.y, j => g(t, j)));
    TagsSwap(l.y, l.n, l.y, g);
    var F, G := j => SumTags(l.y, l.n, t => g(t, j)), j => Sum(l.y, k => Times(c(k, j), EdgeMass(m, l, i, k, j)));
    forall j ensures F(j) == G(j) {
      var h := (t: Tags, k: int) => Times(c(k, j), ByEdge(m, l, i, k, j)(t));
      forall t: Tags | |t| == l.n && InRange(l.y, t) ensures g(t, j) == Sum(l.y, k => h(t, k)) {
        forall k | !(t[i - 1] == k && t[i] == j)
          ensures h(t, k) == 0.0 { TimesLaws(c(k, j), 0.0, 0.0); assert ByEdge(m, l, i, k, j)(t) == 0.0; }
        SumPick(l.y, k => h(t, k), t[i - 1]);
        if t[i] == j { assert ByEdge(m, l, i, t[i - 1], j)(t) == m.exp(Score(l, t)); }
      }
      TagsCong(l.y, l.n, t => g(t, j), t => Sum(l.y, k => h(t, k)));
      TagsSwap(l.y, l.n, l.y, h);
      forall k ensures SumTags(l.y, l.n, t => h(t, k)) == Times(c(k, j), EdgeMass(m, l, i, k, j)) {
        TagsScale(l.y, l.n, c(k, j), ByEdge(m, l, i, k, j), t => h(t, k));
      }
      SumCong(l.y, k => SumTags(l.y, l.n, t => h(t, k)), k => Times(c(k, j), EdgeMass(m, l, i, k, j)));
    }
    SumCong(l.y, F, G);
  }

  ghost function OfEdge(m: ExpLog, l: Lattice, i: nat, c: (int, int) -> real): Tags -> real {
    t => if 0 < i < |t| then Times(c(t[i - 1], t[i]), m.exp(Score(l, t))) else 0.0
  }

  /** Every tag sequence has exactly one tag at token i, so the node masses of a token add up to the partition
      function, whatever the token. */
  lemma MassesSumToPartition(m: ExpLog, l: Lattice, i: nat)
    requires i < l.n
    ensures Sum(l.y, j => NodeMass(m, l, i, j)) == Partition(m, l)
  {
    hide Times, Span, Lawful;
    var one: int -> real := j => 1.0;
    ExpectationByNode(m, l, i, one);
    forall x: real ensures Times(1.0, x) == x { TimesLaws(x, x, x); }
    forall t: Tags | |t| == l.n ensures Weight(m, l, 0)(t) == OfTag(m, l, i, one)(t) {
      assert Weight(m, l, 0)(t) == m.exp(Score(l, t));
    }
    TagsCong(l.y, l.n, Weight(m, l, 0), OfTag(m, l, i, one));
    SumCong(l.y, j => NodeMass(m, l, i, j), j => Times(one(j), NodeMass(m, l, i, j)));
  }
}
