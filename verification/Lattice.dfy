/** The n x y lattice of a sentence as a mathematical value, and the score of a tag sequence. */
module Lattice {
  import opened Sums

  /** node(i, j): cost of tag j at token i.  edge(i, k, j): cost of going from tag k at i - 1 to tag j at i. */
  datatype Lattice = Lattice(n: nat, y: nat, node: (int, int) -> real, edge: (int, int, int) -> real)

  /** A complete tag sequence for the sentence. */
  ghost predicate IsTagging(l: Lattice, t: Tags) {
    |t| == l.n && InRange(l.y, t)
  }

  /** Score of the tags t laid over the tokens p, p + 1, ... : all node costs plus the edge costs between them. */
  ghost function Span(l: Lattice, p: int, t: Tags): real
    decreases |t|
  {
    if |t| == 0 then 0.0
    else if |t| == 1 then l.node(p, t[0])
    else l.node(p, t[0]) + l.edge(p + 1, t[0], t[1]) + Span(l, p + 1, t[1..])
  }

  ghost function Score(l: Lattice, t: Tags): real {
    Span(l, 0, t)
  }

  lemma SpanOne(l: Lattice, p: int, j: int)
    ensures Span(l, p, [j]) == l.node(p, j)
  {}

  lemma {:induction false} SpanAppend(l: Lattice, p: int, u: Tags, v: Tags)
    requires |u| > 0 && |v| > 0
    ensures Span(l, p, u + v) == Span(l, p, u) + l.edge(p + |u|, u[|u| - 1], v[0]) + Span(l, p + |u|, v)
    decreases |u|
  {
    assert (u + v)[1..] == u[1..] + v;
    if |u| > 1 { SpanAppend(l, p + 1, u[1..], v); }
  }

  /** Both halves of a sequence may share the token in the middle, whose node cost then counts twice. */
  lemma SpanOverlap(l: Lattice, p: int, u: Tags, j: int, v: Tags)
    ensures Span(l, p, u + [j] + v) + l.node(p + |u|, j) == Span(l, p, u + [j]) + Span(l, p + |u|, [j] + v)
  {
    if |v| == 0 {
      assert u + [j] + v == u + [j] && [j] + v == [j];
    } else {
      SpanAppend(l, p, u + [j], v);
      SpanAppend(l, p + |u|, [j], v);
    }
  }

  lemma SpanSnoc(l: Lattice, p: int, u: Tags, k: int, j: int)
    ensures Span(l, p, u + [k] + [j]) ==
            Span(l, p, u + [k]) + l.edge(p + |u| + 1, k, j) + l.node(p + |u| + 1, j)
  {
    SpanAppend(l, p, u + [k], [j]);
  }
}

/** exp and log as the source uses them, known only by their laws. */
module ExpLog {
  import opened Sums

  datatype ExpLog = ExpLog(exp: real -> real, log: real -> real)

  ghost predicate SumLaw(m: ExpLog, x: real, y: real) {
    m.exp(x + y) == m.exp(x) * m.exp(y)
  }

  ghost predicate Lawful(m: ExpLog) {
    && (forall x, y :: SumLaw(m, x, y))
    && (forall x :: m.exp(x) > 0.0)
    && (forall x :: x > 0.0 ==> m.exp(m.log(x)) == x)
    && (forall x :: m.log(m.exp(x)) == x)
  }

  /** node.h logsumexp, without its cut-off for operands more than MINUS_LOG_EPSILON apart. */
  function LogSumExp(m: ExpLog, x: real, y: real, flg: bool): real {
    if flg then y
    else
      var vmin := if x < y then x else y;
      var vmax := if x > y then x else y;
      vmax + m.log(m.exp(vmin - vmax) + 1.0)
  }

  lemma ExpSum(m: ExpLog, x: real, y: real)
    requires Lawful(m)
    ensures m.exp(x + y) == Times(m.exp(x), m.exp(y))
  {
    assert SumLaw(m, x, y);
  }

  lemma ExpPositive(m: ExpLog, x: real)
    requires Lawful(m)
    ensures m.exp(x) > 0.0
  {}

  lemma ExpDiff(m: ExpLog, x: real, y: real)
    requires Lawful(m)
    ensures Times(m.exp(x - y), m.exp(y)) == m.exp(x)
  {
    ExpSum(m, x - y, y);
    assert x - y + y == x;
  }

  /** logsumexp computes log(exp(x) + exp(y)), or just y in init mode. */
  lemma LogSumExpSpec(m: ExpLog, x: real, y: real)
    requires Lawful(m)
    ensures LogSumExp(m, x, y, true) == y
    ensures m.exp(LogSumExp(m, x, y, false)) == m.exp(x) + m.exp(y)
    ensures LogSumExp(m, x, y, false) == m.log(m.exp(x) + m.exp(y))
  {
    var vmin := if x < y then x else y;
    var vmax := if x > y then x else y;
    var e := m.exp(vmin - vmax) + 1.0;
    ExpSum(m, vmax, m.log(e));
    ExpDiff(m, vmin, vmax);
    TimesLaws(m.exp(vmax), m.exp(vmin - vmax), 1.0);
  }

  /** One turn of the loops that add up in log space: s is the sum so far. */
  lemma LogSumExpStep(m: ExpLog, x: real, y: real, first: bool, s: real)
    requires Lawful(m) && (if first then s == 0.0 else m.exp(x) == s)
    ensures m.exp(LogSumExp(m, x, y, first)) == s + m.exp(y)
  {
    hide Lawful, LogSumExp;
    LogSumExpSpec(m, x, y);
  }

  /** Adding a cost in log space multiplies. */
  lemma AddCost(m: ExpLog, x: real, cost: real, s: real)
    requires Lawful(m) && m.exp(x) == s
    ensures m.exp(x + cost) == Times(m.exp(cost), s)
  {
    hide Lawful, Times;
    ExpSum(m, x, cost);
    TimesLaws(m.exp(cost), m.exp(x), 0.0);
  }

  // ---------- the cut-off ----------

  const MINUS_LOG_EPSILON: real := 50.0

  /** node.h logsumexp as it is: the smaller operand is ignored if it is more than 50 below the larger one. */
  ghost function LogSumExpCut(m: ExpLog, x: real, y: real, flg: bool): real {
    if flg then y
    else
      var vmin := if x < y then x else y;
      var vmax := if x > y then x else y;
      if vmax > vmin + MINUS_LOG_EPSILON then vmax else vmax + m.log(m.exp(vmin - vmax) + 1.0)
  }

  /** The cut-off changes the result exactly if the operands are more than 50 apart. */
  lemma CutOffExact(m: ExpLog, x: real, y: real, flg: bool)
    requires Lawful(m)
    ensures LogSumExpCut(m, x, y, flg) == LogSumExp(m, x, y, flg) <==>
      flg || -50.0 <= x - y <= 50.0
  {
    hide Lawful;
    var vmin := if x < y then x else y;
    var vmax := if x > y then x else y;
    var e := m.exp(vmin - vmax) + 1.0;
    ExpPositive(m, vmin - vmax);
    ExpZero(m);
    ExpLogBack(m, e);
  }

  lemma ExpZero(m: ExpLog)
    requires Lawful(m)
    ensures m.exp(0.0) == 1.0
  {
    var one := m.exp(0.0);
    ExpSum(m, 0.0, 0.0);
    assert 0.0 + 0.0 == 0.0;
    TimesLaws(one, 1.0, 0.0);
    TimesCancel(one, one, 1.0);
  }

  lemma ExpLogBack(m: ExpLog, x: real)
    requires Lawful(m) && x > 0.0
    ensures m.exp(m.log(x)) == x
  {}
}
