/** tagger.cpp initNbest and next: best-first enumeration of tag sequences with the viterbi scores as heuristic. */
module NBest {
  import opened Sums
  import opened Lattice
  import opened Viterbi
  import opened Nodes
  import opened Features
  import opened FeatureIndex
  import opened ExpLog
  import opened ForwardBackward
  import opened Search
  import opened Tagger

  /** tagger.h QueueElement: a suffix of a tag sequence, linked from its first token on. Written once, then only
      read. */
  class QueueElement {
    const node: Node
    const next: QueueElement?
    const fx: real
    const gx: real
    ghost const tags: Tags

    constructor (node: Node, next: QueueElement?, fx: real, gx: real, ghost tags: Tags)
      ensures this.node == node && this.next == next && this.fx == fx && this.gx == gx && this.tags == tags
    {
      this.node, this.next, this.fx, this.gx := node, next, fx, gx;
      this.tags := tags;
    }
  }

  /** The element stands for its tags: gx is minus their score, fx adds minus the best score of what may precede. */
  ghost predicate Stands(t: Tagger, e: QueueElement)
    reads t`node, t`lattice, t`nodes, t.nodes`bestCost
  {
    && Partial(t.lattice, e.tags) && t.lattice.n == |t.node|
    && var p, j := t.lattice.n - |e.tags|, e.tags[0];
    && j < |t.node[p]| && e.node == t.node[p][j] && e.node in t.nodes
    && e.gx == -Span(t.lattice, p, e.tags)
    && e.fx == e.gx - e.node.bestCost + t.lattice.node(p, j)
    && (e.next == null <==> |e.tags| == 1)
  }

  ghost predicate Chain(t: Tagger, e: QueueElement)
    reads t`node, t`lattice, t`nodes, t.nodes`bestCost
    decreases |e.tags|
  {
    && Stands(t, e)
    && (e.next != null ==> |e.next.tags| < |e.tags| && e.next.tags == e.tags[1..] && Chain(t, e.next))
  }

  ghost function Frontier(agenda: seq<QueueElement>): (f: seq<Tags>)
    ensures |f| == |agenda| && forall i :: 0 <= i < |f| ==> f[i] == agenda[i].tags
  {
    if agenda == [] then [] else Frontier(agenda[..|agenda| - 1]) + [agenda[|agenda| - 1].tags]
  }

  lemma FrontierWithout(agenda: seq<QueueElement>, k: int)
    requires 0 <= k < |agenda|
    ensures Frontier(agenda[..k] + agenda[k + 1..]) == Without(Frontier(agenda), k)
  {
    hide Frontier, Without;
    var rest := agenda[..k] + agenda[k + 1..];
    var f, g := Frontier(rest), Without(Frontier(agenda), k);
    WithoutAt(Frontier(agenda), k);
    WithoutAt(agenda, k);
    assert rest == Without(agenda, k) by { WithoutIs(agenda, k); }
    assert forall i :: 0 <= i < |f| ==> f[i] == g[i];
  }

  lemma WithoutIs<T>(s: seq<T>, k: int)
    requires 0 <= k < |s|
    ensures Without(s, k) == s[..k] + s[k + 1..]
  {}

  lemma WithoutAt<T>(s: seq<T>, k: int)
    requires 0 <= k < |s|
    ensures |Without(s, k)| == |s| - 1
    ensures forall i :: 0 <= i < |s| - 1 ==> Without(s, k)[i] == s[if i < k then i else i + 1]
  {}

  lemma FrontierAdd(agenda: seq<QueueElement>, e: QueueElement)
    ensures Frontier(agenda + [e]) == Frontier(agenda) + [e.tags]
  {
    assert (agenda + [e])[..|agenda|] == agenda;
  }

  ghost predicate Chains(t: Tagger, agenda: seq<QueueElement>)
    reads t`node, t`lattice, t`nodes, t.nodes`bestCost
  {
    forall i :: 0 <= i < |agenda| ==> Chain(t, agenda[i])
  }

  /** An element for tag j at token p, either at the end of the sentence or in front of next. */
  method NewElement(t: Tagger, p: nat, j: nat, next: QueueElement?, fx: real, gx: real) returns (e: QueueElement)
    requires t.Ready() && p < |t.node| && j < t.ysize
    requires next != null ==> Chain(t, next) && p + 1 + |next.tags| == |t.node|
    requires next != null ==> gx == next.gx - t.lattice.edge(p + 1, j, next.tags[0]) - t.node[p][j].cost
    requires next == null ==> p + 1 == |t.node| && gx == -t.node[p][j].cost
    requires fx == gx - t.node[p][j].bestCost + t.node[p][j].cost
    ensures Chain(t, e) && e.tags == [j] + if next != null then next.tags else []
  {
    hide Tagger.Ready;
    t.Basics();
    t.NodeAt(p, j);
    ghost var tags := [j] + if next != null then next.tags else [];
    SpanOne(t.lattice, p, j);
    if next != null {
      SpanAppend(t.lattice, p, [j], next.tags);
    } else {
      assert tags == [j];
    }
    e := new QueueElement(t.node[p][j], next, fx, gx, tags);
  }

  /** -fx is the best score of any tag sequence that ends in the element's tags. */
  lemma Heuristic(t: Tagger, e: QueueElement, ts: Tags)
    requires t.Ready() && t.AllSettled() && Stands(t, e) && IsTagging(t.lattice, ts) && IsSuffix(e.tags, ts)
    ensures Score(t.lattice, ts) <= -e.fx
  {
    hide IsBest, Span, Tagger.Ready;
    t.Basics();
    var l, p, j := t.lattice, t.lattice.n - |e.tags|, e.tags[0];
    assert t.Settled(p, j);
    var u := ts[..p];
    assert ts == u + [j] + e.tags[1..] && [j] + e.tags[1..] == e.tags;
    SpanOverlap(l, 0, u, j, e.tags[1..]);
    BestBounds(l, p, j, e.node.bestCost, u);
  }

  lemma BestBounds(l: Lattice, i: nat, j: int, c: real, u: Tags)
    requires IsBest(l, i, j, c) && |u| == i && InRange(l.y, u)
    ensures Span(l, 0, u + [j]) <= c
  {
    assert PrefixScore(l, u, j) <= c;
  }

  /** A complete element's gx is exactly minus its score; and if bestCost is exact, so is its fx. */
  lemma CompleteCost(t: Tagger, e: QueueElement)
    requires t.Ready() && Stands(t, e) && |e.tags| == t.lattice.n
    ensures e.gx == -Score(t.lattice, e.tags) && (t.AllSettled() ==> e.fx == e.gx)
  {
    hide IsBest, Span, Tagger.Ready;
    t.Basics();
    if t.AllSettled() {
      assert t.Settled(0, e.tags[0]);
      BestOfFirst(t.lattice, e.tags[0], e.node.bestCost);
    }
  }

  class NBest {
    const t: Tagger
    var agenda: seq<QueueElement>  // the priority queue, in no particular order
    ghost var emitted: seq<Tags>   // what next() has produced so far

    ghost predicate Valid()
      reads this, t`ysize, t`node, t`lattice, t`nodes, t`paths, t`result
      reads t.nodes`x, t.nodes`y, t.nodes`lpath, t.nodes`rpath, t.paths`lnode, t.paths`rnode, t.nodes`cost, t.paths`cost
      reads t.nodes`prev, t.nodes`bestCost
    {
      && t.Ready() && |t.result| == |t.node|
      && Chains(t, agenda)
      && Inv(t.lattice, Frontier(agenda), emitted)
      && (t.AllSettled() ==> Ordered(t.lattice, emitted))
    }

    constructor (t: Tagger)
      ensures this.t == t && agenda == [] && emitted == []
    {
      this.t := t;
      agenda, emitted := [], [];
    }

    /** tagger.cpp initNbest: one element for every tag of the last token. */
    method InitNbest()
      requires t.Ready() && |t.result| == |t.node|
      modifies this
      ensures Valid() && emitted == []
    {
      hide Tagger.Ready, Tagger.AllSettled, Inv, Chain, Frontier;
      t.Basics();
      agenda, emitted := [], [];
      var k := |t.node| - 1;
      var i := 0;
      while i < t.ysize
        invariant i <= t.ysize && emitted == [] && Chains(t, agenda)
        invariant Frontier(agenda) == Children(i, [])
      {
        var eos := NewElement(t, k, i, null, -t.node[k][i].bestCost, -t.node[k][i].cost);
        FrontierAdd(agenda, eos);
        agenda := agenda + [eos];
        i := i + 1;
      }
      InitInv(t.lattice);
    }

    /** priority_queue::top: an element with the smallest fx; any one of them. */
    method Top() returns (k: nat)
      requires agenda != []
      ensures k < |agenda| && forall i :: 0 <= i < |agenda| ==> agenda[k].fx <= agenda[i].fx
    {
      k := 0;
      for i := 1 to |agenda|
        invariant k < |agenda| && forall i' :: 0 <= i' < i ==> agenda[k].fx <= agenda[i'].fx
      {
        if agenda[i].fx < agenda[k].fx { k := i; }
      }
    }

    lemma TopToken(top: QueueElement)
      requires t.Ready() && Chain(t, top)
      ensures 0 < |top.tags| <= t.lattice.n == |t.node| && 0 <= top.tags[0] < t.ysize
      ensures var p := t.lattice.n - |top.tags|;
        top.node.x == p && |t.node[p]| == t.ysize && top.node == t.node[p][top.tags[0]]
      ensures top.node.y == top.tags[0] && (top.next == null <==> |top.tags| == 1)
      ensures top.next != null ==> Chain(t, top.next) && top.next.tags == top.tags[1..]
    {
      hide Tagger.Ready;
      t.Basics();
      t.NodeAt(t.lattice.n - |top.tags|, top.tags[0]);
    }

    /** If bestCost is exact, a complete element on top of the agenda is the best still to come. */
    lemma Emittable(top: QueueElement)
      requires Valid() && t.AllSettled() && top in agenda && |top.tags| == t.lattice.n
      requires forall i :: 0 <= i < |agenda| ==> top.fx <= agenda[i].fx
      ensures forall ts: Tags {:trigger IsTagging(t.lattice, ts)} :: IsTagging(t.lattice, ts) && ts !in emitted ==>
        Score(t.lattice, top.tags) >= Score(t.lattice, ts)
    {
      hide Tagger.Ready, Tagger.AllSettled, Inv, Score;
      assert Chain(t, top);
      CompleteCost(t, top);
      forall ts: Tags | IsTagging(t.lattice, ts) && ts !in emitted
        ensures Score(t.lattice, top.tags) >= Score(t.lattice, ts)
      {
        TopBeatsRest(top, ts);
      }
    }

    lemma TopCost(top: QueueElement)
      requires t.Ready() && Chain(t, top) && |top.tags| == t.lattice.n
      ensures top.gx == -Score(t.lattice, top.tags)
    {
      hide Tagger.Ready, Score;
      CompleteCost(t, top);
    }

    /** Nothing still to come beats the top of the agenda. */
    lemma TopBeatsRest(top: QueueElement, ts: Tags)
      requires Valid() && t.AllSettled() && IsTagging(t.lattice, ts) && ts !in emitted
      requires forall i :: 0 <= i < |agenda| ==> top.fx <= agenda[i].fx
      ensures Score(t.lattice, ts) <= -top.fx
    {
      hide Tagger.Ready, Tagger.AllSettled, Score;
      var f := Frontier(agenda);
      assert Covered(f, ts);
      var a :| 0 <= a < |f| && IsSuffix(f[a], ts);
      assert Chain(t, agenda[a]);
      Heuristic(t, agenda[a], ts);
    }

    /** The loop that copies a complete element into result_. */
    method Copy(top: QueueElement)
      requires t.Ready() && Chain(t, top) && |t.result| == |t.node| == |top.tags|
      modifies t`result
      ensures t.result == top.tags
    {
      hide Tagger.Ready, Chain;
      var n: QueueElement? := top;
      TopToken(top);
      ghost var p := 0;
      while n != null
        invariant 0 <= p <= |t.node| && |t.result| == |t.node| && t.lattice.n == |t.node|
        invariant if n != null then Chain(t, n) && p < |t.node| && n.tags == top.tags[p..] else p == |t.node|
        invariant t.result[..p] == top.tags[..p]
        decreases |t.node| - p
      {
        TopToken(n);
        assert n.node.x == p && n.node.y == top.tags[p];
        t.result := t.result[n.node.x := n.node.y];
        n := n.next;
        p := p + 1;
      }
      assert t.result == t.result[..p] && top.tags == top.tags[..p];
    }

    /** The loop that pushes the elements for all left neighbours of the top. */
    method Push(top: QueueElement)
      requires t.Ready() && Chain(t, top) && |top.tags| < t.lattice.n && Chains(t, agenda)
      modifies `agenda
      ensures Chains(t, agenda)
      ensures Frontier(agenda) == Frontier(old(agenda)) + Children(t.lattice.y, top.tags)
    {
      hide Tagger.Ready, Chain, Frontier;
      var rnode := top.node;
      TopToken(top);
      t.Basics();
      ghost var p := t.lattice.n - |top.tags|;
      t.NodeAt(p, top.tags[0]);
      var it := 0;
      while it < |rnode.lpath|
        invariant it <= |rnode.lpath| && Chains(t, agenda)
        invariant Frontier(agenda) == Frontier(old(agenda)) + Children(it, top.tags)
      {
        t.NodeAt(p - 1, it);
        var e := rnode.lpath[it];
        var left := e.lnode;
        var n := NewElement(t, rnode.x - 1, it, top,
                            -left.bestCost - e.cost + top.gx, -left.cost - e.cost + top.gx);
        FrontierAdd(agenda, n);
        agenda := agenda + [n];
        it := it + 1;
      }
    }

    /** tagger.cpp next: one more tag sequence, none of those still to come being better if bestCost is exact; or false,
        exactly when all y^n have been produced. */
    method Next() returns (more: bool)
      requires Valid()
      modifies this, t`result, t`cost
      ensures Valid()
      ensures more <==> |old(emitted)| < Pow(t.ysize, |t.node|)
      ensures more ==> emitted == old(emitted) + [t.result] && t.cost == -Score(t.lattice, t.result)
      ensures !more ==> emitted == old(emitted) && forall ts :: IsTagging(t.lattice, ts) <==> ts in emitted
    {
      hide Tagger.Ready, Tagger.AllSettled, Inv, Score, Chain, Frontier, Work;
      t.Basics();
      while agenda != []
        invariant Valid() && emitted == old(emitted)
        decreases Work(t.lattice, Frontier(agenda))
      {
        var k := Top();
        TopToken(agenda[k]);
        if agenda[k].node.x == 0 {
          Emit(k);
          return true;
        }
        Expand(k);
      }
      DoneInv(t.lattice, emitted);
      return false;
    }

    /** The top is complete: it is the next result. */
    method Emit(k: nat)
      requires Valid() && k < |agenda| && |agenda[k].tags| == |t.node| == t.lattice.n
      requires forall i :: 0 <= i < |agenda| ==> agenda[k].fx <= agenda[i].fx
      modifies this, t`result, t`cost
      ensures Valid() && |old(emitted)| < Pow(t.lattice.y, t.lattice.n)
      ensures emitted == old(emitted) + [t.result] && t.cost == -Score(t.lattice, t.result)
    {
      hide Tagger.Ready, Tagger.AllSettled, Inv, Ordered, Score, Frontier, Chain;
      var top := agenda[k];
      TopCost(top);
      if t.AllSettled() { Emittable(top); }
      EmitInv(t.lattice, Frontier(agenda), emitted, k);
      FrontierWithout(agenda, k);
      if t.AllSettled() { EmitOrdered(t.lattice, emitted, top.tags); }
      agenda := agenda[..k] + agenda[k + 1..];
      emitted := emitted + [top.tags];
      CountBound(t.lattice, Frontier(agenda), emitted);
      Copy(top);
      t.cost := top.gx;
    }

    /** The top is incomplete: replace it by what may precede it. */
    method Expand(k: nat)
      requires Valid() && k < |agenda| && |agenda[k].tags| < t.lattice.n
      modifies `agenda
      ensures Valid() && Work(t.lattice, Frontier(agenda)) < Work(t.lattice, Frontier(old(agenda)))
    {
      hide Tagger.Ready, Tagger.AllSettled, Inv, Chain, Frontier, Work;
      var top := agenda[k];
      ghost var f := Frontier(agenda);
      WorkShrinks(t.lattice, f, k);
      ExpandInv(t.lattice, f, emitted, k);
      FrontierWithout(agenda, k);
      agenda := agenda[..k] + agenda[k + 1..];
      Push(top);
    }

    /** The n-best loop of toString: n different tag sequences, or all y^n of them if there are fewer, each with its
        probability; they are the n best ones, best first, if bestCost is exact. */
    method Best(nbest: nat, m: ExpLog) returns (out: seq<Tags>, probs: seq<real>)
      requires Valid() && emitted == [] && Lawful(m) && m.exp(t.z) == Partition(m, t.lattice)
      modifies this, t`result, t`cost
      ensures Listed(t.lattice, out) && Partition(m, t.lattice) > 0.0
      ensures |out| == if nbest < Pow(t.ysize, |t.node|) then nbest else Pow(t.ysize, |t.node|)
      ensures t.AllSettled() ==> Ranked(t.lattice, out)
      ensures HasProbs(m, t.lattice, out, probs)
    {
      hide Tagger.Ready, Tagger.AllSettled, Inv, Chains, Lawful, Partition, SequenceProb;
      out, probs := [], [];
      var n := 0;
      CountBound(t.lattice, Frontier(agenda), emitted);
      t.Basics();
      ExpPositive(m, t.z);
      while n < nbest
        invariant Valid() && out == emitted && |out| == n <= nbest && n <= Pow(t.ysize, |t.node|)
        invariant HasProbs(m, t.lattice, out, probs)
      {
        var more := Next();
        if !more { break; }
        var p := t.ResultProb(m);
        out := out + [t.result];
        probs := probs + [p];
        n := n + 1;
      }
      InvIsListed(t.lattice, Frontier(agenda), out);
    }
  }

  /** The probabilities are the shares of the tag sequences. */
  ghost predicate HasProbs(m: ExpLog, l: Lattice, out: seq<Tags>, probs: seq<real>)
    requires Partition(m, l) != 0.0
  {
    |probs| == |out| && forall i :: 0 <= i < |out| ==> probs[i] == SequenceProb(m, l)(out[i])
  }

  /** parse and toString with the n-best option, on a sentence whose features are cached: lattice, forward-backward,
      viterbi, and then different tag sequences with their probabilities: the best ones, best first, if nothing scores
      below the sentinel. */
  method Parse(t: Tagger, index: FeatureIndex, m: ExpLog, fid: nat, size: nat, nbest: nat, ghost ft: Features)
    returns (out: seq<Tags>, probs: seq<real>)
    requires Lawful(m) && index.Valid() && t.ysize == index.y && t.ysize > 0 && index.Cached(fid, size, ft)
    requires |t.result| == size && InRange(t.ysize, t.result)
    modifies t`node, t`lattice, t`features, t`nodes, t`paths, t`z, t`result, t`cost
    modifies index.nodeArena, index.nodeArena.list, index.nodeArena.owned
    modifies index.pathArena, index.pathArena.list, index.pathArena.owned
    ensures index.Valid()
    ensures fresh(index.nodeArena.owned - old(index.nodeArena.owned))
    ensures fresh(index.pathArena.owned - old(index.pathArena.owned))
    ensures t.lattice == CostLattice(index.costFactor, index.alpha, ft, index.y) && Partition(m, t.lattice) > 0.0
    ensures Listed(t.lattice, out) && HasProbs(m, t.lattice, out, probs)
    ensures |out| == if nbest < Pow(t.ysize, size) then nbest else Pow(t.ysize, size)
    ensures AboveSentinel(t.lattice) || Ordinary(t.lattice) ==> Ranked(t.lattice, out)
    ensures nbest >= Pow(t.ysize, size) ==> SumList(out, SequenceProb(m, t.lattice)) == 1.0
  {
    hide Lawful, FeatureIndex.Valid, FeatureIndex.Cached, CostLattice, Partition, AboveSentinel, IsOptimal, InRange;
    hide Tagger.Ready, Tagger.AllSettled, Ranked, Listed, HasProbs, SequenceProb, Ordinary;
    ParseLattice(t, index, m, fid, size, ft);
    if Ordinary(t.lattice) { OrdinaryIsAbove(t.lattice); }
    t.Basics();
    out, probs := Enumerate(t, m, nbest);
    if |out| == Pow(t.ysize, size) {
      AllListed(t.lattice, out);
      SequenceProbsSumToOne(m, t.lattice, out);
    }
  }

  /** parse: the lattice, its sums, and its best scores. */
  method ParseLattice(t: Tagger, index: FeatureIndex, m: ExpLog, fid: nat, size: nat, ghost ft: Features)
    requires Lawful(m) && index.Valid() && t.ysize == index.y && t.ysize > 0 && index.Cached(fid, size, ft)
    requires |t.result| == size && InRange(t.ysize, t.result)
    modifies t`node, t`lattice, t`features, t`nodes, t`paths, t`z, t`result, t`cost
    modifies index.nodeArena, index.nodeArena.list, index.nodeArena.owned
    modifies index.pathArena, index.pathArena.list, index.pathArena.owned
    ensures index.Valid()
    ensures fresh(index.nodeArena.owned - old(index.nodeArena.owned))
    ensures fresh(index.pathArena.owned - old(index.pathArena.owned))
    ensures t.lattice == CostLattice(index.costFactor, index.alpha, ft, index.y)
    ensures m.exp(t.z) == Partition(m, t.lattice)
    ensures t.Ready() && |t.result| == |t.node| == size && (AboveSentinel(t.lattice) ==> t.AllSettled())
  {
    hide Lawful, FeatureIndex.Valid, FeatureIndex.Cached, CostLattice, Partition, AboveSentinel, SomeAbove, IsOptimal;
    hide InRange;
    hide Tagger.Ready, Tagger.AllSettled, Tagger.ChainComplete, Tagger.Forwarded, Tagger.Backwarded;
    t.BuildLattice(index, fid, size, ft);
    t.ForwardBackward(m);
    t.Basics();
    t.Viterbi();
  }

  /** initNbest, and the n-best loop. */
  method Enumerate(t: Tagger, m: ExpLog, nbest: nat) returns (out: seq<Tags>, probs: seq<real>)
    requires t.Ready() && |t.result| == |t.node|
    requires Lawful(m) && m.exp(t.z) == Partition(m, t.lattice)
    modifies t`result, t`cost
    ensures Listed(t.lattice, out) && Partition(m, t.lattice) > 0.0 && HasProbs(m, t.lattice, out, probs)
    ensures |out| == if nbest < Pow(t.ysize, |t.node|) then nbest else Pow(t.ysize, |t.node|)
    ensures old(t.AllSettled()) ==> Ranked(t.lattice, out)
  {
    hide Lawful, Partition, Tagger.Ready, Tagger.AllSettled, Ranked, Listed, HasProbs, SequenceProb, Inv, Chains;
    hide Ordered;
    var search := new NBest(t);
    search.InitNbest();
    out, probs := search.Best(nbest, m);
  }

  /** A list of y^n different tag sequences has all of them. */
  lemma AllListed(l: Lattice, out: seq<Tags>)
    requires Listed(l, out) && |out| == Pow(l.y, l.n)
    ensures Distinct(out) && forall ts :: IsTagging(l, ts) <==> ts in out
  {
    hide Score, AllTags, Pow;
    AllTagsSpec(l.y, l.n);
    var all := AllTags(l.y, l.n);
    SetSize(all);
    SetSize(out);
    var a, b := set x | x in out, set x | x in all;
    assert a <= b;
    SameSet(a, b);
    forall ts ensures IsTagging(l, ts) <==> ts in out { assert ts in b <==> IsTagging(l, ts); }
  }

  lemma SameSet<T>(a: set<T>, b: set<T>)
    requires a <= b && |a| == |b|
    ensures a == b
  {
    SubsetSize(a, b);
    if x :| x in b && x !in a {
      SubsetSize(a, b - {x});
    }
  }

  /** A list of different tag sequences. */
  ghost predicate Listed(l: Lattice, out: seq<Tags>) {
    (forall i :: 0 <= i < |out| ==> IsTagging(l, out[i])) && Distinct(out)
  }

  /** It has the best ones, best first: no better one is missing, and the first is optimal. */
  ghost predicate Ranked(l: Lattice, out: seq<Tags>) {
    && Listed(l, out)
    && (forall i, j :: 0 <= i < j < |out| ==> Score(l, out[i]) >= Score(l, out[j]))
    && (forall i, ts: Tags {:trigger IsTagging(l, ts), out[i]} :: 0 <= i < |out| && IsTagging(l, ts) && ts !in out ==>
          Score(l, out[i]) >= Score(l, ts))
    && (|out| > 0 ==> IsOptimal(l, out[0]))
  }

  lemma InvIsListed(l: Lattice, f: seq<Tags>, out: seq<Tags>)
    requires Inv(l, f, out)
    ensures Listed(l, out) && (Ordered(l, out) ==> Ranked(l, out))
  {
    hide Score, Apart, Covered, IsSuffix;
    if |out| > 0 && Ordered(l, out) {
      forall u | IsTagging(l, u) ensures Score(l, u) <= Score(l, out[0]) {
        if u in out {
          var i :| 0 <= i < |out| && out[i] == u;
        }
      }
    }
  }
}
