/** Training on the dictionary: gradient and collins for cached sentences, and a pass over all of them. */
module TrainingPass {
  import opened Bytes
  import opened Lattice
  import opened Features
  import opened Dictionary
  import opened ModelFile
  import opened Encoder
  import opened Nodes
  import opened Training
  import opened Pipeline
  import EL = ExpLog
  import opened ForwardBackward
  import opened Sums
  import Tagger
  import FI = FeatureIndex

  /** All features of a sentence lie within a vector with one entry per id. */
  lemma SentenceInBounds(dic: Dic, y: nat, maxid: nat, ns: Names)
    requires Tiled(dic, y, maxid) && NamesIn(dic, ns) && WellNamed(ns)
    ensures InBounds(SentenceIds(dic, ns), y, maxid)
  {
    var ft := SentenceIds(dic, ns);
    forall i, j | 0 <= i < |ft.uni| && 0 <= j < y ensures Indexes(ft.uni[i], j, maxid) {
      RowInBounds(dic, y, maxid, ns.uni[i], j);
    }
    forall i, k, j | 0 <= i < |ft.bi| && 0 <= k < y && 0 <= j < y ensures Indexes(ft.bi[i], EdgeOff(k, y, j), maxid) {
      EdgeOffRange(k, y, j);
      RowInBounds(dic, y, maxid, ns.bi[i], EdgeOff(k, y, j));
    }
  }

  lemma RowInBounds(dic: Dic, y: nat, maxid: nat, names: seq<Str>, off: nat)
    requires Tiled(dic, y, maxid) && AllIn(dic, names) && AllWide(names, y, off)
    ensures Indexes(Ids(dic, names), off, maxid)
  {
    hide Width;
  }

  ghost predicate HasTags(t: Tagger.Tagger, y: nat, ns: Names)
    reads t`ysize, t`answer, t`result
  {
    && t.ysize == y && |t.answer| == |t.result| == |ns.uni|
    && InRange(t.ysize, t.answer) && InRange(t.ysize, t.result)
  }

  /** The tagger has the tags of a sentence that the encoder has cached, and the vector one entry per id. */
  ghost predicate Trainable(e: EncoderIndex, t: Tagger.Tagger, fid: nat, ns: Names, length: nat)
    reads e, e.base, e.base.cache, e.base.cache.list, e.base.cache.mem
    reads e.base.nodeArena, e.base.nodeArena.list, e.base.pathArena, e.base.pathArena.list, t
  {
    Caches(e, fid, ns) && length == e.maxid && HasTags(t, |e.y|, ns)
  }

  lemma TrainableFeatures(e: EncoderIndex, t: Tagger.Tagger, fid: nat, ns: Names, length: nat)
    requires Trainable(e, t, fid, ns, length)
    ensures e.base.Valid() && e.base.y == t.ysize > 0 && |t.answer| > 0 && NamesIn(e.dic, ns)
    ensures e.base.Cached(fid, |t.answer|, SentenceIds(e.dic, ns)) && InBounds(SentenceIds(e.dic, ns), t.ysize, length)
  {
    CachedFeaturesAre(e, fid, ns);
    SentenceInBounds(e.dic, |e.y|, e.maxid, ns);
  }

  /** gradient for a cached sentence: no index leaves the vector, and the lattice is that of the dictionary. */
  method SentenceGradient(e: EncoderIndex, t: Tagger.Tagger, m: EL.ExpLog, fid: nat, expected: array<real>,
                          ghost ns: Names)
    returns (r: real)
    requires EL.Lawful(m) && Trainable(e, t, fid, ns, expected.Length)
    modifies t`node, t`lattice, t`features, t`nodes, t`paths, t`z, t`result, t`cost, expected
    modifies e.base.nodeArena, e.base.nodeArena.list, e.base.nodeArena.owned
    modifies e.base.pathArena, e.base.pathArena.list, e.base.pathArena.owned
    ensures Trainable(e, t, fid, ns, expected.Length)
    ensures fresh(e.base.nodeArena.owned - old(e.base.nodeArena.owned))
    ensures fresh(e.base.pathArena.owned - old(e.base.pathArena.owned))
    ensures NamesIn(e.dic, ns) && |t.answer| > 0
    ensures t.lattice == CostLattice(e.base.costFactor, e.base.alpha, SentenceIds(e.dic, ns), e.base.y)
    ensures Partition(m, t.lattice) > 0.0 && NegLogProb(m, t.lattice, t.answer, r)
    ensures Gained(m, t.lattice, SentenceIds(e.dic, ns), t.answer, old(expected[..]), expected[..])
  {
    hide EL.Lawful, FI.FeatureIndex.Valid, FI.FeatureIndex.Cached, CostLattice, Partition, NegLogProb, Gained;
    hide InBounds, NamesIn, SentenceIds, Tiled, Named, Templates, NoNul, SentenceAt, InRange;
    TrainableFeatures(e, t, fid, ns, expected.Length);
    TrainableTags(e, t, fid, ns, expected.Length);
    r := Gradient(t, e.base, m, fid, expected, SentenceIds(e.dic, ns));
  }

  lemma TrainableTags(e: EncoderIndex, t: Tagger.Tagger, fid: nat, ns: Names, length: nat)
    requires Trainable(e, t, fid, ns, length)
    ensures |t.answer| == |t.result| && InRange(t.ysize, t.answer) && InRange(t.ysize, t.result)
  {}

  /** collins for a cached sentence. */
  method SentenceCollins(e: EncoderIndex, t: Tagger.Tagger, fid: nat, a: array<real>, ghost ns: Names) returns (r: real)
    requires Trainable(e, t, fid, ns, a.Length)
    modifies t`node, t`lattice, t`features, t`nodes, t`paths, t`result, t`cost, a
    modifies e.base.nodeArena, e.base.nodeArena.list, e.base.nodeArena.owned
    modifies e.base.pathArena, e.base.pathArena.list, e.base.pathArena.owned
    ensures Trainable(e, t, fid, ns, a.Length)
    ensures fresh(e.base.nodeArena.owned - old(e.base.nodeArena.owned))
    ensures fresh(e.base.pathArena.owned - old(e.base.pathArena.owned))
    ensures NamesIn(e.dic, ns)
    ensures t.lattice == CostLattice(e.base.costFactor, e.base.alpha, SentenceIds(e.dic, ns), e.base.y)
    ensures Moved(SentenceIds(e.dic, ns), t.ysize, t.answer, t.result, |t.answer|, old(a[..]), a[..])
    ensures LossOf(t.lattice, SentenceIds(e.dic, ns), e.base.costFactor, e.base.alpha, t.answer, t.result, r)
  {
    hide FI.FeatureIndex.Valid, FI.FeatureIndex.Cached, CostLattice, Moved, LossOf, InBounds, NamesIn;
    hide SentenceIds, Tiled, Named, Templates, NoNul, SentenceAt, InRange;
    TrainableFeatures(e, t, fid, ns, a.Length);
    TrainableTags(e, t, fid, ns, a.Length);
    r := Collins(t, e.base, fid, a, SentenceIds(e.dic, ns));
  }

  // ---------- a pass over the training data ----------

  /** A training sentence: its lattice, its features and its answer. */
  datatype Example = Example(lattice: Lattice, features: Features, answer: Tags)

  ghost predicate Possible(m: EL.ExpLog, x: Example) {
    Partition(m, x.lattice) > 0.0
  }

  ghost predicate AllPossible(m: EL.ExpLog, data: seq<Example>) {
    forall s :: 0 <= s < |data| ==> Possible(m, data[s])
  }

  /** Entry q of the gradient: the expected minus the observed counts, over all sentences. */
  ghost function GradientAt(m: EL.ExpLog, data: seq<Example>, q: int): real
    requires AllPossible(m, data)
  {
    if data == [] then 0.0
    else
      var n := |data| - 1;
      GradientAt(m, data[..n], q) + ExpectedCount(m, data[n].lattice, data[n].features, q)
        - Count(data[n].features, data[n].lattice.y, data[n].answer, q)
  }

  /** The probability of all the answers. */
  ghost function Likelihood(m: EL.ExpLog, data: seq<Example>): real
    requires AllPossible(m, data)
  {
    if data == [] then 1.0
    else
      var n := |data| - 1;
      Times(Likelihood(m, data[..n]), SequenceProb(m, data[n].lattice)(data[n].answer))
  }

  /** The vector and the value after these sentences. */
  ghost predicate PassedOver(m: EL.ExpLog, data: seq<Example>, expected: seq<real>, obj: real) {
    && AllPossible(m, data) && m.exp(-obj) == Likelihood(m, data)
    && forall q :: 0 <= q < |expected| ==> expected[q] == GradientAt(m, data, q)
  }

  lemma PassStart(m: EL.ExpLog, expected: seq<real>)
    requires EL.Lawful(m) && forall q :: 0 <= q < |expected| ==> expected[q] == 0.0
    ensures PassedOver(m, [], expected, 0.0)
  {
    hide EL.Lawful;
    EL.ExpZero(m);
  }

  lemma OneMoreExample(m: EL.ExpLog, data: seq<Example>, before: seq<real>, obj: real, x: Example, after: seq<real>,
                       r: real)
    requires EL.Lawful(m) && PassedOver(m, data, before, obj) && Possible(m, x)
    requires Gained(m, x.lattice, x.features, x.answer, before, after) && NegLogProb(m, x.lattice, x.answer, r)
    ensures PassedOver(m, data + [x], after, obj + r)
  {
    hide EL.Lawful, Partition, ExpectedCount, Count, Times, Score;
    var data' := data + [x];
    assert data'[..|data|] == data;
    InverseLaw(Partition(m, x.lattice), m.exp(-r), m.exp(Score(x.lattice, x.answer)));
    ExpOfSum(m, obj, r);
  }

  /** The same for the next sentence of the training data. */
  lemma NextExample(m: EL.ExpLog, data: seq<Example>, s: nat, before: seq<real>, obj: real, x: Example,
                    after: seq<real>, r: real)
    requires EL.Lawful(m) && s < |data| && data[s] == x && PassedOver(m, data[..s], before, obj) && Possible(m, x)
    requires Gained(m, x.lattice, x.features, x.answer, before, after) && NegLogProb(m, x.lattice, x.answer, r)
    ensures PassedOver(m, data[..s + 1], after, obj + r)
  {
    hide EL.Lawful, PassedOver, Possible, Gained, NegLogProb;
    OneMoreExample(m, data[..s], before, obj, x, after, r);
    assert data[..s + 1] == data[..s] + [x];
  }

  lemma ExpOfSum(m: EL.ExpLog, a: real, b: real)
    requires EL.Lawful(m)
    ensures m.exp(-(a + b)) == Times(m.exp(-a), m.exp(-b))
  {
    hide EL.Lawful;
    EL.ExpSum(m, -a, -b);
    assert -(a + b) == -a + -b;
  }

  /** All taggers have a cached sentence to work on, and are different. */
  ghost predicate AllTrainable(e: EncoderIndex, ts: seq<Tagger.Tagger>, fids: seq<nat>, nss: seq<Names>, length: nat)
    reads e, e.base, e.base.cache, e.base.cache.list, e.base.cache.mem
    reads e.base.nodeArena, e.base.nodeArena.list, e.base.pathArena, e.base.pathArena.list, ts
  {
    && |ts| == |fids| == |nss|
    && (forall i, j :: 0 <= i < j < |ts| ==> ts[i] != ts[j])
    && (forall s :: 0 <= s < |ts| ==> Trainable(e, ts[s], fids[s], nss[s], length))
  }

  lemma TrainableNames(e: EncoderIndex, ts: seq<Tagger.Tagger>, fids: seq<nat>, nss: seq<Names>, length: nat)
    requires AllTrainable(e, ts, fids, nss, length)
    ensures |ts| == |fids| == |nss| && forall s :: 0 <= s < |ts| ==> NamesIn(e.dic, nss[s])
  {
    hide Trainable, NamesIn;
    forall s | 0 <= s < |ts| ensures NamesIn(e.dic, nss[s]) {
      TrainableFeatures(e, ts[s], fids[s], nss[s], length);
    }
  }

  ghost function ExampleOf(cf: real, w: seq<real>, dic: Dic, y: nat, ns: Names, answer: Tags): Example
    requires NamesIn(dic, ns)
  {
    Example(CostLattice(cf, w, SentenceIds(dic, ns), y), SentenceIds(dic, ns), answer)
  }

  /** The training data as the encoder's dictionary and weights make it. */
  ghost predicate IsData(e: EncoderIndex, ts: seq<Tagger.Tagger>, nss: seq<Names>, data: seq<Example>)
    reads e, e.base, ts`answer
  {
    && |data| == |ts| == |nss|
    && forall s :: 0 <= s < |ts| ==>
      && NamesIn(e.dic, nss[s])
      && data[s] == ExampleOf(e.base.costFactor, e.base.alpha, e.dic, e.base.y, nss[s], ts[s].answer)
  }

  lemma {:induction false} DataUpTo(e: EncoderIndex, ts: seq<Tagger.Tagger>, nss: seq<Names>, n: nat)
    returns (data: seq<Example>)
    requires n <= |ts| == |nss| && forall s :: 0 <= s < |ts| ==> NamesIn(e.dic, nss[s])
    ensures |data| == n && forall s :: 0 <= s < n ==>
      data[s] == ExampleOf(e.base.costFactor, e.base.alpha, e.dic, e.base.y, nss[s], ts[s].answer)
  {
    hide NamesIn, ExampleOf;
    if n == 0 { return []; }
    data := DataUpTo(e, ts, nss, n - 1);
    data := data + [ExampleOf(e.base.costFactor, e.base.alpha, e.dic, e.base.y, nss[n - 1], ts[n - 1].answer)];
  }

  /** There are such data. */
  lemma DataOf(e: EncoderIndex, ts: seq<Tagger.Tagger>, fids: seq<nat>, nss: seq<Names>, length: nat)
    returns (data: seq<Example>)
    requires AllTrainable(e, ts, fids, nss, length)
    ensures IsData(e, ts, nss, data) && |data| == |ts|
  {
    hide Trainable, NamesIn, ExampleOf;
    TrainableNames(e, ts, fids, nss, length);
    data := DataUpTo(e, ts, nss, |ts|);
  }

  /** gradient for sentence s; all sentences can be worked on afterwards. */
  method OneGradient(e: EncoderIndex, ts: seq<Tagger.Tagger>, m: EL.ExpLog, fids: seq<nat>, expected: array<real>,
                     ghost nss: seq<Names>, s: nat)
    returns (r: real)
    requires EL.Lawful(m) && AllTrainable(e, ts, fids, nss, expected.Length) && s < |ts|
    modifies ts`node, ts`lattice, ts`features, ts`nodes, ts`paths, ts`z, ts`result, ts`cost, expected
    modifies e.base.nodeArena, e.base.nodeArena.list, e.base.nodeArena.owned
    modifies e.base.pathArena, e.base.pathArena.list, e.base.pathArena.owned
    ensures AllTrainable(e, ts, fids, nss, expected.Length)
    ensures fresh(e.base.nodeArena.owned - old(e.base.nodeArena.owned))
    ensures fresh(e.base.pathArena.owned - old(e.base.pathArena.owned))
    ensures NamesIn(e.dic, nss[s])
    ensures var x := ExampleOf(e.base.costFactor, e.base.alpha, e.dic, e.base.y, nss[s], ts[s].answer);
      && Possible(m, x) && NegLogProb(m, x.lattice, x.answer, r)
      && Gained(m, x.lattice, x.features, x.answer, old(expected[..]), expected[..])
  {
    hide EL.Lawful, EncoderIndex.Valid, SentenceAt, HasTags, NamesIn, Partition, NegLogProb, Gained, SentenceIds;
    hide CostLattice;
    r := SentenceGradient(e, ts[s], m, fids[s], expected, nss[s]);
  }

  /** One turn of the pass. */
  method PassStep(e: EncoderIndex, ts: seq<Tagger.Tagger>, m: EL.ExpLog, fids: seq<nat>, expected: array<real>,
                  obj: real, ghost nss: seq<Names>, s: nat, ghost data: seq<Example>)
    returns (obj': real)
    requires EL.Lawful(m) && AllTrainable(e, ts, fids, nss, expected.Length) && s < |ts| && IsData(e, ts, nss, data)
    requires PassedOver(m, data[..s], expected[..], obj)
    modifies ts`node, ts`lattice, ts`features, ts`nodes, ts`paths, ts`z, ts`result, ts`cost, expected
    modifies e.base.nodeArena, e.base.nodeArena.list, e.base.nodeArena.owned
    modifies e.base.pathArena, e.base.pathArena.list, e.base.pathArena.owned
    ensures AllTrainable(e, ts, fids, nss, expected.Length) && PassedOver(m, data[..s + 1], expected[..], obj')
    ensures fresh(e.base.nodeArena.owned - old(e.base.nodeArena.owned))
    ensures fresh(e.base.pathArena.owned - old(e.base.pathArena.owned))
  {
    hide EL.Lawful, AllTrainable, NamesIn, PassedOver, Possible, NegLogProb, Gained, ExampleOf;
    ghost var before, x := expected[..], data[s];
    var r := OneGradient(e, ts, m, fids, expected, nss, s);
    NextExample(m, data, s, before, obj, x, expected[..], r);
    obj' := obj + r;
  }

  /** One pass of CRF training in a single thread: the vector becomes the gradient of minus the log-probability of all
      the answers, and that is the value. Afterwards the next pass can begin. */
  method GradientPass(e: EncoderIndex, ts: seq<Tagger.Tagger>, m: EL.ExpLog, fids: seq<nat>, expected: array<real>,
                      ghost nss: seq<Names>)
    returns (obj: real, ghost data: seq<Example>)
    requires EL.Lawful(m) && AllTrainable(e, ts, fids, nss, expected.Length)
    modifies ts`node, ts`lattice, ts`features, ts`nodes, ts`paths, ts`z, ts`result, ts`cost, expected
    modifies e.base.nodeArena, e.base.nodeArena.list, e.base.nodeArena.owned
    modifies e.base.pathArena, e.base.pathArena.list, e.base.pathArena.owned
    ensures AllTrainable(e, ts, fids, nss, expected.Length) && IsData(e, ts, nss, data)
    ensures fresh(e.base.nodeArena.owned - old(e.base.nodeArena.owned))
    ensures fresh(e.base.pathArena.owned - old(e.base.pathArena.owned))
    ensures PassedOver(m, data, expected[..], obj)
  {
    hide EL.Lawful, AllTrainable, PassedOver, IsData;
    obj := 0.0;
    Clear(expected);
    PassStart(m, expected[..]);
    data := DataOf(e, ts, fids, nss, expected.Length);
    for s := 0 to |ts|
      invariant AllTrainable(e, ts, fids, nss, expected.Length) && IsData(e, ts, nss, data)
      invariant PassedOver(m, data[..s], expected[..], obj)
      invariant fresh(e.base.nodeArena.owned - old(e.base.nodeArena.owned))
      invariant fresh(e.base.pathArena.owned - old(e.base.pathArena.owned))
    {
      obj := PassStep(e, ts, m, fids, expected, obj, nss, s, data);
    }
    assert data[..|ts|] == data;
  }

  /** std::fill. */
  method Clear(a: array<real>)
    modifies a
    ensures forall q :: 0 <= q < a.Length ==> a[q] == 0.0
  {
    for q := 0 to a.Length
      invariant forall k :: 0 <= k < q ==> a[k] == 0.0
    {
      a[q] := 0.0;
    }
  }
}
