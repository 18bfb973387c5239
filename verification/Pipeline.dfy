/** From training to decoding: shrink, save, open and buildFeatures in sequence. */
module Pipeline {
  import opened Bytes
  import opened Lattice
  import opened Features
  import opened Dictionary
  import opened ModelFile
  import opened Template
  import opened Sentences
  import opened DicArray
  import opened Encoder
  import opened Decoder
  import FI = FeatureIndex

  /** The rows of a sentence in the order in which buildFeatures caches them. */
  ghost predicate IsSentence(ns: Names) {
    |ns.uni| > 0 && |ns.bi| + 1 == |ns.uni| && WellNamed(ns)
  }

  /** Cached vectors of the rows of a sentence are the features of the sentence. */
  lemma CachedSentence(dic: Dic, names: seq<seq<Str>>, contents: seq<seq<nat>>, fid: nat, ns: Names)
    requires Named(dic, names, contents) && IsSentence(ns)
    requires fid + |ns.uni| + |ns.bi| <= |names| && names[fid..fid + |ns.uni| + |ns.bi|] == ns.uni + ns.bi
    ensures NamesIn(dic, ns)
    ensures var n := |ns.uni|;
      Features(contents[fid..fid + n], contents[fid + n..fid + 2 * n - 1]) == SentenceIds(dic, ns)
  {
    hide AllIn, Ids, WellNamed;
    var n := |ns.uni|;
    forall i | 0 <= i < n ensures AllIn(dic, ns.uni[i]) && contents[fid + i] == Ids(dic, ns.uni[i]) {
      assert names[fid..fid + |ns.uni| + |ns.bi|][i] == names[fid + i];
      assert AllIn(dic, names[fid + i]);
    }
    forall i | 0 <= i < |ns.bi| ensures AllIn(dic, ns.bi[i]) && contents[fid + n + i] == Ids(dic, ns.bi[i]) {
      assert names[fid..fid + |ns.uni| + |ns.bi|][n + i] == names[fid + n + i];
      assert AllIn(dic, names[fid + n + i]);
    }
  }

  /** The rows of a sentence stand in the list of all rows from entry fid on. */
  ghost predicate SentenceAt(names: seq<seq<Str>>, fid: nat, ns: Names) {
    && IsSentence(ns) && fid + |ns.uni| + |ns.bi| <= |names|
    && names[fid..fid + |ns.uni| + |ns.bi|] == ns.uni + ns.bi
  }

  /** The features cached for a sentence: those of the dictionary, before and after shrink. */
  ghost predicate Caches(e: EncoderIndex, fid: nat, ns: Names)
    reads e, e.base, e.base.cache, e.base.cache.list, e.base.cache.mem
    reads e.base.nodeArena, e.base.nodeArena.list, e.base.pathArena, e.base.pathArena.list
  {
    e.Valid() && SentenceAt(e.names, fid, ns)
  }

  lemma CachedFeaturesAre(e: EncoderIndex, fid: nat, ns: Names)
    requires Caches(e, fid, ns)
    ensures fid + 2 * |ns.uni| - 1 <= |e.base.cache.contents| == |e.base.cache.vectors| && e.base.y == |e.y|
    ensures NamesIn(e.dic, ns) && e.base.CachedFeatures(fid, |ns.uni|) == SentenceIds(e.dic, ns)
  {
    e.base.cache.SameSize();
    CachedSentence(e.dic, e.names, e.base.cache.contents, fid, ns);
  }

  /** After shrink the cache holds what is left of the sentence. */
  lemma KeptSentence(dic: Dic, names: seq<seq<Str>>, newNames: seq<seq<Str>>, fid: nat, ns: Names)
    requires AllKept(dic, names, newNames) && SentenceAt(names, fid, ns)
    ensures SentenceAt(newNames, fid, KeptIn(dic, ns)) && |KeptIn(dic, ns).uni| == |ns.uni|
  {
    var ks, n := KeptIn(dic, ns), |ns.uni|;
    KeptWellNamed(dic, ns);
    var x, z := newNames[fid..fid + n + |ns.bi|], ks.uni + ks.bi;
    forall i | 0 <= i < |x| ensures x[i] == z[i] {
      assert names[fid..fid + n + |ns.bi|][i] == names[fid + i];
      assert newNames[fid + i] == Kept(dic, names[fid + i]);
    }
  }

  lemma KeptWellNamed(dic: Dic, ns: Names)
    requires WellNamed(ns)
    ensures WellNamed(KeptIn(dic, ns))
  {
    var ks := KeptIn(dic, ns);
    forall i, k | 0 <= i < |ks.uni| && 0 <= k < |ks.uni[i]| ensures ks.uni[i][k] in ns.uni[i] {
      KeptSome(dic, ns.uni[i], k);
    }
    forall i, k | 0 <= i < |ks.bi| && 0 <= k < |ks.bi[i]|
      ensures ks.bi[i][k] in ns.bi[i] { KeptSome(dic, ns.bi[i], k); }
  }

  lemma {:induction false} KeptSome(dic: Dic, names: seq<Str>, k: nat)
    requires k < |Kept(dic, names)|
    ensures Kept(dic, names)[k] in names
  {
    var most := names[..|names| - 1];
    if k < |Kept(dic, most)| {
      KeptSome(dic, most, k);
      assert forall x :: x in most ==> x in names;
    }
  }

  /** What decoding caches for the rows of a sentence is what is left of the sentence. */
  lemma DecodedSentence(dic: Dic, before: seq<seq<nat>>, contents: seq<seq<nat>>, ns: Names)
    requires |ns.uni| > 0 && |ns.bi| + 1 == |ns.uni|
    requires contents == before + Vectors(dic, ns.uni) + Vectors(dic, ns.bi)
    ensures var fid, n := |before|, |ns.uni|;
      && fid + 2 * n - 1 <= |contents|
      && Features(contents[fid..fid + n], contents[fid + n..fid + 2 * n - 1]) == SentenceIds(dic, KeptIn(dic, ns))
  {
    hide Ids, Kept;
    var fid, n := |before|, |ns.uni|;
    var ft := SentenceIds(dic, KeptIn(dic, ns));
    assert contents[fid..fid + n] == Vectors(dic, ns.uni) == ft.uni;
    assert contents[fid + n..fid + 2 * n - 1] == Vectors(dic, ns.bi) == ft.bi;
  }

  /** The lattice that buildLattice makes of a cached sentence with these weights. */
  ghost function CachedLattice(index: FI.FeatureIndex, w: seq<real>, fid: nat, n: nat): Lattice
    requires n > 0 && fid + 2 * n - 1 <= |index.cache.contents|
    reads index, index.cache
  {
    CostLattice(index.costFactor, w, index.CachedFeatures(fid, n), index.y)
  }

  /** Weights as the model file stores them. */
  ghost function AsFloats(c: Codec, w: seq<real>): (r: seq<real>)
    ensures |r| == |w|
  {
    seq(|w|, i requires 0 <= i < |w| => ToFloat(c, w[i]))
  }

  /** Weights that are floats already do not change. */
  lemma FloatsKept(c: Codec, w: seq<real>)
    ensures AsFloats(c, w) == w <==> forall i :: 0 <= i < |w| ==> ToFloat(c, w[i]) == w[i]
  {
    hide ToFloat;
    if AsFloats(c, w) == w {
      forall i | 0 <= i < |w| ensures ToFloat(c, w[i]) == w[i] { assert AsFloats(c, w)[i] == w[i]; }
    } else {
      var i :| 0 <= i < |w| && AsFloats(c, w)[i] != w[i];
    }
  }

  /** The decoder's index has the templates, the cost factor, the number of tags, and the weights as floats. */
  ghost predicate Copied(e: EncoderIndex, d: DecoderIndex, c: Codec)
    reads e, d, e.base, d.base
  {
    && d.unigram == e.unigram && d.bigram == e.bigram && d.xsize == e.xsize
    && d.base.costFactor == e.base.costFactor && d.base.y == e.base.y && d.base.alpha == AsFloats(c, e.base.alpha)
  }

  /** Shrink the dictionary and train weights for what is left. */
  method ShrinkAndTrain(e: EncoderIndex, freq: nat, train: nat -> seq<real>)
    requires e.Valid() && forall n :: |train(n)| == n
    modifies e`dic, e`maxid, e`names, e.base`alpha, e.base.cache`contents, e.base.cache.mem
    ensures e.Valid() && AllKept(e.dic, old(e.names), e.names) && e.base.alpha == train(e.maxid)
    ensures freq > 1 ==> forall k :: k in e.dic <==> Freq(old(e.dic), k) >= freq
    ensures freq <= 1 ==> e.dic == old(e.dic)
  {
    hide AllKept, FI.FeatureIndex.Valid, Named, Tiled;
    e.Shrink(freq);
    e.base.alpha := train(e.maxid);
  }

  /** Save, and open the file with a new index, unless the dictionary is empty or the numbers do not fit the file. */
  method SaveAndOpen(e: EncoderIndex, c: Codec, nodeSize: nat, pathSize: nat, cacheSize: nat)
    returns (fits: bool, file: Str, d: DecoderIndex)
    requires e.Valid() && |e.base.alpha| == e.maxid && nodeSize > 1 && pathSize > 1
    requires Lawful(c) && IsDouble(c, e.base.costFactor)
    modifies e`xsize
    ensures e.xsize == if e.maxXsize > 0 && e.maxXsize < old(e.xsize) then e.maxXsize else old(e.xsize)
    ensures e.Valid() && fresh(d) && fresh(d.base) && fresh(d.base.cache) && fresh(d.base.cache.list)
    ensures d.base.cache.mem == [] && d.base.cache.list.size == cacheSize && d.base.cache.contents == []
    ensures fits <==> e.dic != map[] && |file| < 0x1_0000_0000 && e.maxid <= 0x8000_0000 && e.xsize < 0x1_0000_0000
    ensures fits ==> d.Ready() && d.dic == e.dic && d.base.Valid() && Copied(e, d, c)
  {
    hide Lawful, IsDouble, Writable, FileBytes, Holds, EncoderIndex.Valid, FC.FeatureCache.Valid, FI.Arena.Valid;
    hide ToFloat, AsFloats, DecoderIndex.Opened, DecoderIndex.Ready, Copied;
    var ok;
    ghost var m, t;
    ok, file, m, t := e.Save(c);
    d := new DecoderIndex(nodeSize, pathSize, cacheSize);
    fits := e.dic != map[] && |file| < 0x1_0000_0000 && e.maxid <= 0x8000_0000 && e.xsize < 0x1_0000_0000;
    if !fits { return; }
    var err := d.Open(c, file, m, t, e.dic);
    OpenedCopy(e, d, c, m, t);
  }

  /** What was opened is a copy of what was saved. */
  lemma OpenedCopy(e: EncoderIndex, d: DecoderIndex, c: Codec, m: Model, t: Table)
    requires e.Valid() && |e.base.alpha| == e.maxid && d.Opened(c, m, t, e.dic)
    requires m == Model(100, e.base.costFactor, e.maxid, e.xsize, e.y, e.unigram, e.bigram, m.units,
                        e.base.alpha[..e.maxid])
    ensures d.Ready() && Copied(e, d, c) && d.dic == e.dic
  {
    hide DecoderIndex.Ready;
    assert e.base.alpha[..e.maxid] == e.base.alpha;
  }

  // ---------- reading the training data ----------

  /** The templates have been expanded for this sentence, and its rows stand in the list from entry fid on. */
  ghost predicate ReadAt(names: seq<seq<Str>>, max: nat, us: seq<Pieces>, bs: seq<Pieces>, x: Sentence, xsize: nat,
                         fid: nat) {
    && Columns(x, xsize) && SentenceExpands(us, bs, x, xsize)
    && (|x| > 0 ==> ColumnsCovered(us, bs, |x|, max) && SentenceAt(names, fid, SentenceNames(us, bs, x, xsize)))
  }

  /** Nothing that was read is lost when more is read. */
  lemma StillRead(names: seq<seq<Str>>, max: nat, names': seq<seq<Str>>, max': nat, us: seq<Pieces>, bs: seq<Pieces>,
                  x: Sentence, xsize: nat, fid: nat)
    requires ReadAt(names, max, us, bs, x, xsize, fid) && names <= names' && max <= max'
    ensures ReadAt(names', max', us, bs, x, xsize, fid)
  {
    hide Columns, SentenceExpands, SentenceNames, AllBelow, IsSentence;
    if |x| > 0 {
      CoveredMore(us, bs, |x|, max, max');
      var ns := SentenceNames(us, bs, x, xsize);
      SamePart(names, names', fid, fid + |ns.uni| + |ns.bi|);
    }
  }

  lemma CoveredMore(us: seq<Pieces>, bs: seq<Pieces>, length: nat, n: nat, n': nat)
    requires ColumnsCovered(us, bs, length, n) && n <= n'
    ensures ColumnsCovered(us, bs, length, n')
  {
    hide AllBelow;
    if length > 0 { BelowGrows(us, n, n'); }
    if length > 1 { BelowGrows(bs, n, n'); }
  }

  lemma SamePart<T>(s: seq<T>, t: seq<T>, i: nat, j: nat)
    requires s <= t && i <= j <= |s|
    ensures t[i..j] == s[i..j]
  {}

  /** How often feature k occurs in a sentence. */
  ghost function OccursIn(us: seq<Pieces>, bs: seq<Pieces>, x: Sentence, xsize: nat, k: Str): nat
    requires Columns(x, xsize) && SentenceExpands(us, bs, x, xsize)
  {
    if |x| == 0 then 0
    else
      var ns := SentenceNames(us, bs, x, xsize);
      Occurrences(ns.uni, k) + Occurrences(ns.bi, k)
  }

  /** All these sentences have been read. */
  ghost predicate AllRead(names: seq<seq<Str>>, max: nat, us: seq<Pieces>, bs: seq<Pieces>, xs: seq<Sentence>,
                          xsize: nat, fids: seq<nat>) {
    && |fids| == |xs|
    && forall s :: 0 <= s < |xs| ==> ReadAt(names, max, us, bs, xs[s], xsize, fids[s])
  }

  /** How often feature k occurs in the training data. */
  ghost function Total(us: seq<Pieces>, bs: seq<Pieces>, xs: seq<Sentence>, xsize: nat, k: Str): nat
    requires forall s :: 0 <= s < |xs| ==> Columns(xs[s], xsize) && SentenceExpands(us, bs, xs[s], xsize)
  {
    if xs == [] then 0
    else
      var n := |xs| - 1;
      Total(us, bs, xs[..n], xsize, k) + OccursIn(us, bs, xs[n], xsize, k)
  }

  /** What reading the sentences so far has done to the dictionary d0. */
  ghost predicate ReadSoFar(d0: Dic, dic: Dic, names: seq<seq<Str>>, max: nat, us: seq<Pieces>, bs: seq<Pieces>,
                            xs: seq<Sentence>, xsize: nat, fids: seq<nat>) {
    && AllRead(names, max, us, bs, xs, xsize, fids)
    && forall k :: Freq(dic, k) == Freq(d0, k) + Total(us, bs, xs, xsize, k)
  }

  lemma OneMoreSentence(d0: Dic, dic: Dic, names: seq<seq<Str>>, max: nat, dic': Dic, names': seq<seq<Str>>, max': nat,
                        us: seq<Pieces>, bs: seq<Pieces>, xs: seq<Sentence>, x: Sentence, xsize: nat, fids: seq<nat>,
                        fid: nat)
    requires ReadSoFar(d0, dic, names, max, us, bs, xs, xsize, fids) && names <= names' && max <= max'
    requires ReadAt(names', max', us, bs, x, xsize, fid)
    requires forall k :: Freq(dic', k) == Freq(dic, k) + OccursIn(us, bs, x, xsize, k)
    ensures ReadSoFar(d0, dic', names', max', us, bs, xs + [x], xsize, fids + [fid])
  {
    hide Columns, SentenceExpands, OccursIn, Freq;
    var xs', fids' := xs + [x], fids + [fid];
    forall s | 0 <= s < |xs'| ensures ReadAt(names', max', us, bs, xs'[s], xsize, fids'[s]) {
      if s < |xs| { StillRead(names, max, names', max', us, bs, xs[s], xsize, fids[s]); }
    }
    hide ReadAt;
    assert xs'[..|xs|] == xs;
  }

  /** The encoder has read these sentences. */
  ghost predicate HasRead(e: EncoderIndex, us: seq<Pieces>, bs: seq<Pieces>, xs: seq<Sentence>, fids: seq<nat>)
    reads e, e.base, e.base.cache, e.base.cache.list, e.base.cache.mem
    reads e.base.nodeArena, e.base.nodeArena.list, e.base.pathArena, e.base.pathArena.list
  {
    && e.Valid() && Parsed(e.unigram, us) && Parsed(e.bigram, bs)
    && AllRead(e.names, e.maxXsize, us, bs, xs, e.xsize, fids)
  }

  /** buildFeatures on a sentence of the training data. */
  method ReadSentence(e: EncoderIndex, x: Sentence, ghost us: seq<Pieces>, ghost bs: seq<Pieces>)
    returns (ok: bool, fid: nat)
    requires e.Valid() && Columns(x, e.xsize) && Parsed(e.unigram, us) && Parsed(e.bigram, bs)
    requires |e.unigram| + 1 < e.base.cache.list.size && |e.bigram| + 1 < e.base.cache.list.size
    modifies e`dic, e`maxid, e`names, e`maxXsize, e.base.cache, e.base.cache.list, e.base.cache.mem
    ensures e.Valid() && (ok <==> SentenceExpands(us, bs, x, e.xsize))
    ensures old(e.names) <= e.names && old(e.maxXsize) <= e.maxXsize
    ensures ok ==> ReadAt(e.names, e.maxXsize, us, bs, x, e.xsize, fid)
    ensures ok ==> forall k :: Freq(e.dic, k) == Freq(old(e.dic), k) + OccursIn(us, bs, x, e.xsize, k)
    ensures forall k :: 0 <= k < |e.base.cache.mem| ==>
      e.base.cache.mem[k] in old(e.base.cache.mem) || fresh(e.base.cache.mem[k])
  {
    hide EncoderIndex.Valid, Columns, Parsed, SentenceExpands, SentenceNames, ColumnsCovered, WellNamed, Freq;
    ok, fid := e.BuildFeatures(x, us, bs);
    if ok && |x| > 0 {
      WellNamedHere(e, us, bs, x);
      ghost var ns := SentenceNames(us, bs, x, e.xsize);
      assert e.names[fid..fid + |ns.uni| + |ns.bi|] == ns.uni + ns.bi;
    }
  }

  /** The loop that reads the training data: it ends at the first sentence for which a template reaches too far. */
  method ReadAll(e: EncoderIndex, xs: seq<Sentence>, ghost us: seq<Pieces>, ghost bs: seq<Pieces>)
    returns (ok: bool, fids: seq<nat>)
    requires e.Valid() && Parsed(e.unigram, us) && Parsed(e.bigram, bs)
    requires forall s :: 0 <= s < |xs| ==> Columns(xs[s], e.xsize)
    requires |e.unigram| + 1 < e.base.cache.list.size && |e.bigram| + 1 < e.base.cache.list.size
    modifies e`dic, e`maxid, e`names, e`maxXsize, e.base.cache, e.base.cache.list, e.base.cache.mem
    ensures e.Valid() && (ok <==> forall s :: 0 <= s < |xs| ==> SentenceExpands(us, bs, xs[s], e.xsize))
    ensures ok ==> HasRead(e, us, bs, xs, fids)
    ensures ok ==> forall k :: Freq(e.dic, k) == Freq(old(e.dic), k) + Total(us, bs, xs, e.xsize, k)
    ensures forall k :: 0 <= k < |e.base.cache.mem| ==>
      e.base.cache.mem[k] in old(e.base.cache.mem) || fresh(e.base.cache.mem[k])
  {
    hide EncoderIndex.Valid, Columns, Parsed, SentenceExpands, Freq, ReadSoFar, ReadAt;
    fids := [];
    NothingReadYet(e.dic, e.names, e.maxXsize, us, bs, e.xsize);
    for s := 0 to |xs|
      invariant e.Valid() && ReadSoFar(old(e.dic), e.dic, e.names, e.maxXsize, us, bs, xs[..s], e.xsize, fids)
      invariant forall k :: 0 <= k < |e.base.cache.mem| ==>
        e.base.cache.mem[k] in old(e.base.cache.mem) || fresh(e.base.cache.mem[k])
    {
      ghost var dic, names, max := e.dic, e.names, e.maxXsize;
      var fid;
      ok, fid := ReadSentence(e, xs[s], us, bs);
      if !ok { return; }
      OneMoreSentence(old(e.dic), dic, names, max, e.dic, e.names, e.maxXsize, us, bs, xs[..s], xs[s], e.xsize, fids,
                      fid);
      assert xs[..s + 1] == xs[..s] + [xs[s]];
      fids := fids + [fid];
    }
    assert xs[..|xs|] == xs;
    AllReadNow(old(e.dic), e.dic, e.names, e.maxXsize, us, bs, xs, e.xsize, fids);
    ok := true;
  }

  lemma NothingReadYet(dic: Dic, names: seq<seq<Str>>, max: nat, us: seq<Pieces>, bs: seq<Pieces>, xsize: nat)
    ensures ReadSoFar(dic, dic, names, max, us, bs, [], xsize, [])
  {}

  lemma AllReadNow(d0: Dic, dic: Dic, names: seq<seq<Str>>, max: nat, us: seq<Pieces>, bs: seq<Pieces>,
                   xs: seq<Sentence>, xsize: nat, fids: seq<nat>)
    requires ReadSoFar(d0, dic, names, max, us, bs, xs, xsize, fids)
    ensures AllRead(names, max, us, bs, xs, xsize, fids)
    ensures forall s :: 0 <= s < |xs| ==> Columns(xs[s], xsize) && SentenceExpands(us, bs, xs[s], xsize)
    ensures forall k :: Freq(dic, k) == Freq(d0, k) + Total(us, bs, xs, xsize, k)
  {
    hide Columns, SentenceExpands;
  }

  lemma WellNamedHere(e: EncoderIndex, us: seq<Pieces>, bs: seq<Pieces>, x: Sentence)
    requires e.Valid() && |x| > 0 && Columns(x, e.xsize) && Parsed(e.unigram, us) && Parsed(e.bigram, bs)
    requires SentenceExpands(us, bs, x, e.xsize)
    ensures WellNamed(SentenceNames(us, bs, x, e.xsize))
  {
    SentenceWellNamed(e.unigram, e.bigram, us, bs, x, e.xsize);
  }

  /** learn up to the training: open the templates and read the training data. It fails exactly if a line is no
      template, or a template reaches too far for some sentence; and features have been counted exactly. */
  method Learn(y: seq<Str>, xsize: nat, lines: seq<Str>, xs: seq<Sentence>, nodeSize: nat, pathSize: nat,
               cacheSize: nat, ghost us: seq<Pieces>, ghost bs: seq<Pieces>)
    returns (ok: bool, e: EncoderIndex, fids: seq<nat>)
    requires |y| > 0 && NoNul(y) && nodeSize > 1 && pathSize > 1
    requires Parsed(StartingWith(lines, 85), us) && Parsed(StartingWith(lines, 66), bs)
    requires |us| + 1 < cacheSize && |bs| + 1 < cacheSize && forall s :: 0 <= s < |xs| ==> Columns(xs[s], xsize)
    ensures fresh(e) && fresh(e.base) && fresh(e.base.cache) && fresh(e.base.cache.list)
    ensures forall k :: 0 <= k < |e.base.cache.mem| ==> fresh(e.base.cache.mem[k])
    ensures ok <==>
      && (forall i :: 0 <= i < |lines| ==> Known(lines[i]))
      && (forall s :: 0 <= s < |xs| ==> SentenceExpands(us, bs, xs[s], xsize))
    ensures e.y == y && e.xsize == xsize && e.base.costFactor == 1.0
    ensures ok ==>
      && HasRead(e, us, bs, xs, fids) && |e.unigram| == |us| && |e.bigram| == |bs|
      && forall k :: Freq(e.dic, k) == Total(us, bs, xs, xsize, k)
  {
    hide EncoderIndex.Valid, Columns, Parsed, SentenceExpands, AllRead, Total, Known, Templates, StartingWith;
    e := new EncoderIndex(y, xsize, nodeSize, pathSize, cacheSize);
    fids := [];
    ok := OpenTemplates(e, lines);
    if !ok { return; }
    Lengths(lines, us, bs);
    ok, fids := ReadAll(e, xs, us, bs);
  }

  lemma Lengths(lines: seq<Str>, us: seq<Pieces>, bs: seq<Pieces>)
    requires Parsed(StartingWith(lines, 85), us) && Parsed(StartingWith(lines, 66), bs)
    ensures |us| == |StartingWith(lines, 85)| && |bs| == |StartingWith(lines, 66)|
  {}

  /** openTemplate on a new index. */
  method OpenTemplates(e: EncoderIndex, lines: seq<Str>) returns (ok: bool)
    requires e.Valid() && e.unigram == e.bigram == []
    modifies e`unigram, e`bigram
    ensures e.Valid() && (ok <==> forall i :: 0 <= i < |lines| ==> Known(lines[i]))
    ensures ok ==> e.unigram == StartingWith(lines, 85) && e.bigram == StartingWith(lines, 66)
  {
    hide FI.FeatureIndex.Valid, Tiled, Named, Templates, StartingWith, Known;
    ok := e.OpenTemplate(lines);
    assert [] + StartingWith(lines, 85) == StartingWith(lines, 85);
    assert [] + StartingWith(lines, 66) == StartingWith(lines, 66);
  }

  // ---------- decoding ----------

  /** buildFeatures on the decoder's side, for a sentence read with only as many columns as the model has. */
  method DecodeSentence(d: DecoderIndex, x: Sentence, ghost us: seq<Pieces>, ghost bs: seq<Pieces>) returns (fid: nat)
    requires d.Ready() && d.base.Valid() && |x| > 0 && Columns(x, d.xsize) && CStrings(x)
    requires Parsed(d.unigram, us) && Parsed(d.bigram, bs) && SentenceExpands(us, bs, x, d.xsize)
    requires |d.unigram| + 1 < d.base.cache.list.size && |d.bigram| + 1 < d.base.cache.list.size
    modifies d.base.cache, d.base.cache.list, d.base.cache.mem
    ensures d.Ready() && d.base.Valid() && fid + 2 * |x| - 1 <= |d.base.cache.contents|
    ensures d.base.CachedFeatures(fid, |x|) == SentenceIds(d.dic, KeptIn(d.dic, SentenceNames(us, bs, x, d.xsize)))
    ensures old(d.base.cache.contents) <= d.base.cache.contents
    ensures forall k :: 0 <= k < |d.base.cache.mem| ==>
      d.base.cache.mem[k] in old(d.base.cache.mem) || fresh(d.base.cache.mem[k])
  {
    hide DecoderIndex.Ready, FI.FeatureIndex.Valid, Columns, CStrings, Parsed, SentenceExpands, SentenceNames, Vectors;
    hide SentenceIds, KeptIn;
    ghost var before := d.base.cache.contents;
    var ok;
    ok, fid := d.BuildFeatures(x, us, bs);
    DecodedSentence(d.dic, before, d.base.cache.contents, SentenceNames(us, bs, x, d.xsize));
  }

  /** l is the lattice that the index makes of a cached sentence. */
  ghost predicate LatticeIs(index: FI.FeatureIndex, fid: nat, n: nat, l: Lattice)
    reads index, index.cache
  {
    n > 0 && fid + 2 * n - 1 <= |index.cache.contents| && CachedLattice(index, index.alpha, fid, n) == l
  }

  /** The model's number of columns is enough for the templates. */
  lemma Narrow(us: seq<Pieces>, bs: seq<Pieces>, x: Sentence, xsize: nat, max: nat, n: nat)
    requires |x| > 0 && Columns(x, xsize) && SentenceExpands(us, bs, x, xsize) && ColumnsCovered(us, bs, |x|, max)
    requires n == if max > 0 && max < xsize then max else xsize
    ensures (forall i :: 0 <= i < |x| ==> n <= |x[i]|) && |Narrowed(x, n)| == |x|
    ensures Columns(Narrowed(x, n), n) && SentenceExpands(us, bs, Narrowed(x, n), n)
    ensures SentenceNames(us, bs, Narrowed(x, n), n) == SentenceNames(us, bs, x, xsize)
    ensures CStrings(x) ==> CStrings(Narrowed(x, n))
  {
    hide SentenceExpands, SentenceNames, ColumnsCovered;
    NarrowColumns(x, xsize, n);
    CoveredBoth(us, bs, x, xsize, max, n);
    SentenceNarrow(us, bs, x, xsize, n);
  }

  /** From the end of reading the training data to a new index: shrink, train, save and open. */
  method TrainAndOpen(e: EncoderIndex, c: Codec, freq: nat, train: nat -> seq<real>, nodeSize: nat, pathSize: nat,
                      cacheSize: nat)
    returns (fits: bool, file: Str, d: DecoderIndex)
    requires e.Valid() && nodeSize > 1 && pathSize > 1
    requires Lawful(c) && IsDouble(c, e.base.costFactor) && forall n :: |train(n)| == n
    modifies e`dic, e`maxid, e`names, e`xsize, e.base`alpha, e.base.cache`contents, e.base.cache.mem
    ensures e.Valid() && AllKept(e.dic, old(e.names), e.names) && e.base.alpha == train(e.maxid)
    ensures freq > 1 ==> forall k :: k in e.dic <==> Freq(old(e.dic), k) >= freq
    ensures freq <= 1 ==> e.dic == old(e.dic)
    ensures e.xsize == if e.maxXsize > 0 && e.maxXsize < old(e.xsize) then e.maxXsize else old(e.xsize)
    ensures fresh(d) && fresh(d.base) && fresh(d.base.cache) && fresh(d.base.cache.list)
    ensures d.base.cache.mem == [] && d.base.cache.list.size == cacheSize && d.base.cache.contents == []
    ensures fits <==> e.dic != map[] && |file| < 0x1_0000_0000 && e.maxid <= 0x8000_0000 && e.xsize < 0x1_0000_0000
    ensures fits ==> d.Ready() && d.dic == e.dic && d.base.Valid() && Copied(e, d, c)
  {
    hide Lawful, IsDouble, EncoderIndex.Valid, DecoderIndex.Ready, FI.FeatureIndex.Valid, Copied, AllKept;
    ShrinkAndTrain(e, freq, train);
    fits, file, d := SaveAndOpen(e, c, nodeSize, pathSize, cacheSize);
  }

  /** From the end of reading the training data to decoding: shrink the dictionary, train weights for what is left,
      save, open the file with a new index, and build the features of one of the sentences there. The decoder's lattice
      of the sentence is the one that training used, with the weights as floats; and for weights w of the dictionary
      before shrink of which these are a relocation, it has the costs of the lattice before shrink. */
  method TrainAndDecode(e: EncoderIndex, c: Codec, freq: nat, train: nat -> seq<real>, nodeSize: nat, pathSize: nat,
                        cacheSize: nat, xs: seq<Sentence>, fids: seq<nat>, s: nat, ghost us: seq<Pieces>,
                        ghost bs: seq<Pieces>, ghost w: seq<real>)
    returns (fits: bool, file: Str, d: DecoderIndex, fid: nat)
    requires HasRead(e, us, bs, xs, fids) && s < |xs| && |xs[s]| > 0 && CStrings(xs[s])
    requires nodeSize > 1 && pathSize > 1 && |e.unigram| + 1 < cacheSize && |e.bigram| + 1 < cacheSize
    requires Lawful(c) && IsDouble(c, e.base.costFactor) && forall n :: |train(n)| == n
    modifies e`dic, e`maxid, e`names, e`xsize, e.base`alpha, e.base.cache`contents, e.base.cache.mem
    ensures e.Valid() && e.base.alpha == train(e.maxid)
    ensures freq > 1 ==> forall k :: k in e.dic <==> Freq(old(e.dic), k) >= freq
    ensures freq <= 1 ==> e.dic == old(e.dic)
    ensures fits <==> e.dic != map[] && |file| < 0x1_0000_0000 && e.maxid <= 0x8000_0000 && e.xsize < 0x1_0000_0000
    ensures fids[s] + 2 * |xs[s]| - 1 <= |e.base.cache.contents|
    ensures fits ==>
      && d.Ready() && d.dic == e.dic && d.base.Valid()
      && LatticeIs(d.base, fid, |xs[s]|, CachedLattice(e.base, AsFloats(c, e.base.alpha), fids[s], |xs[s]|))
      && (Relocated(old(e.dic), e.dic, |e.y|, w, AsFloats(c, e.base.alpha)) ==>
            SameCosts(old(CachedLattice(e.base, w, fids[s], |xs[s]|)),
                      CachedLattice(d.base, d.base.alpha, fid, |xs[s]|)))
  {
    hide Lawful, IsDouble, IsSentence, KeptIn, SentenceIds, NamesIn, CostLattice, Relocated, SameCosts, AsFloats;
    hide EncoderIndex.Valid, DecoderIndex.Ready, FI.FeatureIndex.Valid, FI.FeatureIndex.CachedFeatures, ToFloat;
    hide Columns, CStrings, Parsed, SentenceExpands, SentenceNames, ColumnsCovered, AllKept, SentenceAt;
    ghost var x, ns := xs[s], SentenceNames(us, bs, xs[s], e.xsize);
    ghost var d0, xsize, names := e.dic, e.xsize, e.names;
    assert ReadAt(e.names, e.maxXsize, us, bs, x, e.xsize, fids[s]);
    CachedFeaturesAre(e, fids[s], ns);
    fits, file, d := TrainAndOpen(e, c, freq, train, nodeSize, pathSize, cacheSize);
    KeptSentence(e.dic, names, e.names, fids[s], ns);
    CachedFeaturesAre(e, fids[s], KeptIn(e.dic, ns));
    fid := 0;
    if !fits { return; }
    Narrow(us, bs, x, xsize, e.maxXsize, e.xsize);
    fid := DecodeSentence(d, Narrowed(xs[s], d.xsize), us, bs);
    SentenceShape(names, fids[s], ns);
    if Relocated(d0, e.dic, |e.y|, w, AsFloats(c, e.base.alpha)) {
      LatticeKept(d0, e.dic, |e.y|, w, AsFloats(c, e.base.alpha), ns, e.base.costFactor);
    }
  }

  lemma SentenceShape(names: seq<seq<Str>>, fid: nat, ns: Names)
    requires SentenceAt(names, fid, ns)
    ensures |ns.bi| + 1 == |ns.uni| && WellNamed(ns)
  {}

  /** learn and then decoding, from the files to the decoder's lattice of sentence s: exactly the features that occur
      often enough are in the model, and the lattice is that of the trained weights, as floats. */
  method LearnAndDecode(y: seq<Str>, xsize: nat, lines: seq<Str>, xs: seq<Sentence>, nodeSize: nat, pathSize: nat,
                        cacheSize: nat, c: Codec, freq: nat, train: nat -> seq<real>, s: nat, ghost us: seq<Pieces>,
                        ghost bs: seq<Pieces>)
    returns (ok: bool, fits: bool, file: Str, e: EncoderIndex, d: DecoderIndex?, fids: seq<nat>, fid: nat)
    requires |y| > 0 && NoNul(y) && nodeSize > 1 && pathSize > 1
    requires Parsed(StartingWith(lines, 85), us) && Parsed(StartingWith(lines, 66), bs)
    requires |us| + 1 < cacheSize && |bs| + 1 < cacheSize && forall i :: 0 <= i < |xs| ==> Columns(xs[i], xsize)
    requires s < |xs| && |xs[s]| > 0 && CStrings(xs[s])
    requires Lawful(c) && IsDouble(c, 1.0) && forall n :: |train(n)| == n
    ensures ok <==>
      && (forall i :: 0 <= i < |lines| ==> Known(lines[i]))
      && (forall i :: 0 <= i < |xs| ==> SentenceExpands(us, bs, xs[i], xsize))
    ensures ok && freq > 1 ==> forall k :: k in e.dic <==> Total(us, bs, xs, xsize, k) >= freq
    ensures ok ==> e.Valid() && e.base.alpha == train(e.maxid)
    ensures ok ==> |fids| == |xs| && fids[s] + 2 * |xs[s]| - 1 <= |e.base.cache.contents|
    ensures fits <==>
      && ok && e.dic != map[] && |file| < 0x1_0000_0000 && e.maxid <= 0x8000_0000 && e.xsize < 0x1_0000_0000
    ensures fits ==>
      && d != null && d.Ready() && d.dic == e.dic && d.base.Valid()
      && LatticeIs(d.base, fid, |xs[s]|, CachedLattice(e.base, AsFloats(c, e.base.alpha), fids[s], |xs[s]|))
  {
    hide EncoderIndex.Valid, DecoderIndex.Ready, FI.FeatureIndex.Valid, Columns, CStrings, Parsed, SentenceExpands;
    hide Total, Known, StartingWith, Lawful, IsDouble, LatticeIs, CachedLattice, AsFloats, Relocated, SameCosts, Freq;
    hide ReadAt;
    fits, file, d, fid := false, [], null, 0;
    ok, e, fids := Learn(y, xsize, lines, xs, nodeSize, pathSize, cacheSize, us, bs);
    if !ok { return; }
    fits, file, d, fid := TrainAndDecode(e, c, freq, train, nodeSize, pathSize, cacheSize, xs, fids, s, us, bs, []);
  }
}
