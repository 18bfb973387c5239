/** The feature dictionary: blocks of ids, and what a new numbering keeps. */
module Dictionary {
  import opened Bytes
  import opened Sums
  import opened Lattice
  import opened Nodes
  import opened Features
  import FeatureCache

  /** The first id of a feature's block, and how often the feature was asked for. */
  datatype Entry = Entry(id: nat, freq: nat)

  type Dic = map<Str, Entry>

  /** A feature that starts with 'U' needs one id per tag, any other one per pair of tags. */
  ghost function Width(key: Str, y: nat): nat {
    if key != [] && key[0] == 85 then y else y * y
  }

  lemma WidthIs(key: Str, y: nat)
    ensures key != [] && key[0] == 85 ==> Width(key, y) == y
    ensures key == [] || key[0] != 85 ==> Width(key, y) == y * y
  {}

  /** The blocks lie within [0, maxid), do not overlap, and leave no gap. */
  ghost predicate Tiled(dic: Dic, y: nat, maxid: nat) {
    && (forall k :: k in dic ==> dic[k].id + Width(k, y) <= maxid)
    && (forall k, k' :: k in dic && k' in dic && k != k' ==>
          dic[k].id + Width(k, y) <= dic[k'].id || dic[k'].id + Width(k', y) <= dic[k].id)
    && (forall i :: 0 <= i < maxid ==> Covered(dic, y, i))
  }

  /** Id i lies in some block. */
  ghost predicate Covered(dic: Dic, y: nat, i: int) {
    exists k :: k in dic && InBlock(dic, y, i, k)
  }

  ghost predicate InBlock(dic: Dic, y: nat, i: int, k: Str)
    requires k in dic
  {
    dic[k].id <= i < dic[k].id + Width(k, y)
  }

  /** A new feature gets the next free block. */
  lemma TiledAdd(dic: Dic, y: nat, maxid: nat, key: Str, freq: nat)
    requires Tiled(dic, y, maxid) && key !in dic
    ensures Tiled(dic[key := Entry(maxid, freq)], y, maxid + Width(key, y))
  {
    hide Width;
    var dic2, n := dic[key := Entry(maxid, freq)], maxid + Width(key, y);
    forall i | 0 <= i < n ensures Covered(dic2, y, i) {
      if i < maxid {
        assert Covered(dic, y, i);
        var k :| k in dic && InBlock(dic, y, i, k);
        assert InBlock(dic2, y, i, k);
      } else {
        assert InBlock(dic2, y, i, key);
      }
    }
  }

  /** Counting a further request changes no block. */
  lemma TiledCount(dic: Dic, y: nat, maxid: nat, key: Str, freq: nat)
    requires Tiled(dic, y, maxid) && key in dic
    ensures Tiled(dic[key := Entry(dic[key].id, freq)], y, maxid)
  {
    hide Width;
    var dic2 := dic[key := Entry(dic[key].id, freq)];
    forall i | 0 <= i < maxid ensures Covered(dic2, y, i) {
      assert Covered(dic, y, i);
      var k :| k in dic && InBlock(dic, y, i, k);
      assert InBlock(dic2, y, i, k);
    }
  }

  lemma WidthPositive(key: Str, y: nat)
    requires y > 0
    ensures Width(key, y) > 0
  {}

  /** Different features have different ids. */
  lemma IdsApart(dic: Dic, y: nat, maxid: nat, k: Str, k': Str)
    requires y > 0 && Tiled(dic, y, maxid) && k in dic && k' in dic && dic[k].id == dic[k'].id
    ensures k == k'
  {
    WidthPositive(k, y);
    WidthPositive(k', y);
  }

  // ---------- vectors ----------

  ghost predicate AllIn(dic: Dic, names: seq<Str>) {
    forall i :: 0 <= i < |names| ==> names[i] in dic
  }

  /** The vector of a list of features. */
  ghost function Ids(dic: Dic, names: seq<Str>): (r: seq<nat>)
    requires AllIn(dic, names)
    ensures |r| == |names|
  {
    seq(|names|, i requires 0 <= i < |names| => dic[names[i]].id)
  }

  /** The features of a list that are in the dictionary. */
  ghost function Kept(dic: Dic, names: seq<Str>): (r: seq<Str>)
    ensures AllIn(dic, r)
  {
    if names == [] then []
    else Kept(dic, names[..|names| - 1]) + if names[|names| - 1] in dic then [names[|names| - 1]] else []
  }

  /** old2new maps the id of each surviving feature, and only those, to its new id. */
  ghost predicate Renames(old2new: map<nat, nat>, dic: Dic, dic2: Dic) {
    && (forall k :: k in dic2 ==> k in dic)
    && (forall k :: k in dic ==> (k in dic2 <==> dic[k].id in old2new))
    && (forall k :: k in dic2 ==> dic[k].id in old2new && old2new[dic[k].id] == dic2[k].id)
  }

  /** Renaming a vector drops the features that did not survive, and keeps the others in order. */
  lemma {:induction false} RenamedIds(old2new: map<nat, nat>, dic: Dic, dic2: Dic, names: seq<Str>)
    requires Renames(old2new, dic, dic2) && AllIn(dic, names)
    ensures FeatureCache.Renamed(old2new, Ids(dic, names)) == Ids(dic2, Kept(dic2, names))
  {
    if names != [] {
      var most := names[..|names| - 1];
      RenamedIds(old2new, dic, dic2, most);
      assert Ids(dic, names)[..|names| - 1] == Ids(dic, most);
    }
  }

  // ---------- costs ----------

  /** w2 holds the weights of the surviving features, moved to their new blocks; the others had weight 0. */
  ghost predicate Relocated(dic: Dic, dic2: Dic, y: nat, w: seq<real>, w2: seq<real>) {
    && (forall k, o :: k in dic && k in dic2 && 0 <= o < Width(k, y) ==>
      WeightOf(dic, w, k, o) == WeightOf(dic2, w2, k, o))
    && (forall k, o :: k in dic && k !in dic2 && 0 <= o < Width(k, y) ==> WeightOf(dic, w, k, o) == 0.0)
  }

  ghost function Weight(w: seq<real>, i: int): real {
    if 0 <= i < |w| then w[i] else 0.0
  }

  /** The weight of feature k for a tag, or a pair of tags, with offset o. */
  ghost function WeightOf(dic: Dic, w: seq<real>, k: Str, o: int): real
    requires k in dic
  {
    Weight(w, dic[k].id + o)
  }

  ghost predicate AllWide(names: seq<Str>, y: nat, off: int) {
    forall i :: 0 <= i < |names| ==> 0 <= off < Width(names[i], y)
  }

  lemma OneFeature(dic: Dic, names: seq<Str>, w: seq<real>, k: Str, off: int)
    requires AllIn(dic, names) && k in dic
    ensures AllIn(dic, names + [k])
    ensures FeatureCost(w, Ids(dic, names + [k]), off) ==
            FeatureCost(w, Ids(dic, names), off) + WeightOf(dic, w, k, off)
  {
    var ids := Ids(dic, names + [k]);
    assert ids[..|ids| - 1] == Ids(dic, names) && ids[|ids| - 1] == dic[k].id;
  }

  lemma KeptMore(dic: Dic, names: seq<Str>)
    requires names != []
    ensures var most, last := names[..|names| - 1], names[|names| - 1];
      names == most + [last] && Kept(dic, names) == if last in dic then Kept(dic, most) + [last] else Kept(dic, most)
  {}

  lemma WeightKept(dic: Dic, dic2: Dic, y: nat, w: seq<real>, w2: seq<real>, k: Str, off: int)
    requires Relocated(dic, dic2, y, w, w2) && k in dic && 0 <= off < Width(k, y)
    ensures WeightOf(dic, w, k, off) == if k in dic2 then WeightOf(dic2, w2, k, off) else 0.0
  {
    hide Width;
  }

  /** The cost of a feature vector survives the new numbering. */
  lemma {:induction false} CostKept(dic: Dic, dic2: Dic, y: nat, w: seq<real>, w2: seq<real>, names: seq<Str>, off: int)
    requires Relocated(dic, dic2, y, w, w2) && AllIn(dic, names) && AllWide(names, y, off)
    ensures FeatureCost(w, Ids(dic, names), off) == FeatureCost(w2, Ids(dic2, Kept(dic2, names)), off)
  {
    hide Width, Relocated, WeightOf, FeatureCost, Ids, Kept;
    if names == [] {
      NoFeatures(dic, w, off);
      NoFeatures(dic2, w2, off);
    } else {
      var most, last := names[..|names| - 1], names[|names| - 1];
      CostKept(dic, dic2, y, w, w2, most, off);
      KeptMore(dic2, names);
      WeightKept(dic, dic2, y, w, w2, last, off);
      OneFeature(dic, most, w, last, off);
      if last in dic2 { OneFeature(dic2, Kept(dic2, most), w2, last, off); }
    }
  }

  lemma NoFeatures(dic: Dic, w: seq<real>, off: int)
    ensures Kept(dic, []) == [] && FeatureCost(w, Ids(dic, []), off) == 0.0
  {}

  /** Every choice of weights can be moved: the new blocks do not overlap. */
  lemma RelocationExists(dic: Dic, dic2: Dic, y: nat, maxid2: nat, w: seq<real>) returns (w2: seq<real>)
    requires Tiled(dic2, y, maxid2) && forall k :: k in dic2 ==> k in dic
    requires forall k, o :: k in dic && k !in dic2 && 0 <= o < Width(k, y) ==> WeightOf(dic, w, k, o) == 0.0
    ensures |w2| == maxid2 && Relocated(dic, dic2, y, w, w2)
  {
    hide Width;
    w2 := seq(maxid2, i requires 0 <= i < maxid2 => Source(dic, dic2, y, maxid2, w, i));
    forall k, o | k in dic && k in dic2 && 0 <= o < Width(k, y)
      ensures WeightOf(dic, w, k, o) == WeightOf(dic2, w2, k, o)
    {
      assert InBlock(dic2, y, dic2[k].id + o, k);
    }
  }

  /** The old weight that belongs at new id i. */
  ghost function Source(dic: Dic, dic2: Dic, y: nat, maxid2: nat, w: seq<real>, i: nat): (r: real)
    requires i < maxid2 && Tiled(dic2, y, maxid2) && forall k :: k in dic2 ==> k in dic
    ensures forall k :: k in dic2 && InBlock(dic2, y, i, k) ==> r == WeightOf(dic, w, k, i - dic2[k].id)
  {
    assert Covered(dic2, y, i);
    var k :| k in dic2 && InBlock(dic2, y, i, k);
    WeightOf(dic, w, k, i - dic2[k].id)
  }

  // ---------- sentences ----------

  /** The expanded templates of a sentence: those of each token, and those of each pair of neighbours. */
  datatype Names = Names(uni: seq<seq<Str>>, bi: seq<seq<Str>>)

  ghost predicate NamesIn(dic: Dic, ns: Names) {
    && (forall i :: 0 <= i < |ns.uni| ==> AllIn(dic, ns.uni[i]))
    && (forall i :: 0 <= i < |ns.bi| ==> AllIn(dic, ns.bi[i]))
  }

  /** Templates of tokens start with 'U', those of pairs do not. */
  ghost predicate WellNamed(ns: Names) {
    && (forall i, k :: 0 <= i < |ns.uni| && 0 <= k < |ns.uni[i]| ==> ns.uni[i][k] != [] && ns.uni[i][k][0] == 85)
    && (forall i, k :: 0 <= i < |ns.bi| && 0 <= k < |ns.bi[i]| ==> ns.bi[i][k] == [] || ns.bi[i][k][0] != 85)
  }

  ghost function SentenceIds(dic: Dic, ns: Names): Features
    requires NamesIn(dic, ns)
  {
    Features(seq(|ns.uni|, i requires 0 <= i < |ns.uni| => Ids(dic, ns.uni[i])),
             seq(|ns.bi|, i requires 0 <= i < |ns.bi| => Ids(dic, ns.bi[i])))
  }

  ghost function KeptIn(dic: Dic, ns: Names): (r: Names)
    ensures NamesIn(dic, r)
  {
    Names(seq(|ns.uni|, i requires 0 <= i < |ns.uni| => Kept(dic, ns.uni[i])),
          seq(|ns.bi|, i requires 0 <= i < |ns.bi| => Kept(dic, ns.bi[i])))
  }

  /** Every cost of the lattice of a sentence survives the new numbering, and so does every score. */
  lemma LatticeKept(dic: Dic, dic2: Dic, y: nat, w: seq<real>, w2: seq<real>, ns: Names, cf: real)
    requires Relocated(dic, dic2, y, w, w2) && NamesIn(dic, ns) && WellNamed(ns) && |ns.bi| + 1 == |ns.uni|
    ensures SameCosts(CostLattice(cf, w, SentenceIds(dic, ns), y),
                      CostLattice(cf, w2, SentenceIds(dic2, KeptIn(dic2, ns)), y))
  {
    hide Relocated, Times, FeatureCost, Ids, Kept, AllIn;
    var a := CostLattice(cf, w, SentenceIds(dic, ns), y);
    var b := CostLattice(cf, w2, SentenceIds(dic2, KeptIn(dic2, ns)), y);
    forall i, j | 0 <= i < a.n && 0 <= j < y ensures a.node(i, j) == b.node(i, j) {
      CostKept(dic, dic2, y, w, w2, ns.uni[i], j);
    }
    forall i, k, j | 0 < i < a.n && 0 <= k < y && 0 <= j < y ensures a.edge(i, k, j) == b.edge(i, k, j) {
      EdgeOffRange(k, y, j);
      CostKept(dic, dic2, y, w, w2, ns.bi[i - 1], EdgeOff(k, y, j));
    }
  }

  /** Two lattices with the same cost on every node and edge. */
  ghost predicate SameCosts(a: Lattice, b: Lattice) {
    && a.n == b.n && a.y == b.y
    && (forall i, j :: 0 <= i < a.n && 0 <= j < a.y ==> a.node(i, j) == b.node(i, j))
    && (forall i, k, j :: 0 < i < a.n && 0 <= k < a.y && 0 <= j < a.y ==> a.edge(i, k, j) == b.edge(i, k, j))
  }

  lemma {:induction false} SpanSame(a: Lattice, b: Lattice, p: nat, t: Tags)
    requires SameCosts(a, b) && p + |t| == a.n && InRange(a.y, t)
    ensures Span(a, p, t) == Span(b, p, t)
    decreases |t|
  {
    if |t| > 0 { SpanSame(a, b, p + 1, t[1..]); }
  }

  lemma ScoresSame(a: Lattice, b: Lattice, t: Tags)
    requires SameCosts(a, b) && IsTagging(a, t)
    ensures Score(a, t) == Score(b, t)
  {
    SpanSame(a, b, 0, t);
  }
}
