/** feature_index.cpp, training side: handing out ids, and renumbering after rare features are dropped. */
module Encoder {
  import opened Bytes
  import opened Dictionary
  import FeatureCache
  import FI = FeatureIndex
  import Text
  import DA = DoubleArray
  import opened ArrayState
  import opened ArraySearch
  import opened ModelFile
  import opened Options
  import opened Template
  import opened Sentences
  import opened ModelWriter
  import opened DicArray

  /** Shrink has renumbered the first i keys of d0: kept holds the survivors among them, dic is the dictionary so
      far. */
  ghost predicate Numbered(d0: Dic, freq: nat, keys: seq<Str>, i: nat, dic: Dic, kept: Dic, old2new: map<nat, nat>,
                           y: nat, newMaxid: nat)
    requires i <= |keys|
  {
    && Tiled(kept, y, newMaxid)
    && (forall k :: k in kept <==> k in d0 && k in keys[..i] && d0[k].freq >= freq)
    && (forall k :: k in kept ==> kept[k].freq == d0[k].freq)
    && (forall k :: k in dic <==> k in kept || (k in d0 && k !in keys[..i]))
    && (forall k :: k in dic ==> dic[k] == if k in kept then kept[k] else d0[k])
    && (forall k :: k in kept ==> d0[k].id in old2new && old2new[d0[k].id] == kept[k].id)
    && (forall n :: n in old2new ==> SomeId(d0, kept, n))
  }

  /** n is the old id of a survivor. */
  ghost predicate SomeId(d0: Dic, kept: Dic, n: nat) {
    exists k :: k in kept && k in d0 && d0[k].id == n
  }

  lemma NumberedStart(d0: Dic, freq: nat, keys: seq<Str>, y: nat)
    ensures Numbered(d0, freq, keys, 0, d0, map[], map[], y, 0)
  {}

  lemma OneMore(keys: seq<Str>, i: nat, k: Str)
    requires i < |keys| && Sorted(keys)
    ensures k in keys[..i + 1] <==> k in keys[..i] || k == keys[i]
    ensures keys[i] !in keys[..i]
  {
    assert keys[..i + 1] == keys[..i] + [keys[i]];
  }

  lemma NumberedDrop(d0: Dic, freq: nat, keys: seq<Str>, i: nat, dic: Dic, kept: Dic, old2new: map<nat, nat>, y: nat,
                     newMaxid: nat)
    requires i < |keys| && Sorted(keys) && Numbered(d0, freq, keys, i, dic, kept, old2new, y, newMaxid)
    requires keys[i] in d0 && d0[keys[i]].freq < freq
    ensures Numbered(d0, freq, keys, i + 1, dic - {keys[i]}, kept, old2new, y, newMaxid)
  {
    hide Tiled, Sorted, SomeId;
    forall k ensures k in keys[..i + 1] <==> k in keys[..i] || k == keys[i] { OneMore(keys, i, k); }
  }

  lemma NumberedKeep(d0: Dic, maxid: nat, freq: nat, keys: seq<Str>, i: nat, dic: Dic, kept: Dic,
                     old2new: map<nat, nat>, y: nat, newMaxid: nat)
    requires y > 0 && Tiled(d0, y, maxid)
    requires i < |keys| && Sorted(keys) && Numbered(d0, freq, keys, i, dic, kept, old2new, y, newMaxid)
    requires keys[i] in d0 && d0[keys[i]].freq >= freq
    ensures d0[keys[i]].id !in old2new && keys[i] !in kept
    ensures var key := keys[i]; var e := Entry(newMaxid, d0[key].freq);
      Numbered(d0, freq, keys, i + 1, dic[key := e], kept[key := e], old2new[d0[key].id := newMaxid], y,
        newMaxid + Width(key, y))
  {
    hide Tiled, Sorted, Width;
    var key := keys[i];
    forall k ensures k in keys[..i + 1] <==> k in keys[..i] || k == key { OneMore(keys, i, k); }
    OneMore(keys, i, key);
    TiledAdd(kept, y, newMaxid, key, d0[key].freq);
    OldIdNew(d0, y, maxid, kept, key);
    var e := Entry(newMaxid, d0[key].freq);
    forall n | n in old2new || n == d0[key].id ensures SomeId(d0, kept[key := e], n) {
      if n == d0[key].id {
        assert key in kept[key := e];
      } else {
        var k :| k in kept && k in d0 && d0[k].id == n;
        assert k in kept[key := e];
      }
    }
    forall k | k in kept ensures d0[k].id != d0[key].id {
      if d0[k].id == d0[key].id { IdsApart(d0, y, maxid, k, key); }
    }
  }

  lemma OldIdNew(d0: Dic, y: nat, maxid: nat, kept: Dic, key: Str)
    requires y > 0 && Tiled(d0, y, maxid) && key in d0 && key !in kept
    ensures !SomeId(d0, kept, d0[key].id)
  {
    if SomeId(d0, kept, d0[key].id) {
      var k :| k in kept && k in d0 && d0[k].id == d0[key].id;
      IdsApart(d0, y, maxid, k, key);
    }
  }

  lemma NumberedDone(d0: Dic, maxid: nat, freq: nat, keys: seq<Str>, dic: Dic, kept: Dic, old2new: map<nat, nat>,
                     y: nat, newMaxid: nat)
    requires y > 0 && Tiled(d0, y, maxid) && Numbered(d0, freq, keys, |keys|, dic, kept, old2new, y, newMaxid)
    requires forall k :: k in d0 ==> k in keys
    ensures dic == kept && Renames(old2new, d0, dic)
  {
    hide Tiled, Width;
    assert keys[..|keys|] == keys;
    assert dic == kept;
    forall k | k in d0 && d0[k].id in old2new ensures k in kept {
      assert SomeId(d0, kept, d0[k].id);
      if k !in kept { OldIdNew(d0, y, maxid, kept, k); }
    }
  }

  /** The blocks lie in the order of the names. */
  ghost predicate ByName(dic: Dic, y: nat) {
    forall k, k' :: k in dic && k' in dic && k != k' && Leq(k, k') ==> dic[k].id + Width(k, y) <= dic[k'].id
  }

  lemma NoNames(y: nat)
    ensures ByName(map[], y)
  {}

  lemma ByNameMore(d0: Dic, freq: nat, keys: seq<Str>, i: nat, dic: Dic, kept: Dic, old2new: map<nat, nat>, y: nat,
                   newMaxid: nat, e: Entry)
    requires i < |keys| && Sorted(keys) && Numbered(d0, freq, keys, i, dic, kept, old2new, y, newMaxid)
    requires ByName(kept, y) && e.id == newMaxid
    ensures ByName(kept[keys[i] := e], y)
  {
    hide Width, Leq;
    var key := keys[i];
    forall k | k in kept ensures Leq(k, key) && k != key && (Leq(key, k) ==> false) {
      assert k in keys[..i];
      if Leq(key, k) { LeqAntisym(k, key); }
    }
    BlocksBelow(kept, y, newMaxid);
  }

  lemma BlocksBelow(dic: Dic, y: nat, maxid: nat)
    requires Tiled(dic, y, maxid)
    ensures forall k :: k in dic ==> dic[k].id + Width(k, y) <= maxid
  {}

  /** How often the feature has been asked for. */
  ghost function Freq(dic: Dic, k: Str): nat {
    if k in dic then dic[k].freq else 0
  }

  /** How often k occurs in the rows. */
  ghost function Occurrences(rows: seq<seq<Str>>, k: Str): nat {
    if rows == [] then 0 else Occurrences(rows[..|rows| - 1], k) + multiset(rows[|rows| - 1])[k]
  }

  /** d1 has all features of d0, with the same ids. */
  ghost predicate SameIds(d0: Dic, d1: Dic) {
    forall k :: k in d0 ==> k in d1 && d1[k].id == d0[k].id
  }

  lemma SameIdsRefl(d: Dic)
    ensures SameIds(d, d)
  {}

  lemma SameIdsTrans(d0: Dic, d1: Dic, d2: Dic)
    requires SameIds(d0, d1) && SameIds(d1, d2)
    ensures SameIds(d0, d2)
  {}

  /** The cached vectors are those of the features they were made from. */
  ghost predicate Named(d: Dic, names: seq<seq<Str>>, contents: seq<seq<nat>>) {
    && |names| == |contents|
    && forall i :: 0 <= i < |names| ==> AllIn(d, names[i]) && contents[i] == Ids(d, names[i])
  }

  /** Cached vectors stay right while features are only added. */
  lemma StillNamed(d0: Dic, d1: Dic, names: seq<seq<Str>>, contents: seq<seq<nat>>)
    requires Named(d0, names, contents) && SameIds(d0, d1)
    ensures Named(d1, names, contents)
  {
    forall i | 0 <= i < |names| ensures AllIn(d1, names[i]) && contents[i] == Ids(d1, names[i]) {
      assert AllIn(d0, names[i]);
    }
  }

  lemma NamedMore(d: Dic, names: seq<seq<Str>>, contents: seq<seq<nat>>, row: seq<Str>)
    requires Named(d, names, contents) && AllIn(d, row)
    ensures Named(d, names + [row], contents + [Ids(d, row)])
  {}

  /** Of each list of features, those in the dictionary are left, in order. */
  ghost predicate AllKept(d: Dic, names: seq<seq<Str>>, newNames: seq<seq<Str>>) {
    |newNames| == |names| && forall i :: 0 <= i < |names| ==> newNames[i] == Kept(d, names[i])
  }

  ghost function KeptNames(d: Dic, names: seq<seq<Str>>): (r: seq<seq<Str>>)
    ensures AllKept(d, names, r)
  {
    seq(|names|, i requires 0 <= i < |names| => Kept(d, names[i]))
  }

  lemma KeepsAllNames(d: Dic, names: seq<seq<Str>>, contents: seq<seq<nat>>)
    requires Named(d, names, contents)
    ensures AllKept(d, names, names)
  {
    forall i | 0 <= i < |names| ensures names[i] == Kept(d, names[i]) {
      assert AllIn(d, names[i]);
      KeepsAll(d, names[i]);
    }
  }

  /** Renaming all vectors leaves those of the surviving features. */
  lemma RenamedVectors(old2new: map<nat, nat>, d0: Dic, d1: Dic, names: seq<seq<Str>>, contents: seq<seq<nat>>,
                       newNames: seq<seq<Str>>, newContents: seq<seq<nat>>)
    requires Named(d0, names, contents) && Renames(old2new, d0, d1)
    requires AllKept(d1, names, newNames)
    requires |newContents| == |contents| &&
      forall i :: 0 <= i < |contents| ==> newContents[i] == FeatureCache.Renamed(old2new, contents[i])
    ensures Named(d1, newNames, newContents)
  {
    hide Renames;
    forall i | 0 <= i < |names| ensures newContents[i] == Ids(d1, Kept(d1, names[i])) {
      RenamedIds(old2new, d0, d1, names[i]);
    }
  }

  /** The features up to i of a row have been looked up. */
  ghost predicate RowDone(d0: Dic, d: Dic, row: seq<Str>, feature: seq<nat>) {
    && SameIds(d0, d) && AllIn(d, row) && feature == Ids(d, row)
    && forall k :: Freq(d, k) == Freq(d0, k) + multiset(row)[k]
  }

  lemma RowStep(d0: Dic, d1: Dic, d2: Dic, row: seq<Str>, feature: seq<nat>, key: Str, id: nat)
    requires RowDone(d0, d1, row, feature)
    requires key in d2 && id == d2[key].id && d2[key].freq == Freq(d1, key) + 1
    requires forall k :: k in d2 && k != key ==> k in d1 && d2[k] == d1[k]
    requires SameIds(d1, d2)
    ensures RowDone(d0, d2, row + [key], feature + [id])
  {
    forall k ensures Freq(d2, k) == Freq(d0, k) + multiset(row + [key])[k] {
      assert Freq(d1, k) == Freq(d0, k) + multiset(row)[k];
    }
  }

  lemma RowNone(d: Dic)
    ensures RowDone(d, d, [], [])
  {}

  lemma RowAll(d0: Dic, d: Dic, row: seq<Str>, feature: seq<nat>)
    requires RowDone(d0, d, row, feature)
    ensures SameIds(d0, d) && AllIn(d, row) && feature == Ids(d, row)
    ensures forall k :: Freq(d, k) == Freq(d0, k) + multiset(row)[k]
  {}

  /** What strdup copies of a line: everything up to the first NUL. */
  function CString(line: Str): (r: Str)
    ensures r <= line && 0 !in r && (r == line || line[|r|] == 0)
  {
    line[..Text.IndexOf(line, [0])]
  }

  /** A line that openTemplate accepts. */
  ghost predicate Known(line: Str) {
    var t := CString(line);
    t == [] || t[0] == 35 || t[0] == 85 || t[0] == 66
  }

  /** The lines that start with b, in order. */
  ghost function StartingWith(lines: seq<Str>, b: byte): seq<Str> {
    if lines == [] then []
    else
      var t := CString(lines[|lines| - 1]);
      StartingWith(lines[..|lines| - 1], b) + if t != [] && t[0] == b then [t] else []
  }

  lemma NoLines()
    ensures forall b :: StartingWith([], b) == []
  {}

  lemma MoreLines(lines: seq<Str>, i: nat, b: byte)
    requires i < |lines|
    ensures var t := CString(lines[i]);
      if t != [] && t[0] == b then StartingWith(lines[..i + 1], b) == StartingWith(lines[..i], b) + [t]
      else StartingWith(lines[..i + 1], b) == StartingWith(lines[..i], b)
  {
    assert lines[..i + 1][..i] == lines[..i];
  }

  lemma MoreTemplates(ts: seq<Str>, t: Str, b: byte)
    requires 0 !in t && t != [] && t[0] == b
    ensures Templates(ts, b) ==> Templates(ts + [t], b)
  {}

  lemma BelowMore(pss: seq<Pieces>, i: nat, n: nat, n': nat)
    requires i < |pss| && AllBelow(pss[..i], n) && n <= n'
    ensures AllBelow(pss[..i], n') && (ColumnsBelow(pss[i], n') ==> AllBelow(pss[..i + 1], n'))
  {
    assert pss[..i + 1] == pss[..i] + [pss[i]];
    forall j | 0 <= j < i ensures ColumnsBelow(pss[..i][j], n') { assert ColumnsBelow(pss[..i][j], n); }
  }

  lemma BelowGrows(pss: seq<Pieces>, n: nat, n': nat)
    requires AllBelow(pss, n) && n <= n'
    ensures AllBelow(pss, n')
  {
    forall j | 0 <= j < |pss| ensures ColumnsBelow(pss[j], n') { assert ColumnsBelow(pss[j], n); }
  }

  /** Reading the rows has taken dictionary d0 and names0 to d and names. */
  ghost predicate RowsRead(d0: Dic, names0: seq<seq<Str>>, d: Dic, names: seq<seq<Str>>, rows: seq<seq<Str>>) {
    && SameIds(d0, d) && names == names0 + rows
    && forall k :: Freq(d, k) == Freq(d0, k) + Occurrences(rows, k)
  }

  lemma NoRowsRead(d: Dic, names: seq<seq<Str>>)
    ensures RowsRead(d, names, d, names, [])
  {
    SameIdsRefl(d);
  }

  lemma OneMoreRow(d0: Dic, names0: seq<seq<Str>>, d: Dic, names: seq<seq<Str>>, rows: seq<seq<Str>>, d': Dic,
                   row: seq<Str>)
    requires RowsRead(d0, names0, d, names, rows) && SameIds(d, d')
    requires forall k :: Freq(d', k) == Freq(d, k) + multiset(row)[k]
    ensures RowsRead(d0, names0, d', names + [row], rows + [row])
  {
    hide SameIds, Freq;
    SameIdsTrans(d0, d, d');
    assert (rows + [row])[..|rows|] == rows;
    assert names0 + (rows + [row]) == names + [row];
  }

  lemma AllRowsRead(d0: Dic, names0: seq<seq<Str>>, d: Dic, names: seq<seq<Str>>, rows: seq<seq<Str>>)
    requires RowsRead(d0, names0, d, names, rows)
    ensures SameIds(d0, d) && names == names0 + rows && names[..|names0|] == names0
    ensures forall k :: Freq(d, k) == Freq(d0, k) + Occurrences(rows, k)
  {}

  /** A row that cannot be read may still have changed the dictionary. */
  lemma StoppedReading(d0: Dic, names0: seq<seq<Str>>, d: Dic, names: seq<seq<Str>>, rows: seq<seq<Str>>, d': Dic)
    requires RowsRead(d0, names0, d, names, rows) && SameIds(d, d')
    ensures SameIds(d0, d') && |names| >= |names0| && names[..|names0|] == names0
  {
    SameIdsTrans(d0, d, d');
  }

  /** Ids are smaller than the number of ids. */
  lemma IdsBelow(dic: Dic, y: nat, maxid: nat, keys: seq<Str>, vals: seq<int>, cap: nat)
    requires y > 0 && Tiled(dic, y, maxid) && ValuesOf(dic, keys, vals) && (maxid > 0 ==> cap == maxid - 1)
    ensures forall k :: 0 <= k < |keys| ==> vals[k] <= cap
  {
    hide Width;
    forall k | 0 <= k < |keys| ensures vals[k] <= cap { WidthPositive(keys[k], y); }
  }

  /** Small entries fit 32 bits. */
  lemma SmallFits(units: seq<Unit>, size: nat, cap: nat)
    requires Small(units, size, cap) && size <= |units|
    ensures cap < 0x8000_0000 && 8 * size < 0x1_0000_0000 ==> UnitsFit(units[..size])
  {}

  lemma StringsOf(m: Model)
    ensures TagBytes(m) == Terminated(m.y)
    ensures var s := Terminated(m.unigram + m.bigram); TemplateBytes(m) == s + Padding(|TagBytes(m)| + |s|)
  {}

  /** The file is shorter than 4 GB and the ids fit a signed integer. */
  ghost predicate Fits(m: Model, file: Str) {
    |file| < 0x1_0000_0000 && m.maxid <= 0x8000_0000 && m.xsize < 0x1_0000_0000
  }

  /** Whatever save writes can be read back, if it fits. */
  lemma FitsWritable(c: Codec, m: Model, file: Str, t: Table, dic: Dic)
    requires file == FileBytes(c, m) && m.version == 100
    requires NoNul(m.y) && Templates(m.unigram, 85) && Templates(m.bigram, 66) && |m.alpha| == m.maxid
    requires Holds(m.units, t, dic)
    requires m.maxid <= 0x8000_0000 && 8 * |m.units| < 0x1_0000_0000 ==> UnitsFit(m.units)
    ensures Lawful(c) && IsDouble(c, m.costFactor) && Fits(m, file) ==> Writable(c, m)
  {
    hide Concat, Terminated, UnitsFit, Lawful, Start;
    var ps := Parts(c, m);
    PartAt(ps, 7);
    PartAt(ps, 9);
    PartAt(ps, 10);
    EqualParts(UnitParts(m.units), 8, |m.units|);
    StartsEnds(UnitParts(m.units));
    assert ps[10] == UnitBytes(m.units);
    hide Holds;
  }

  ghost predicate ValuesOf(dic: Dic, keys: seq<Str>, vals: seq<int>) {
    |vals| == |keys| && forall j :: 0 <= j < |keys| ==> keys[j] in dic && vals[j] == dic[keys[j]].id
  }

  /** Keys in ascending order with ids as values can always be packed. */
  lemma Accepted(dic: Dic, keys: seq<Str>, vals: seq<int>)
    requires Sorted(keys) && ValuesOf(dic, keys, vals)
    ensures DA.DoubleArray.Acceptable(keys, DA.Values(vals))
  {}

  lemma Held(dic: Dic, keys: seq<Str>, vals: seq<int>, units: seq<Unit>, t: Table)
    requires ValuesOf(dic, keys, vals) && t.keys == keys && (forall k :: k in keys <==> k in dic)
    requires forall i :: 0 <= i < |vals| ==> t.value(i) == vals[i]
    requires Packed(units, t.begins, keys, t.value)
    ensures Holds(units, t, dic)
  {
    hide Packed;
  }

  /** All parts, one after the other. */
  method Write(c: Codec, costFactor: real, maxid: nat, xsize: nat, yStr: Str, templStr: Str, units: seq<Unit>,
               alpha: seq<real>, ghost m: Model) returns (file: Str)
    requires m == Model(100, costFactor, maxid, xsize, m.y, m.unigram, m.bigram, units, alpha)
    requires yStr == TagBytes(m) && templStr == TemplateBytes(m)
    ensures file == FileBytes(c, m)
  {
    hide Concat, Le32, UnitBytes, FloatBytes, TagBytes, TemplateBytes;
    ConcatNone();
    ghost var ps;
    file, ps := Append([], Le32(100), []);
    file, ps := Append(file, Le32(0), ps);
    file, ps := Append(file, c.double(costFactor), ps);
    file, ps := Append(file, Le32(maxid), ps);
    file, ps := Append(file, Le32(xsize), ps);
    file, ps := Append(file, Le32(8 * |units|), ps);
    file, ps := Append(file, Le32(|yStr|), ps);
    file, ps := Append(file, yStr, ps);
    file, ps := Append(file, Le32(|templStr|), ps);
    file, ps := Append(file, templStr, ps);
    var image := UnitImage(units);
    file, ps := Append(file, image, ps);
    image := FloatImage(c, alpha);
    file, ps := Append(file, image, ps);
    assert ps == Parts(c, m);
  }

  /** The next key is still as it was. */
  lemma NumberedAt(d0: Dic, freq: nat, keys: seq<Str>, i: nat, dic: Dic, kept: Dic, old2new: map<nat, nat>, y: nat,
                   newMaxid: nat)
    requires i < |keys| && Sorted(keys) && keys[i] in d0 && Numbered(d0, freq, keys, i, dic, kept, old2new, y, newMaxid)
    ensures keys[i] in dic && dic[keys[i]] == d0[keys[i]]
  {
    OneMore(keys, i, keys[i]);
  }

  lemma NumberedResult(d0: Dic, freq: nat, keys: seq<Str>, dic: Dic, kept: Dic, old2new: map<nat, nat>, y: nat,
                       newMaxid: nat)
    requires Numbered(d0, freq, keys, |keys|, dic, kept, old2new, y, newMaxid) && dic == kept
    requires forall k :: k in keys <==> k in d0
    ensures Tiled(dic, y, newMaxid)
    ensures forall k :: k in dic <==> k in d0 && d0[k].freq >= freq
    ensures forall k :: k in dic ==> dic[k].freq == d0[k].freq
  {
    assert keys[..|keys|] == keys;
  }

  lemma {:induction false} KeepsAll(dic: Dic, names: seq<Str>)
    requires AllIn(dic, names)
    ensures Kept(dic, names) == names
  {
    if names != [] { KeepsAll(dic, names[..|names| - 1]); }
  }

  class EncoderIndex {
    var y: seq<Str>  // the tags
    var dic: Dic
    var maxid: nat
    const base: FI.FeatureIndex  // the fields of the base class
    var unigram: seq<Str>
    var bigram: seq<Str>
    var xsize: nat
    var maxXsize: nat
    ghost var names: seq<seq<Str>>  // the features behind each cached vector

    ghost predicate Valid()
      reads this, base, base.cache, base.cache.list, base.cache.mem
      reads base.nodeArena, base.nodeArena.list, base.pathArena, base.pathArena.list
    {
      && base.Valid() && base.y == |y| > 0 && Tiled(dic, |y|, maxid) && Named(dic, names, base.cache.contents)
      && NoNul(y) && Templates(unigram, 85) && Templates(bigram, 66)
    }

    /** The tags and the number of columns are given; the source takes them from the training data. */
    constructor (y: seq<Str>, xsize: nat, nodeSize: nat, pathSize: nat, cacheSize: nat)
      requires |y| > 0 && NoNul(y) && nodeSize > 1 && pathSize > 1
      ensures Valid() && this.y == y && dic == map[] && maxid == 0 && names == [] && fresh(base) && fresh(base.cache)
      ensures fresh(base.nodeArena) && fresh(base.nodeArena.list) && fresh(base.pathArena) && fresh(base.pathArena.list)
      ensures base.nodeArena.owned == {} && base.pathArena.owned == {}
      ensures unigram == bigram == [] && base.cache.contents == [] && base.cache.list.size == cacheSize
      ensures this.xsize == xsize && maxXsize == 0 && base.costFactor == 1.0
      ensures fresh(base.cache.list) && base.cache.mem == []
    {
      this.y, this.xsize := y, xsize;
      dic, maxid, names := map[], 0, [];
      unigram, bigram, maxXsize := [], [], 0;
      base := new FI.FeatureIndex(|y|, nodeSize, pathSize, cacheSize);
    }

    /** openTemplate: empty lines and comments are skipped, every other line must start with U or B. */
    method OpenTemplate(lines: seq<Str>) returns (ok: bool)
      modifies `unigram, `bigram
      ensures old(Templates(unigram, 85) && Templates(bigram, 66)) ==> Templates(unigram, 85) && Templates(bigram, 66)
      ensures ok <==> forall i :: 0 <= i < |lines| ==> Known(lines[i])
      ensures ok ==> unigram == old(unigram) + StartingWith(lines, 85)
      ensures ok ==> bigram == old(bigram) + StartingWith(lines, 66)
    {
      hide StartingWith, Templates;
      NoLines();
      for i := 0 to |lines|
        invariant old(Templates(unigram, 85) && Templates(bigram, 66)) ==>
          Templates(unigram, 85) && Templates(bigram, 66)
        invariant forall j :: 0 <= j < i ==> Known(lines[j])
        invariant unigram == old(unigram) + StartingWith(lines[..i], 85)
        invariant bigram == old(bigram) + StartingWith(lines[..i], 66)
      {
        MoreLines(lines, i, 85);
        MoreLines(lines, i, 66);
        var line := CString(lines[i]);
        if line == [] || line[0] == 35 { continue; }
        if line[0] == 85 {
          MoreTemplates(unigram, line, 85);
          unigram := unigram + [line];
        } else if line[0] == 66 {
          MoreTemplates(bigram, line, 66);
          bigram := bigram + [line];
        } else {
          return false;
        }
      }
      assert lines[..|lines|] == lines;
      return true;
    }

    /** getID: the id of a known feature, or a new block; either way the request is counted. */
    method GetID(key: Str) returns (n: nat)
      requires |y| > 0 && Tiled(dic, |y|, maxid)
      modifies `dic, `maxid
      ensures Tiled(dic, |y|, maxid)
      ensures key in dic && n == dic[key].id && dic[key].freq == Freq(old(dic), key) + 1
      ensures key !in old(dic) ==>
        n == old(maxid) && maxid == old(maxid) + if key != [] && key[0] == 85 then |y| else |y| * |y|
      ensures key in old(dic) ==> n == old(dic)[key].id && maxid == old(maxid)
      ensures forall k :: k in dic && k != key ==> k in old(dic) && dic[k] == old(dic)[k]
      ensures SameIds(old(dic), dic)
    {
      hide Tiled, Width;
      if key !in dic {
        TiledAdd(dic, |y|, maxid, key, 1);
        dic := dic[key := Entry(maxid, 1)];
        n := maxid;
        WidthIs(key, |y|);
        maxid := maxid + if key != [] && key[0] == 85 then |y| else |y| * |y|;
      } else {
        TiledCount(dic, |y|, maxid, key, dic[key].freq + 1);
        dic := dic[key := Entry(dic[key].id, dic[key].freq + 1)];
        n := dic[key].id;
      }
    }

    /** One token, or one pair of neighbours: expand the templates one after the other, and look each feature up. */
    method RowFeatures(templs: seq<Str>, pos: nat, x: Sentence, ghost pss: seq<Pieces>)
      returns (ok: bool, feature: seq<nat>)
      requires |y| > 0 && Tiled(dic, |y|, maxid) && pos < |x| && Columns(x, xsize) && Parsed(templs, pss)
      modifies `dic, `maxid, `maxXsize
      ensures Tiled(dic, |y|, maxid) && SameIds(old(dic), dic) && maxXsize >= old(maxXsize)
      ensures maxXsize == old(maxXsize) || SomeUses(pss, maxXsize)
      ensures ok <==> Expands(pss, pos, x, xsize)
      ensures ok ==> RowDone(old(dic), dic, RowNames(pss, pos, x, xsize), feature) && AllBelow(pss, maxXsize)
    {
      hide Tiled, RowDone, SameIds, Columns, Expansion, ColumnsBelow, Is, Uses;
      feature := [];
      ghost var row: seq<Str> := [];
      RowNone(dic);
      for i := 0 to |templs|
        invariant Tiled(dic, |y|, maxid) && RowDone(old(dic), dic, row, feature) && maxXsize >= old(maxXsize)
        invariant |row| == i && forall j :: 0 <= j < i ==> Expansion(pss[j], pos, x, xsize) == Some(row[j])
        invariant AllBelow(pss[..i], maxXsize) && (maxXsize == old(maxXsize) || SomeUses(pss, maxXsize))
      {
        var os, max := ApplyRule(templs[i], pos, x, xsize, maxXsize, pss[i]);
        BelowMore(pss, i, maxXsize, max);
        maxXsize := max;
        if os.None? {
          RowAll(old(dic), dic, row, feature);
          return false, [];
        }
        ghost var before := dic;
        var id := GetID(os.value);
        RowStep(old(dic), before, dic, row, feature, os.value, id);
        row := row + [os.value];
        feature := feature + [id];
      }
      assert pss[..|pss|] == pss;
      RowAll(old(dic), dic, row, feature);
      ok := true;
      assert row == RowNames(pss, pos, x, xsize);
    }

    /** The vector of one row goes into the cache. */
    method BuildRow(templs: seq<Str>, pos: nat, x: Sentence, ghost pss: seq<Pieces>) returns (ok: bool)
      requires Valid() && |templs| + 1 < base.cache.list.size && pos < |x| && Columns(x, xsize) && Parsed(templs, pss)
      modifies `dic, `maxid, `names, `maxXsize, base.cache, base.cache.list, base.cache.mem
      ensures Valid() && SameIds(old(dic), dic) && maxXsize >= old(maxXsize)
      ensures maxXsize == old(maxXsize) || SomeUses(pss, maxXsize)
      ensures ok <==> Expands(pss, pos, x, xsize)
      ensures !ok ==> names == old(names)
      ensures ok ==> names == old(names) + [RowNames(pss, pos, x, xsize)] && AllBelow(pss, maxXsize)
      ensures ok ==> forall k :: Freq(dic, k) == Freq(old(dic), k) + multiset(RowNames(pss, pos, x, xsize))[k]
      ensures forall k :: 0 <= k < |base.cache.mem| ==>
        base.cache.mem[k] in old(base.cache.mem) || fresh(base.cache.mem[k])
    {
      hide Tiled, FeatureCache.FeatureCache.Valid, FI.Arena.Valid, SameIds, AllIn, Ids, Freq, Named, Columns, Expands;
      hide Parsed, AllBelow, RowNames, RowDone, SomeUses;
      var feature;
      ok, feature := RowFeatures(templs, pos, x, pss);
      StillNamed(old(dic), dic, names, base.cache.contents);
      if !ok { return; }
      ghost var row := RowNames(pss, pos, x, xsize);
      RowAll(old(dic), dic, row, feature);
      NamedMore(dic, names, base.cache.contents, row);
      RowLength(templs, pss);
      base.cache.Add(feature);
      names := names + [row];
    }

    /** One of the two loops of buildFeatures: the rows from position first on. */
    method BuildRows(templs: seq<Str>, first: nat, x: Sentence, ghost pss: seq<Pieces>) returns (ok: bool)
      requires Valid() && |templs| + 1 < base.cache.list.size && first <= |x| && Columns(x, xsize)
      requires Parsed(templs, pss)
      modifies `dic, `maxid, `names, `maxXsize, base.cache, base.cache.list, base.cache.mem
      ensures Valid() && SameIds(old(dic), dic) && maxXsize >= old(maxXsize)
      ensures maxXsize == old(maxXsize) || SomeUses(pss, maxXsize)
      ensures ok <==> ExpandsFrom(pss, first, |x|, x, xsize)
      ensures |names| >= |old(names)| && names[..|old(names)|] == old(names)
      ensures ok ==> names == old(names) + RowsFrom(pss, first, |x|, x, xsize)
      ensures ok && first < |x| ==> AllBelow(pss, maxXsize)
      ensures ok ==> forall k :: Freq(dic, k) == Freq(old(dic), k) + Occurrences(RowsFrom(pss, first, |x|, x, xsize), k)
      ensures forall k :: 0 <= k < |base.cache.mem| ==>
        base.cache.mem[k] in old(base.cache.mem) || fresh(base.cache.mem[k])
    {
      hide Tiled, FI.FeatureIndex.Valid, SameIds, Freq, Named, Columns, Expands, Parsed, AllBelow, RowNames, RowsRead;
      hide Templates, NoNul, SomeUses;
      NoRowsRead(dic, names);
      assert RowsFrom(pss, first, first, x, xsize) == [];
      for pos := first to |x|
        invariant Valid() && maxXsize >= old(maxXsize) && (maxXsize == old(maxXsize) || SomeUses(pss, maxXsize))
        invariant ExpandsFrom(pss, first, pos, x, xsize) && (pos > first ==> AllBelow(pss, maxXsize))
        invariant RowsRead(old(dic), old(names), dic, names, RowsFrom(pss, first, pos, x, xsize))
        invariant forall k :: 0 <= k < |base.cache.mem| ==>
          base.cache.mem[k] in old(base.cache.mem) || fresh(base.cache.mem[k])
      {
        ghost var d, ns, rows := dic, names, RowsFrom(pss, first, pos, x, xsize);
        ok := BuildRow(templs, pos, x, pss);
        if !ok {
          StoppedReading(old(dic), old(names), d, ns, rows, dic);
          return;
        }
        OneMoreRow(old(dic), old(names), d, ns, rows, dic, RowNames(pss, pos, x, xsize));
        assert RowsFrom(pss, first, pos + 1, x, xsize) == rows + [RowNames(pss, pos, x, xsize)];
      }
      AllRowsRead(old(dic), old(names), dic, names, RowsFrom(pss, first, |x|, x, xsize));
      ok := true;
    }

    /** buildFeatures while training: every template is expanded at every token, or pair of neighbours, every feature
        gets an id and is counted, and the cache gains the vectors. It fails if a template reaches too far. */
    method BuildFeatures(x: Sentence, ghost us: seq<Pieces>, ghost bs: seq<Pieces>) returns (ok: bool, fid: nat)
      requires Valid() && Columns(x, xsize) && Parsed(unigram, us) && Parsed(bigram, bs)
      requires |unigram| + 1 < base.cache.list.size && |bigram| + 1 < base.cache.list.size
      modifies `dic, `maxid, `names, `maxXsize, base.cache, base.cache.list, base.cache.mem
      ensures Valid() && SameIds(old(dic), dic) && fid == old(|base.cache.contents|) && fid == old(|names|)
      ensures maxXsize >= old(maxXsize)
      ensures maxXsize == old(maxXsize) || SomeUses(us, maxXsize) || SomeUses(bs, maxXsize)
      ensures ok <==> SentenceExpands(us, bs, x, xsize)
      ensures |names| >= fid && names[..fid] == old(names)
      ensures ok && |x| > 0 ==> var ns := SentenceNames(us, bs, x, xsize);
        && names == old(names) + ns.uni + ns.bi && ColumnsCovered(us, bs, |x|, maxXsize)
        && forall k :: Freq(dic, k) == Freq(old(dic), k) + Occurrences(ns.uni, k) + Occurrences(ns.bi, k)
      ensures ok && |x| == 0 ==> names == old(names) && forall k :: Freq(dic, k) == Freq(old(dic), k)
      ensures forall k :: 0 <= k < |base.cache.mem| ==>
        base.cache.mem[k] in old(base.cache.mem) || fresh(base.cache.mem[k])
    {
      hide Tiled, FI.FeatureIndex.Valid, SameIds, Freq, Named, Columns, Parsed, RowNames, Expands, AllBelow;
      hide Templates, NoNul, SomeUses;
      fid := |base.cache.vectors|;
      Sizes();
      ok := BuildRows(unigram, 0, x, us);
      if !ok { return; }
      if |x| == 0 {
        assert RowsFrom(us, 0, 0, x, xsize) == [];
        return;
      }
      ghost var middle, n := dic, maxXsize;
      ok := BuildRows(bigram, 1, x, bs);
      SameIdsTrans(old(dic), middle, dic);
      BelowGrows(us, n, maxXsize);
      if ok { SentenceRows(us, bs, x, xsize); }
    }

    lemma Sizes()
      requires Valid()
      ensures |base.cache.vectors| == |base.cache.contents| == |names|
    {
      base.cache.SameSize();
    }

    /** shrink: features asked for less than freq times are dropped, the others renumbered in the order of their names,
        and every cached vector is rewritten. */
    method Shrink(freq: nat)
      requires Valid()
      modifies `dic, `maxid, `names, base.cache`contents, base.cache.mem
      ensures Valid()
      ensures freq <= 1 ==>
        dic == old(dic) && maxid == old(maxid) && names == old(names) && base.cache.contents == old(base.cache.contents)
      ensures freq > 1 ==> forall k :: k in dic <==> k in old(dic) && old(dic)[k].freq >= freq
      ensures forall k :: k in dic ==> dic[k].freq == old(dic)[k].freq
      ensures AllKept(dic, old(names), names)
      ensures freq > 1 ==> ByName(dic, |y|)
    {
      hide Tiled, Width, FeatureCache.FeatureCache.Valid, FI.Arena.Valid, Named, Renames, AllKept, ByName;
      if freq <= 1 {
        KeepsAllNames(dic, names, base.cache.contents);
        return;
      }
      ghost var d0 := dic;
      var keys := Ascending(dic.Keys);
      var old2new := Renumber(keys, freq);
      ShrinkCache(old2new, d0);
    }

    /** Every vector is rewritten. */
    method ShrinkCache(old2new: map<nat, nat>, ghost d0: Dic)
      requires base.cache.Valid() && Named(d0, names, base.cache.contents) && Renames(old2new, d0, dic)
      modifies `names, base.cache`contents, base.cache.mem
      ensures base.cache.Valid() && Named(dic, names, base.cache.contents) && AllKept(dic, old(names), names)
    {
      hide Tiled, Width, FeatureCache.FeatureCache.Valid, FI.Arena.Valid, Named, Renames, AllKept;
      ghost var was, contents := names, base.cache.contents;
      base.cache.Shrink(old2new);
      names := KeptNames(dic, was);
      RenamedVectors(old2new, d0, dic, was, contents, names, base.cache.contents);
    }

    /** The loop over the dictionary. */
    method Renumber(keys: seq<Str>, freq: nat) returns (old2new: map<nat, nat>)
      requires |y| > 0 && Tiled(dic, |y|, maxid) && Sorted(keys) && forall k :: k in keys <==> k in dic
      modifies `dic, `maxid
      ensures Tiled(dic, |y|, maxid) && Renames(old2new, old(dic), dic) && ByName(dic, |y|)
      ensures forall k :: k in dic <==> k in old(dic) && old(dic)[k].freq >= freq
      ensures forall k :: k in dic ==> dic[k].freq == old(dic)[k].freq
    {
      hide Tiled, Width, Sorted, Numbered, ByName, Renames;
      var newMaxid: nat := 0;
      old2new := map[];
      ghost var d0, kept: Dic := dic, map[];
      NumberedStart(d0, freq, keys, |y|);
      NoNames(|y|);
      for i := 0 to |keys|
        invariant ByName(kept, |y|)
        invariant maxid == old(maxid) && Numbered(d0, freq, keys, i, dic, kept, old2new, |y|, newMaxid)
      {
        var key := keys[i];
        NumberedAt(d0, freq, keys, i, dic, kept, old2new, |y|, newMaxid);
        if dic[key].freq >= freq {
          NumberedKeep(d0, maxid, freq, keys, i, dic, kept, old2new, |y|, newMaxid);
          ByNameMore(d0, freq, keys, i, dic, kept, old2new, |y|, newMaxid, Entry(newMaxid, dic[key].freq));
          if dic[key].id !in old2new { old2new := old2new[dic[key].id := newMaxid]; }
          kept := kept[key := Entry(newMaxid, dic[key].freq)];
          dic := dic[key := Entry(newMaxid, dic[key].freq)];
          WidthIs(key, |y|);
          newMaxid := newMaxid + if key != [] && key[0] == 85 then |y| else |y| * |y|;
        } else {
          NumberedDrop(d0, freq, keys, i, dic, kept, old2new, |y|, newMaxid);
          dic := dic - {key};
        }
      }
      NumberedDone(d0, maxid, freq, keys, dic, kept, old2new, |y|, newMaxid);
      NumberedResult(d0, freq, keys, dic, kept, old2new, |y|, newMaxid);
      maxid := newMaxid;
    }

    /** save: the file holds tags, templates, sizes, the dictionary as a double array, and the weights. */
    method Save(c: Codec) returns (ok: bool, file: Str, ghost m: Model, ghost t: Table)
      requires Valid() && |base.alpha| >= maxid
      modifies `xsize
      ensures xsize == if maxXsize > 0 && maxXsize < old(xsize) then maxXsize else old(xsize)
      ensures Valid() && ok && file == FileBytes(c, m)
      ensures m == Model(100, base.costFactor, maxid, xsize, y, unigram, bigram, m.units, base.alpha[..maxid])
      ensures if dic == map[] then m.units == [] else Holds(m.units, t, dic)
      ensures dic != map[] && Lawful(c) && IsDouble(c, base.costFactor) && Fits(m, file) ==> Writable(c, m)
    {
      hide Tiled, Holds, UnitsFit, Lawful, Writable, Fits, Templates, NoNul, TagBytes, TemplateBytes, FileBytes, Width;
      hide FeatureCache.FeatureCache.Valid, FI.Arena.Valid, Named, FI.FeatureIndex.Valid, Terminated, Padding, IsDouble;
      var yStr, templStr := Strings();
      var units;
      ok, units, t := BuildArray();
      if !ok { return false, [], m, t; }
      if maxXsize > 0 { xsize := if xsize < maxXsize then xsize else maxXsize; }
      m := Model(100, base.costFactor, maxid, xsize, y, unigram, bigram, units, base.alpha[..maxid]);
      StringsOf(m);
      file := Write(c, base.costFactor, maxid, xsize, yStr, templStr, units, base.alpha[..maxid], m);
      if dic != map[] { FitsWritable(c, m, file, t, dic); }
    }

    /** The tags and the templates as text. */
    method Strings() returns (yStr: Str, templStr: Str)
      ensures yStr == Terminated(y)
      ensures templStr == Terminated(unigram + bigram) + Padding(|yStr| + |Terminated(unigram + bigram)|)
    {
      hide Concat, Terminated;
      TerminatedNone();
      yStr := AddStrings([], [], y);
      templStr := AddStrings([], [], unigram);
      assert [] + y == y && [] + unigram == unigram;
      templStr := AddStrings(templStr, unigram, bigram);
      templStr := AddPadding(|yStr|, templStr);
    }

    /** The double array of all features and their ids; building it never fails. */
    method BuildArray() returns (ok: bool, units: seq<Unit>, ghost t: Table)
      requires |y| > 0 && Tiled(dic, |y|, maxid)
      ensures ok
      ensures if dic == map[] then units == [] else Holds(units, t, dic)
      ensures dic != map[] && maxid <= 0x8000_0000 && 8 * |units| < 0x1_0000_0000 ==> UnitsFit(units)
    {
      hide Ascending, Sorted, Packed, Holds, DA.DoubleArray.Acceptable, Tiled, Small;
      var keys := Ascending(dic.Keys);
      var vals: seq<int> := [];
      for i := 0 to |keys|
        invariant ValuesOf(dic, keys[..i], vals)
      {
        assert keys[i] in dic && keys[..i + 1] == keys[..i] + [keys[i]];
        vals := vals + [dic[keys[i]].id];
      }
      assert keys[..|keys|] == keys;
      Accepted(dic, keys, vals);
      var da := new DA.DoubleArray();
      ghost var cap := if maxid > 0 then maxid - 1 else 0;
      var r := da.Build(keys, DA.Values(vals), cap);
      t := Table(da.begins, keys, da.Value());
      if keys == [] {
        assert dic.Keys == {};
        return true, [], t;
      }
      ok, units := r == 0, da.units[..da.size];
      Held(dic, keys, vals, units, t);
      IdsBelow(dic, |y|, maxid, keys, vals, cap);
      assert da.Capped(cap);
      SmallFits(da.units, da.size, cap);
    }
  }
}
