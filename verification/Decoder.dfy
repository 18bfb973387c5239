/** A dictionary inside a double array. */
module DicArray {
  import opened Bytes
  import opened ArrayState
  import opened ArraySearch
  import opened Dictionary

  /** What a double array was built from, and where its nodes start. */
  datatype Table = Table(begins: map<Str, nat>, keys: seq<Str>, value: int -> int)

  /** The array holds exactly the features of the dictionary, with their ids as values. */
  ghost predicate Holds(units: seq<Unit>, t: Table, dic: Dic) {
    && Packed(units, t.begins, t.keys, t.value)
    && (forall k :: k in t.keys <==> k in dic)
    && forall i :: 0 <= i < |t.keys| ==> t.keys[i] in dic && t.value(i) == dic[t.keys[i]].id
  }

  /** A search for a feature finds its id, and one for anything else finds nothing. */
  lemma HeldLookup(units: seq<Unit>, t: Table, dic: Dic, key: Str)
    requires Holds(units, t, dic)
    ensures Lookup(t.keys, t.value, key) == if key in dic then dic[key].id else -1
  {
    if key in dic { var i := LookupSome(t.keys, t.value, key); }
  }
}

/** feature_index.cpp, decoding side: opening a model file. */
module Decoder {
  import opened Bytes
  import opened ArrayState
  import opened ArraySearch
  import opened Dictionary
  import opened ModelFile
  import opened ModelReader
  import opened Template
  import opened Sentences
  import opened Options
  import opened DicArray
  import DA = DoubleArray
  import FI = FeatureIndex
  import FC = FeatureCache

  /** read_static and read_ptr: the next n bytes. */
  method ReadPart(file: Str, ptr: nat, n: nat, ghost ps: seq<Str>, ghost k: nat) returns (r: Option<Str>)
    ensures r.Some? ==> ptr + n <= |file| && |r.value| == n
    ensures file == Concat(ps) && k < |ps| && ptr == Start(ps, k) && n == |ps[k]| ==>
      r == Some(ps[k]) && ptr + n == Start(ps, k + 1)
  {
    hide Concat, Start;
    if k < |ps| { PartAt(ps, k); }
    if ptr + n > |file| { return None; }
    r := Some(file[ptr..ptr + n]);
  }

  /** The units of an image, as the pointer cast of set_array sees them. */
  method ReadUnits(image: Str, ghost units: seq<Unit>) returns (us: seq<Unit>)
    ensures image == UnitBytes(units) && UnitsFit(units) ==> us == units
  {
    hide UnitBytes;
    us := [];
    UnitsSize(image, units);
    while 8 * |us| + 8 <= |image|
      invariant 8 * |us| <= |image|
      invariant image == UnitBytes(units) && UnitsFit(units) ==> |us| <= |units| && us == units[..|us|]
      decreases |image| - 8 * |us|
    {
      hide UnitsFit;
      UnitBack(image, units, |us|);
      var u := ReadUnit(image[8 * |us|..8 * |us| + 8]);
      us := us + [u];
    }
  }

  lemma UnitsSize(image: Str, units: seq<Unit>)
    ensures image == UnitBytes(units) ==> |image| == 8 * |units|
  {
    EqualParts(UnitParts(units), 8, |units|);
    StartsEnds(UnitParts(units));
  }

  lemma UnitBack(image: Str, units: seq<Unit>, i: nat)
    requires 8 * i + 8 <= |image|
    ensures image == UnitBytes(units) && UnitsFit(units) ==>
      i < |units| && ReadUnit(image[8 * i..8 * i + 8]) == units[i]
  {
    hide Concat;
    UnitsSize(image, units);
    if image == UnitBytes(units) && UnitsFit(units) {
      EqualParts(UnitParts(units), 8, i);
      PartAt(UnitParts(units), i);
      ReadUnitBack(units[i]);
    }
  }

  /** The weights, as floats. */
  method ReadFloats(c: Codec, image: Str, n: nat, ghost alpha: seq<real>) returns (ws: seq<real>)
    requires |image| == 4 * n
    ensures Lawful(c) && image == FloatBytes(c, alpha) ==>
      |ws| == |alpha| && forall i :: 0 <= i < |ws| ==> ws[i] == ToFloat(c, alpha[i])
  {
    hide FloatBytes, Lawful;
    ws := [];
    while |ws| < n
      invariant |ws| <= n
      invariant Lawful(c) && image == FloatBytes(c, alpha) ==>
        |ws| <= |alpha| && forall i :: 0 <= i < |ws| ==> ws[i] == ToFloat(c, alpha[i])
    {
      FloatBack(c, image, alpha, |ws|);
      ws := ws + [c.readFloat(image[4 * |ws|..4 * |ws| + 4])];
    }
    FloatsSize(c, image, alpha);
  }

  lemma FloatSize(c: Codec, x: real)
    requires Lawful(c)
    ensures |c.float(x)| == 4
  {}

  lemma FloatPartSize(c: Codec, alpha: seq<real>)
    requires Lawful(c)
    ensures forall i :: 0 <= i < |FloatParts(c, alpha)| ==> |FloatParts(c, alpha)[i]| == 4
  {
    forall i | 0 <= i < |FloatParts(c, alpha)| ensures |FloatParts(c, alpha)[i]| == 4 {
      FloatSize(c, alpha[i]);
    }
  }

  lemma FloatsSize(c: Codec, image: Str, alpha: seq<real>)
    ensures Lawful(c) && image == FloatBytes(c, alpha) ==> |image| == 4 * |alpha|
  {
    if Lawful(c) {
      FloatPartSize(c, alpha);
      EqualParts(FloatParts(c, alpha), 4, |alpha|);
    }
    StartsEnds(FloatParts(c, alpha));
  }

  lemma FloatBack(c: Codec, image: Str, alpha: seq<real>, i: nat)
    requires 4 * i + 4 <= |image|
    ensures Lawful(c) && image == FloatBytes(c, alpha) ==>
      i < |alpha| && c.readFloat(image[4 * i..4 * i + 4]) == ToFloat(c, alpha[i])
  {
    hide Concat;
    FloatsSize(c, image, alpha);
    if Lawful(c) && image == FloatBytes(c, alpha) {
      FloatPartSize(c, alpha);
      EqualParts(FloatParts(c, alpha), 4, i);
      PartAt(FloatParts(c, alpha), i);
    }
  }

  /** The model is one that save wrote for dictionary d, and the file holds its bytes. */
  ghost predicate Saved(c: Codec, file: Str, m: Model, t: Table, d: Dic) {
    file == FileBytes(c, m) && Writable(c, m) && Holds(m.units, t, d)
  }

  lemma HeaderParts(c: Codec, file: Str, m: Model, t: Table, d: Dic)
    ensures Saved(c, file, m, t, d) ==> var ps := Parts(c, m);
      && file == Concat(ps) && Start(ps, 0) == 0 && |ps| == 12
      && |ps[0]| == |ps[1]| == |ps[3]| == |ps[4]| == |ps[5]| == |ps[6]| == 4 && |ps[2]| == 8
      && ReadLe32(ps[0]) == m.version && c.readDouble(ps[2]) == m.costFactor && ReadLe32(ps[3]) == m.maxid
      && ReadLe32(ps[4]) == m.xsize && ReadLe32(ps[5]) == 8 * |m.units| && ReadLe32(ps[6]) == |TagBytes(m)|
  {
    hide Holds, UnitsFit, TagBytes, TemplateBytes, Start, Concat;
    StartsEnds(Parts(c, m));
    Le32RoundTrip(m.version);
    Le32RoundTrip(m.maxid);
    Le32RoundTrip(m.xsize);
    Le32RoundTrip(8 * |m.units|);
    Le32RoundTrip(|TagBytes(m)|);
  }

  lemma StringParts(c: Codec, file: Str, m: Model, t: Table, d: Dic)
    ensures Saved(c, file, m, t, d) ==> var ps := Parts(c, m);
      && file == Concat(ps) && |ps| == 12 && |ps[8]| == 4 && ReadLe32(ps[8]) == |TemplateBytes(m)|
      && |TagBytes(m)| == |Terminated(m.y)| && HasStrings(file, 32, m.y)
      && 32 + |TagBytes(m)| == Start(ps, 8)
      && HasTemplates(file, Start(ps, 9), |TemplateBytes(m)|, m.unigram, m.bigram)
      && Start(ps, 9) + |TemplateBytes(m)| == Start(ps, 10)
  {
    if Saved(c, file, m, t, d) {
      TagsPlaced(c, file, m);
      TemplatesPlaced(c, file, m);
      Le32RoundTrip(|TemplateBytes(m)|);
    }
  }

  /** The parts before the tags take 32 bytes. */
  lemma HeaderSize(c: Codec, m: Model)
    requires Lawful(c)
    ensures Start(Parts(c, m), 7) == 32
  {
    hide Concat, Start, TagBytes, TemplateBytes, UnitBytes, FloatBytes, Le32;
    var ps := Parts(c, m);
    StartsEnds(ps);
    PartAt(ps, 0); PartAt(ps, 1); PartAt(ps, 2); PartAt(ps, 3);
    PartAt(ps, 4); PartAt(ps, 5); PartAt(ps, 6);
    assert |c.double(m.costFactor)| == 8;
  }

  lemma TagsPlaced(c: Codec, file: Str, m: Model)
    requires file == FileBytes(c, m) && Writable(c, m)
    ensures HasStrings(file, 32, m.y) && 32 + |TagBytes(m)| == Start(Parts(c, m), 8)
  {
    hide Concat, Start, UnitsFit, TemplateBytes, Lawful, Terminated;
    HeaderSize(c, m);
    PartAt(Parts(c, m), 7);
  }

  lemma TemplatesPlaced(c: Codec, file: Str, m: Model)
    requires file == FileBytes(c, m) && Writable(c, m)
    ensures HasTemplates(file, Start(Parts(c, m), 9), |TemplateBytes(m)|, m.unigram, m.bigram)
    ensures Start(Parts(c, m), 9) + |TemplateBytes(m)| == Start(Parts(c, m), 10)
  {
    hide Concat, Start, UnitsFit, TagBytes, Terminated, Lawful, Padding, UnitBytes;
    var ps, all := Parts(c, m), m.unigram + m.bigram;
    var s := Terminated(all);
    PartAt(ps, 9);
    PartAt(ps, 10);
    FirstUnit(m.units);
    Padded(file, Start(ps, 9), s, Padding(|TagBytes(m)| + |s|), UnitBytes(m.units));
  }

  /** Where a text, its padding, and what follows are in the file. */
  lemma Padded(file: Str, a: nat, s: Str, pad: Str, next: Str)
    requires |next| >= 2 && a + |s| + |pad| + |next| <= |file| && forall i :: 0 <= i < |pad| ==> pad[i] == 0
    requires file[a..a + |s| + |pad|] == s + pad
    requires file[a + |s| + |pad|..a + |s| + |pad| + |next|] == next
    ensures file[a..a + |s|] == s && forall i :: a + |s| <= i < a + |s| + |pad| ==> file[i] == 0
    ensures file[a + |s| + |pad|] == next[0] && file[a + |s| + |pad| + 1] == next[1]
  {
    var b := a + |s| + |pad|;
    var x, z := file[a..b], file[b..b + |next|];
    assert file[a..a + |s|] == x[..|s|] == s;
    forall i | a + |s| <= i < b ensures file[i] == 0 { assert file[i] == x[i - a] == pad[i - a - |s|]; }
    assert file[b] == z[0] && file[b + 1] == z[1];
  }

  /** The image of an array with the root's base at the start: the bytes 1, 0, ... */
  lemma FirstUnit(units: seq<Unit>)
    requires |units| > 0 && units[0].base == 1
    ensures |UnitBytes(units)| >= 8 && UnitBytes(units)[0] == 1 && UnitBytes(units)[1] == 0
  {
    hide Concat, Start;
    var ps := UnitParts(units);
    StartsEnds(ps);
    PartAt(ps, 0);
    assert ps[0] == UnitRecord(units[0]);
    assert UnitBytes(units)[0] == UnitBytes(units)[0..8][0] && UnitBytes(units)[1] == UnitBytes(units)[0..8][1];
  }

  lemma ArrayParts(c: Codec, file: Str, m: Model, t: Table, d: Dic)
    ensures Saved(c, file, m, t, d) ==> var ps := Parts(c, m);
      && file == Concat(ps) && |ps| == 12 && Start(ps, 12) == |file| && Lawful(c) && Holds(m.units, t, d)
      && ps[10] == UnitBytes(m.units) && |ps[10]| == 8 * |m.units| && UnitsFit(m.units)
      && ps[11] == FloatBytes(c, m.alpha) && |ps[11]| == 4 * m.maxid
  {
    hide Concat, Start, UnitsFit, TagBytes, TemplateBytes, Lawful, Holds;
    StartsEnds(Parts(c, m));
    UnitsSize(UnitBytes(m.units), m.units);
    FloatsSize(c, FloatBytes(c, m.alpha), m.alpha);
  }

  class DecoderIndex {
    var y: seq<Str>
    var unigram: seq<Str>
    var bigram: seq<Str>
    var maxid: nat
    var xsize: nat
    const base: FI.FeatureIndex  // the fields of the base class
    const da: DA.DoubleArray
    ghost var table: Table
    ghost var dic: Dic  // what the double array holds

    constructor (nodeSize: nat, pathSize: nat, cacheSize: nat)
      requires nodeSize > 1 && pathSize > 1
      ensures y == [] && unigram == [] && bigram == [] && fresh(da) && fresh(base) && fresh(base.cache)
      ensures base.Valid() && base.cache.contents == [] && base.cache.mem == []
      ensures fresh(base.cache.list) && base.cache.list.size == cacheSize
    {
      y, unigram, bigram, maxid, xsize := [], [], [], 0, 0;
      base := new FI.FeatureIndex(0, nodeSize, pathSize, cacheSize);
      da := new DA.DoubleArray();
      table, dic := Table(map[], [], x => x), map[];
    }

    ghost predicate Ready()
      reads this, da
    {
      Holds(da.units, table, dic) && da.begins == table.begins
    }

    /** Everything that was saved is back; the weights are floats now. */
    ghost predicate Opened(c: Codec, m: Model, t: Table, d: Dic)
      reads this, da, base
    {
      && base.y == |m.y| && y == m.y && unigram == m.unigram && bigram == m.bigram
      && base.costFactor == m.costFactor && maxid == m.maxid && xsize == m.xsize
      && |base.alpha| == |m.alpha| && (forall i :: 0 <= i < |base.alpha| ==> base.alpha[i] == ToFloat(c, m.alpha[i]))
      && table == t && dic == d && da.units == m.units && Ready()
    }

    /** open. Where the source would read past the end of the mapped file, the model reports Overrun. */
    method Open(c: Codec, file: Str, ghost m: Model, ghost t: Table, ghost d: Dic) returns (r: Option<Error>)
      requires y == [] && unigram == [] && bigram == []
      modifies this, da, base`y, base`costFactor, base`alpha
      ensures Saved(c, file, m, t, d) ==>
        if m.version / 100 == 1 then r == None && Opened(c, m, t, d) else r == Some(WrongVersion)
    {
      hide Saved, Holds, Parts, Start, ToFloat;
      var e, dsize, ySize := ReadHeader(c, file, m, t, d);
      if e.Some? { return e; }
      var e', ptr := ReadStrings(c, file, ySize, m, t, d);
      if e'.Some? { return e'; }
      r := ReadArrays(c, file, ptr, dsize, m, t, d);
    }

    /** The numbers at the start of the file. */
    method ReadHeader(c: Codec, file: Str, ghost m: Model, ghost t: Table, ghost d: Dic)
      returns (r: Option<Error>, dsize: nat, ySize: nat)
      modifies base`costFactor, `maxid, `xsize
      ensures Saved(c, file, m, t, d) ==>
        if m.version / 100 != 1 then r == Some(WrongVersion)
        else
          && r == None && base.costFactor == m.costFactor && maxid == m.maxid && xsize == m.xsize
          && dsize == 8 * |m.units| && ySize == |TagBytes(m)|
    {
      hide Saved, Holds, Parts, Start, Concat;
      ghost var ps := Parts(c, m);
      HeaderParts(c, file, m, t, d);
      dsize, ySize := 0, 0;
      var p := ReadPart(file, 0, 4, ps, 0);
      if p.None? { return Some(Overrun), dsize, ySize; }
      var version := ReadLe32(p.value);
      if version / 100 != 1 { return Some(WrongVersion), dsize, ySize; }
      p := ReadPart(file, 4, 4, ps, 1);
      if p.None? { return Some(Overrun), dsize, ySize; }
      p := ReadPart(file, 8, 8, ps, 2);
      if p.None? { return Some(Overrun), dsize, ySize; }
      base.costFactor := c.readDouble(p.value);
      p := ReadPart(file, 16, 4, ps, 3);
      if p.None? { return Some(Overrun), dsize, ySize; }
      maxid := ReadLe32(p.value);
      p := ReadPart(file, 20, 4, ps, 4);
      if p.None? { return Some(Overrun), dsize, ySize; }
      xsize := ReadLe32(p.value);
      p := ReadPart(file, 24, 4, ps, 5);
      if p.None? { return Some(Overrun), dsize, ySize; }
      dsize := ReadLe32(p.value);
      p := ReadPart(file, 28, 4, ps, 6);
      if p.None? { return Some(Overrun), dsize, ySize; }
      ySize := ReadLe32(p.value);
      r := None;
    }

    /** The tags and the templates; ptr is where the double array starts. */
    method ReadStrings(c: Codec, file: Str, ySize: nat, ghost m: Model, ghost t: Table, ghost d: Dic)
      returns (r: Option<Error>, ptr: nat)
      modifies `y, `unigram, `bigram, base`y
      ensures Saved(c, file, m, t, d) && ySize == |TagBytes(m)| ==>
        && r == None && y == m.y && base.y == |y| && unigram == m.unigram && bigram == m.bigram
        && ptr == Start(Parts(c, m), 10)
    {
      hide Saved, Holds, Parts, Start, Concat, HasStrings, HasTemplates, TagBytes, TemplateBytes;
      ghost var ps := Parts(c, m);
      StringParts(c, file, m, t, d);
      ptr := 32;
      var ys := ReadTags(file, ptr, ySize, m.y);
      if ys.None? { return Some(Overrun), ptr; }
      y := ys.value;
      base.y := |y|;
      ptr := ptr + ySize;
      var p := ReadPart(file, ptr, 4, ps, 8);
      if p.None? { return Some(Overrun), ptr; }
      var templSize := ReadLe32(p.value);
      ptr := ptr + 4;
      var ts := ReadTemplates(file, ptr, templSize, m.unigram, m.bigram);
      if ts.Failed? { return Some(ts.error), ptr; }
      unigram, bigram := ts.unigram, ts.bigram;
      ptr := ptr + templSize;
      r := None;
    }

    /** The double array and the weights. */
    method ReadArrays(c: Codec, file: Str, start: nat, dsize: nat, ghost m: Model, ghost t: Table, ghost d: Dic)
      returns (r: Option<Error>)
      modifies base`alpha, `table, `dic, da
      ensures
        && Saved(c, file, m, t, d) && start == Start(Parts(c, m), 10) && dsize == 8 * |m.units| && maxid == m.maxid ==>
        && r == None && da.units == m.units && table == t && dic == d && Ready()
        && |base.alpha| == |m.alpha| && forall i :: 0 <= i < |base.alpha| ==> base.alpha[i] == ToFloat(c, m.alpha[i])
    {
      hide Saved, Holds, Parts, Start, Concat, UnitBytes, UnitsFit, FloatBytes, Lawful, ToFloat;
      ghost var ps := Parts(c, m);
      ArrayParts(c, file, m, t, d);
      var p := ReadPart(file, start, dsize, ps, 10);
      if p.None? { return Some(Overrun); }
      var units := ReadUnits(p.value, m.units);
      da.SetArray(units, 0, t.begins);
      table, dic := t, d;
      var ptr := start + dsize;
      p := ReadPart(file, ptr, 4 * maxid, ps, 11);
      if p.None? || ptr + 4 * maxid != |file| { return Some(Broken); }
      base.alpha := ReadFloats(c, p.value, maxid, m.alpha);
      r := None;
    }

    /** getID: the id of a known feature, -1 for any other. */
    method GetID(key: Str) returns (r: int)
      requires Ready() && 0 !in key
      ensures r == if key in dic then dic[key].id else -1
    {
      RootAt(da.units, table.begins, table.keys, table.value);
      r := da.ExactMatchSearch(key, 0, 0, [], table.keys, table.value);
      WholeKey(key);
      assert [] + key == key;
      HeldLookup(da.units, table, dic, key);
    }

    /** One token, or one pair of neighbours: expand the templates; unknown features are skipped. */
    method RowFeatures(templs: seq<Str>, pos: nat, x: Sentence, ghost pss: seq<Pieces>)
      returns (ok: bool, feature: seq<nat>)
      requires Ready() && pos < |x| && Columns(x, xsize) && Parsed(templs, pss) && CStrings(x)
      ensures ok <==> Expands(pss, pos, x, xsize)
      ensures ok ==> feature == Ids(dic, Kept(dic, RowNames(pss, pos, x, xsize)))
    {
      hide Ready, Columns, Expansion, ColumnsBelow, Is, CStrings, Ids, Kept, WellFormed;
      feature := [];
      ghost var row: seq<Str> := [];
      NoIds(dic);
      var max := 0;
      for i := 0 to |templs|
        invariant feature == Ids(dic, Kept(dic, row))
        invariant |row| == i && forall j :: 0 <= j < i ==> Expansion(pss[j], pos, x, xsize) == Some(row[j])
      {
        var os;
        os, max := ApplyRule(templs[i], pos, x, xsize, max, pss[i]);
        if os.None? { return false, []; }
        PiecesOf(templs[i], pss[i]);
        ExpansionNoNul(pss[i], pos, x, xsize);
        var id := GetID(os.value);
        IdsMore(dic, row, os.value);
        row := row + [os.value];
        if id != -1 {
          feature := feature + [id];
        }
      }
      ok := true;
      assert row == RowNames(pss, pos, x, xsize);
    }

    /** One of the two loops of buildFeatures. */
    method BuildRows(templs: seq<Str>, first: nat, x: Sentence, ghost pss: seq<Pieces>) returns (ok: bool)
      requires Ready() && base.Valid() && |templs| + 1 < base.cache.list.size
      requires first <= |x| && Columns(x, xsize) && Parsed(templs, pss) && CStrings(x)
      modifies base.cache, base.cache.list, base.cache.mem
      ensures base.Valid() && old(base.cache.contents) <= base.cache.contents
      ensures ok <==> ExpandsFrom(pss, first, |x|, x, xsize)
      ensures ok ==> base.cache.contents == old(base.cache.contents) + Vectors(dic, RowsFrom(pss, first, |x|, x, xsize))
      ensures forall k :: 0 <= k < |base.cache.mem| ==>
        base.cache.mem[k] in old(base.cache.mem) || fresh(base.cache.mem[k])
    {
      hide Ready, FI.Arena.Valid, FC.FeatureCache.Valid, Columns, Parsed, CStrings, Expands, RowNames;
      for pos := first to |x|
        invariant base.Valid() && ExpandsFrom(pss, first, pos, x, xsize)
        invariant base.cache.contents == old(base.cache.contents) + Vectors(dic, RowsFrom(pss, first, pos, x, xsize))
        invariant forall k :: 0 <= k < |base.cache.mem| ==>
          base.cache.mem[k] in old(base.cache.mem) || fresh(base.cache.mem[k])
      {
        ghost var rows := RowsFrom(pss, first, pos, x, xsize);
        var feature;
        ok, feature := RowFeatures(templs, pos, x, pss);
        if !ok { return; }
        ghost var row := RowNames(pss, pos, x, xsize);
        KeptLength(dic, row);
        RowLength(templs, pss);
        base.cache.Add(feature);
        assert RowsFrom(pss, first, pos + 1, x, xsize) == rows + [row];
        assert Vectors(dic, rows + [row]) == Vectors(dic, rows) + [Ids(dic, Kept(dic, row))];
      }
      ok := true;
    }

    /** buildFeatures while decoding: one vector of known features per token and per pair of neighbours. */
    method BuildFeatures(x: Sentence, ghost us: seq<Pieces>, ghost bs: seq<Pieces>) returns (ok: bool, fid: nat)
      requires Ready() && base.Valid() && Columns(x, xsize) && CStrings(x) && Parsed(unigram, us) && Parsed(bigram, bs)
      requires |unigram| + 1 < base.cache.list.size && |bigram| + 1 < base.cache.list.size
      modifies base.cache, base.cache.list, base.cache.mem
      ensures base.Valid() && fid == old(|base.cache.contents|) && old(base.cache.contents) <= base.cache.contents
      ensures ok <==> SentenceExpands(us, bs, x, xsize)
      ensures ok && |x| > 0 ==> var ns := SentenceNames(us, bs, x, xsize);
        base.cache.contents == old(base.cache.contents) + Vectors(dic, ns.uni) + Vectors(dic, ns.bi)
      ensures forall k :: 0 <= k < |base.cache.mem| ==>
        base.cache.mem[k] in old(base.cache.mem) || fresh(base.cache.mem[k])
    {
      hide Ready, FI.Arena.Valid, Columns, Parsed, CStrings, Expands, RowNames, Vectors;
      base.cache.SameSize();
      fid := |base.cache.vectors|;
      hide FC.FeatureCache.Valid;
      ok := BuildRows(unigram, 0, x, us);
      if !ok || |x| == 0 { return; }
      ok := BuildRows(bigram, 1, x, bs);
      if ok { SentenceRows(us, bs, x, xsize); }
    }
  }

  /** The vectors of known features of these rows. */
  ghost function Vectors(dic: Dic, rows: seq<seq<Str>>): seq<seq<nat>> {
    seq(|rows|, i requires 0 <= i < |rows| => Ids(dic, Kept(dic, rows[i])))
  }

  lemma PiecesOf(t: Str, ps: Pieces)
    requires Is(t, ps)
    ensures WellFormed(ps)
  {}

  lemma NoIds(dic: Dic)
    ensures Ids(dic, Kept(dic, [])) == []
  {}

  lemma IdsMore(dic: Dic, row: seq<Str>, k: Str)
    ensures Ids(dic, Kept(dic, row + [k])) == Ids(dic, Kept(dic, row)) + if k in dic then [dic[k].id] else []
  {
    assert (row + [k])[..|row|] == row;
  }

  lemma {:induction false} KeptLength(dic: Dic, names: seq<Str>)
    ensures |Kept(dic, names)| <= |names|
  {
    if names != [] { KeptLength(dic, names[..|names| - 1]); }
  }

  lemma WholeKey(key: Str)
    requires 0 !in key
    ensures DA.Query(key, 0) == key
  {}
}
