/** build_index.cpp and dict_mgr.h: counting words, writing the index, and loading it. */
module InvertedIndex {
  import opened Bytes
  import opened Text
  import opened Options

  datatype Posting = Posting(docId: int, cnt: int)

  /** A line of the input with two columns: an id, and a text cut into words. */
  datatype Doc = Doc(id: int, words: seq<Str>)

  ghost function ParseDoc(line: Str, segment: Str -> seq<Str>): Option<Doc> {
    var vals := SplitOf(line, [9]);
    if |vals| != 2 then None else Some(Doc(Atoi(vals[0]), segment(vals[1])))
  }

  /** Lines that do not have two columns are skipped. */
  ghost function DocsOf(lines: seq<Str>, segment: Str -> seq<Str>): seq<Doc> {
    if lines == [] then []
    else
      var d := ParseDoc(lines[|lines| - 1], segment);
      DocsOf(lines[..|lines| - 1], segment) + if d.Some? then [d.value] else []
  }

  /** The length of the last line with each document id. */
  ghost function Lengths(lines: seq<Str>): map<int, nat> {
    if lines == [] then map[]
    else
      var before, line := Lengths(lines[..|lines| - 1]), lines[|lines| - 1];
      var vals := SplitOf(line, [9]);
      if |vals| != 2 then before else before[Atoi(vals[0]) := |line|]
  }

  // ---------- what the dictionaries should hold ----------

  ghost function Count(ws: seq<Str>, w: Str): nat {
    multiset(ws)[w]
  }

  /** One posting per document that contains the word, in the order of the documents. */
  ghost function Postings(docs: seq<Doc>, w: Str): seq<Posting> {
    if docs == [] then []
    else
      var d := docs[|docs| - 1];
      Postings(docs[..|docs| - 1], w) + if Count(d.words, w) > 0 then [Posting(d.id, Count(d.words, w))] else []
  }

  ghost function Total(docs: seq<Doc>, w: Str): nat {
    if docs == [] then 0 else Total(docs[..|docs| - 1], w) + Count(docs[|docs| - 1].words, w)
  }

  ghost function SumCounts(ps: seq<Posting>): int {
    if ps == [] then 0 else SumCounts(ps[..|ps| - 1]) + ps[|ps| - 1].cnt
  }

  /** Conservation: the counts of a word's postings add up to its frequency. */
  lemma {:induction false} CountsAddUp(docs: seq<Doc>, w: Str)
    ensures SumCounts(Postings(docs, w)) == Total(docs, w)
    ensures Postings(docs, w) != [] <==> Total(docs, w) > 0
  {
    if docs != [] {
      var most, d := docs[..|docs| - 1], docs[|docs| - 1];
      CountsAddUp(most, w);
      assert Postings(most, w) + [] == Postings(most, w);
      SumMore(Postings(most, w), Posting(d.id, Count(d.words, w)));
    }
  }

  lemma SumMore(ps: seq<Posting>, p: Posting)
    ensures SumCounts(ps + [p]) == SumCounts(ps) + p.cnt
  {
    assert (ps + [p])[..|ps|] == ps;
  }

  type Index = map<Str, seq<Posting>>

  ghost function At<K, T>(m: map<K, T>, k: K, none: T): T {
    if k in m then m[k] else none
  }

  /** The three dictionaries are right for these documents, and have no other words. */
  ghost predicate Counted(docs: seq<Doc>, mps: Index, wordFreq: map<Str, nat>, wordDocFreq: map<Str, nat>) {
    forall w ::
      && At(mps, w, []) == Postings(docs, w) && At(wordFreq, w, 0) == Total(docs, w)
      && At(wordDocFreq, w, 0) == |Postings(docs, w)|
      && (w in mps <==> Total(docs, w) > 0) && (w in wordFreq <==> Total(docs, w) > 0)
      && (w in wordDocFreq <==> Total(docs, w) > 0)
  }

  // ---------- counting ----------

  /** The words ws of a document have been counted. */
  ghost predicate WordsCounted(ws: seq<Str>, wordFreq0: map<Str, nat>, cntMap: map<Str, nat>, wordFreq: map<Str, nat>) {
    && (forall w :: At(cntMap, w, 0) == Count(ws, w) && (w in cntMap <==> Count(ws, w) > 0))
    && (forall w :: At(wordFreq, w, 0) == At(wordFreq0, w, 0) + Count(ws, w))
    && (forall w :: w in wordFreq <==> w in wordFreq0 || Count(ws, w) > 0)
  }

  lemma NothingSeen(wordFreq: map<Str, nat>)
    ensures WordsCounted([], wordFreq, map[], wordFreq)
  {}

  lemma CountOne(ws: seq<Str>, wordFreq0: map<Str, nat>, cntMap: map<Str, nat>, wordFreq: map<Str, nat>, w: Str)
    requires WordsCounted(ws, wordFreq0, cntMap, wordFreq)
    ensures WordsCounted(ws + [w], wordFreq0, cntMap[w := At(cntMap, w, 0) + 1], wordFreq[w := At(wordFreq, w, 0) + 1])
  {
    hide Count;
    var cntMap', wordFreq' := cntMap[w := At(cntMap, w, 0) + 1], wordFreq[w := At(wordFreq, w, 0) + 1];
    forall x
      ensures At(cntMap', x, 0) == Count(ws + [w], x) && (x in cntMap' <==> Count(ws + [w], x) > 0)
      ensures At(wordFreq', x, 0) == At(wordFreq0, x, 0) + Count(ws + [w], x)
      ensures x in wordFreq' <==> x in wordFreq0 || Count(ws + [w], x) > 0
    {
      CountMore(ws, w, x);
      assert At(cntMap, x, 0) == Count(ws, x) && At(wordFreq, x, 0) == At(wordFreq0, x, 0) + Count(ws, x);
    }
  }

  lemma CountMore(ws: seq<Str>, w: Str, x: Str)
    ensures Count(ws + [w], x) == Count(ws, x) + if x == w then 1 else 0
  {}

  /** The loop over the words of one document. */
  method CountWords(words: seq<Str>, wordFreq0: map<Str, nat>) returns (cntMap: map<Str, nat>, wordFreq: map<Str, nat>)
    ensures WordsCounted(words, wordFreq0, cntMap, wordFreq)
  {
    hide WordsCounted;
    cntMap, wordFreq := map[], wordFreq0;
    NothingSeen(wordFreq);
    for i := 0 to |words|
      invariant WordsCounted(words[..i], wordFreq0, cntMap, wordFreq)
    {
      var w := words[i];
      ghost var cnt0, freq0 := cntMap, wordFreq;
      assert words[..i + 1] == words[..i] + [w];
      CountOne(words[..i], wordFreq0, cntMap, wordFreq, w);
      if w !in cntMap { cntMap := cntMap[w := 0]; }
      cntMap := cntMap[w := cntMap[w] + 1];
      if w !in wordFreq { wordFreq := wordFreq[w := 0]; }
      wordFreq := wordFreq[w := wordFreq[w] + 1];
      assert cntMap == cnt0[w := At(cnt0, w, 0) + 1] && wordFreq == freq0[w := At(freq0, w, 0) + 1];
    }
    assert words[..|words|] == words;
  }

  /** The words of a document that have been seen have their posting. */
  ghost predicate Posted(id: int, cntMap: map<Str, nat>, seen: set<Str>, mps0: Index, wordDocFreq0: map<Str, nat>,
                         mps: Index, wordDocFreq: map<Str, nat>)
    requires seen <= cntMap.Keys
  {
    && (forall w :: At(mps, w, []) == At(mps0, w, []) + if w in seen then [Posting(id, cntMap[w])] else [])
    && (forall w :: At(wordDocFreq, w, 0) == At(wordDocFreq0, w, 0) + if w in seen then 1 else 0)
    && (forall w :: (w in mps <==> w in mps0 || w in seen) && (w in wordDocFreq <==> w in wordDocFreq0 || w in seen))
  }

  lemma PostOne(id: int, cntMap: map<Str, nat>, seen: set<Str>, mps0: Index, wordDocFreq0: map<Str, nat>, mps: Index,
                wordDocFreq: map<Str, nat>, w: Str)
    requires seen <= cntMap.Keys && w in cntMap && w !in seen
    requires Posted(id, cntMap, seen, mps0, wordDocFreq0, mps, wordDocFreq)
    ensures Posted(id, cntMap, seen + {w}, mps0, wordDocFreq0, mps[w := At(mps, w, []) + [Posting(id, cntMap[w])]],
                   wordDocFreq[w := At(wordDocFreq, w, 0) + 1])
  {}

  /** The loop over the words counted in one document. */
  method AddPostings(id: int, cntMap: map<Str, nat>, mps0: Index, wordDocFreq0: map<Str, nat>)
    returns (mps: Index, wordDocFreq: map<Str, nat>)
    ensures Posted(id, cntMap, cntMap.Keys, mps0, wordDocFreq0, mps, wordDocFreq)
  {
    hide Sorted, Leq, Ascending, Posted;
    mps, wordDocFreq := mps0, wordDocFreq0;
    var keys := Ascending(cntMap.Keys);
    ghost var seen := {};
    NothingPosted(id, cntMap, mps, wordDocFreq);
    for i := 0 to |keys|
      invariant forall w :: w in seen <==> w in keys[..i]
      invariant seen <= cntMap.Keys && Posted(id, cntMap, seen, mps0, wordDocFreq0, mps, wordDocFreq)
    {
      var w := keys[i];
      NotBefore(keys, i);
      assert keys[..i + 1] == keys[..i] + [w];
      PostOne(id, cntMap, seen, mps0, wordDocFreq0, mps, wordDocFreq, w);
      seen := seen + {w};
      ghost var mps', freq' := mps, wordDocFreq;
      if w !in mps { mps := mps[w := []]; }
      mps := mps[w := mps[w] + [Posting(id, cntMap[w])]];
      if w !in wordDocFreq { wordDocFreq := wordDocFreq[w := 0]; }
      wordDocFreq := wordDocFreq[w := wordDocFreq[w] + 1];
      assert mps == mps'[w := At(mps', w, []) + [Posting(id, cntMap[w])]] &&
        wordDocFreq == freq'[w := At(freq', w, 0) + 1];
    }
    assert keys[..|keys|] == keys;
    assert seen == cntMap.Keys;
  }

  lemma NothingPosted(id: int, cntMap: map<Str, nat>, mps: Index, wordDocFreq: map<Str, nat>)
    ensures Posted(id, cntMap, {}, mps, wordDocFreq, mps, wordDocFreq)
  {}

  lemma NotBefore(keys: seq<Str>, i: nat)
    requires Sorted(keys) && i < |keys|
    ensures keys[i] !in keys[..i]
  {}

  /** The body of the main loop keeps all three dictionaries right. */
  method AddDoc(d: Doc, mps0: Index, wordFreq0: map<Str, nat>, wordDocFreq0: map<Str, nat>, ghost docs: seq<Doc>)
    returns (mps: Index, wordFreq: map<Str, nat>, wordDocFreq: map<Str, nat>)
    requires Counted(docs, mps0, wordFreq0, wordDocFreq0)
    ensures Counted(docs + [d], mps, wordFreq, wordDocFreq)
  {
    hide Counted, WordsCounted, Posted;
    var cntMap;
    cntMap, wordFreq := CountWords(d.words, wordFreq0);
    mps, wordDocFreq := AddPostings(d.id, cntMap, mps0, wordDocFreq0);
    DocCounted(d, mps0, wordFreq0, wordDocFreq0, docs, cntMap, mps, wordFreq, wordDocFreq);
  }

  lemma DocCounted(d: Doc, mps0: Index, wordFreq0: map<Str, nat>, wordDocFreq0: map<Str, nat>, docs: seq<Doc>,
                   cntMap: map<Str, nat>, mps: Index, wordFreq: map<Str, nat>, wordDocFreq: map<Str, nat>)
    requires Counted(docs, mps0, wordFreq0, wordDocFreq0) && WordsCounted(d.words, wordFreq0, cntMap, wordFreq)
    requires Posted(d.id, cntMap, cntMap.Keys, mps0, wordDocFreq0, mps, wordDocFreq)
    ensures Counted(docs + [d], mps, wordFreq, wordDocFreq)
  {
    hide Count;
    assert (docs + [d])[..|docs|] == docs;
  }

  /** build_index: the postings of every word, its frequency, and the number of documents it occurs in. */
  method BuildIndex(lines: seq<Str>, segment: Str -> seq<Str>)
    returns (mps: Index, wordFreq: map<Str, nat>, wordDocFreq: map<Str, nat>, docLength: map<int, nat>)
    ensures docLength == Lengths(lines)
    ensures Counted(DocsOf(lines, segment), mps, wordFreq, wordDocFreq)
    ensures forall w :: w in mps ==>
      w in wordFreq && w in wordDocFreq && SumCounts(mps[w]) == wordFreq[w] && |mps[w]| == wordDocFreq[w]
  {
    hide Counted;
    mps, wordFreq, wordDocFreq, docLength := map[], map[], map[], map[];
    NothingCounted();
    for i := 0 to |lines|
      invariant Counted(DocsOf(lines[..i], segment), mps, wordFreq, wordDocFreq) && docLength == Lengths(lines[..i])
    {
      assert lines[..i + 1][..i] == lines[..i];
      MoreDocs(lines, segment, i);
      var vals := Split(lines[i], [9]);
      if |vals| != 2 { continue; }
      var id := Atoi(vals[0]);
      docLength := docLength[id := |lines[i]|];
      mps, wordFreq, wordDocFreq :=
        AddDoc(Doc(id, segment(vals[1])), mps, wordFreq, wordDocFreq, DocsOf(lines[..i], segment));
    }
    assert lines[..|lines|] == lines;
    Conserved(DocsOf(lines, segment), mps, wordFreq, wordDocFreq);
  }

  lemma MoreDocs(lines: seq<Str>, segment: Str -> seq<Str>, i: nat)
    requires i < |lines|
    ensures var d := ParseDoc(lines[i], segment);
      if d.Some? then DocsOf(lines[..i + 1], segment) == DocsOf(lines[..i], segment) + [d.value]
      else DocsOf(lines[..i + 1], segment) == DocsOf(lines[..i], segment)
  {
    assert lines[..i + 1][..i] == lines[..i];
  }

  lemma NothingCounted()
    ensures Counted([], map[], map[], map[])
  {}

  lemma Conserved(docs: seq<Doc>, mps: Index, wordFreq: map<Str, nat>, wordDocFreq: map<Str, nat>)
    requires Counted(docs, mps, wordFreq, wordDocFreq)
    ensures forall w :: w in mps ==>
      mps[w] != [] && w in wordFreq && w in wordDocFreq && SumCounts(mps[w]) == wordFreq[w] &&
        |mps[w]| == wordDocFreq[w]
  {
    forall w | w in mps
      ensures mps[w] != [] && w in wordFreq && w in wordDocFreq && SumCounts(mps[w]) == wordFreq[w]
      ensures |mps[w]| == wordDocFreq[w]
    {
      CountsAddUp(docs, w);
      assert At(mps, w, []) == Postings(docs, w) && At(wordFreq, w, 0) == Total(docs, w);
    }
  }

  // ---------- the text of the index ----------

  function PostingText(p: Posting): Str {
    JoinWith([Decimal(p.docId), Decimal(p.cnt), [48]], 1)
  }

  ghost function Texts(ps: seq<Posting>): (r: seq<Str>)
    ensures |r| == |ps|
  {
    seq(|ps|, i requires 0 <= i < |ps| => PostingText(ps[i]))
  }

  ghost function LineOf(w: Str, ps: seq<Posting>): Str {
    w + [9] + JoinWith(Texts(ps), 2)
  }

  /** The lines for the words of at least three bytes. */
  ghost function IndexLines(keys: seq<Str>, mps: Index): seq<Str> {
    if keys == [] then []
    else
      var w := keys[|keys| - 1];
      IndexLines(keys[..|keys| - 1], mps) + if w in mps && |w| >= 3 then [LineOf(w, mps[w])] else []
  }

  lemma ThreeParts(a: Str, b: Str, c: Str, d: byte)
    ensures JoinWith([a, b, c], d) == a + [d] + b + [d] + c
  {
    assert [a, b, c][1..] == [b, c];
    TwoParts(b, c, d);
    assert a + [d] + (b + [d] + c) == a + [d] + b + [d] + c;
  }

  lemma TwoParts(a: Str, b: Str, d: byte)
    ensures JoinWith([a, b], d) == a + [d] + b
  {
    assert [a, b][1..] == [b];
  }

  /** One posting: `doc_id \001 cnt \001 0`. */
  method WritePosting(p: Posting) returns (s: Str)
    ensures s == PostingText(p)
  {
    hide Decimal, JoinWith;
    ThreeParts(Decimal(p.docId), Decimal(p.cnt), [48], 1);
    s := Decimal(p.docId) + [1] + Decimal(p.cnt) + [1] + [48];
  }

  /** The postings of one word, with \002 between them. */
  method WriteLine(w: Str, ps: seq<Posting>) returns (line: Str)
    requires ps != []
    ensures line == LineOf(w, ps)
  {
    hide JoinWith, PostingText;
    line := w + [9];
    var i := 0;
    JoinOne(Texts(ps));
    while i < |ps|
      invariant i <= |ps|
      invariant line == w + [9] + (if i == 0 then [] else JoinWith(Texts(ps)[..i], 2) + if i < |ps| then [2] else [])
    {
      var s := WritePosting(ps[i]);
      ghost var ts := Texts(ps)[..i];
      assert Texts(ps)[..i + 1] == ts + [s];
      if i > 0 { JoinMore(ts, s, 2); } else { assert ts + [s] == Texts(ps)[..1]; }
      line := line + s;
      if i + 1 < |ps| {
        line := line + [2];
      }
      i := i + 1;
    }
    assert Texts(ps)[..i] == Texts(ps);
  }

  lemma JoinOne(ts: seq<Str>)
    requires ts != []
    ensures JoinWith(ts[..1], 2) == ts[0]
  {}

  /** The writer of index.dict: one line per word of at least three bytes, in the order of the map. */
  method WriteIndex(mps: Index) returns (file: Str)
    requires forall w :: w in mps ==> mps[w] != []
    ensures file == Unlines(IndexLines(Ascending(mps.Keys), mps))
  {
    hide Ascending, LineOf, Unlines, Sorted;
    file := [];
    var keys := Ascending(mps.Keys);
    NoLines();
    for i := 0 to |keys|
      invariant file == Unlines(IndexLines(keys[..i], mps))
    {
      var w := keys[i];
      MoreLines(keys, mps, i);
      if |w| < 3 { continue; }
      var line := WriteLine(w, mps[w]);
      OneMoreLine(IndexLines(keys[..i], mps), line);
      file := file + line + [10];
    }
    assert keys[..|keys|] == keys;
  }

  lemma MoreLines(keys: seq<Str>, mps: Index, i: nat)
    requires i < |keys| && keys[i] in mps
    ensures var w := keys[i]; var ls := IndexLines(keys[..i], mps);
      IndexLines(keys[..i + 1], mps) == if |w| >= 3 then ls + [LineOf(w, mps[w])] else ls
  {
    assert keys[..i + 1][..i] == keys[..i];
  }

  lemma NoLines()
    ensures Unlines([]) == []
  {}

  lemma OneMoreLine(ls: seq<Str>, l: Str)
    ensures Unlines(ls + [l]) == Unlines(ls) + l + [10]
  {
    assert (ls + [l])[..|ls|] == ls;
  }

  // ---------- loading ----------

  function ParsePosting(s: Str): Option<Posting> {
    var data := SplitOf(s, [1]);
    if |data| < 3 then None else Some(Posting(Atoi(data[0]), Atoi(data[1])))
  }

  ghost function ParsePostings(ss: seq<Str>): seq<Posting> {
    if ss == [] then []
    else
      var p := ParsePosting(ss[|ss| - 1]);
      ParsePostings(ss[..|ss| - 1]) + if p.Some? then [p.value] else []
  }

  /** What loading lines makes of them: a later line for the same word replaces an earlier one. */
  ghost function Loaded(lines: seq<Str>): Index {
    if lines == [] then map[]
    else
      var splits := SplitOf(lines[|lines| - 1], [9]);
      var before := Loaded(lines[..|lines| - 1]);
      if |splits| != 2 then before else before[splits[0] := ParsePostings(SplitOf(splits[1], [2]))]
  }

  /** _load_index_dict. */
  method LoadIndexDict(file: Str) returns (dict: Index)
    ensures dict == Loaded(Lines(file))
  {
    hide SplitOf, ParsePosting, Lines;
    dict := map[];
    var lines := Lines(file);
    for i := 0 to |lines|
      invariant dict == Loaded(lines[..i])
    {
      assert lines[..i + 1][..i] == lines[..i];
      var splits := Split(lines[i], [9]);
      if |splits| != 2 { continue; }
      var vecs := Split(splits[1], [2]);
      var indexVec := LoadPostings(vecs);
      dict := dict[splits[0] := indexVec];
    }
    assert lines[..|lines|] == lines;
  }

  method LoadPostings(vecs: seq<Str>) returns (indexVec: seq<Posting>)
    ensures indexVec == ParsePostings(vecs)
  {
    hide SplitOf;
    indexVec := [];
    for j := 0 to |vecs|
      invariant indexVec == ParsePostings(vecs[..j])
    {
      assert vecs[..j + 1][..j] == vecs[..j];
      var data := Split(vecs[j], [1]);
      if |data| < 3 { continue; }
      indexVec := indexVec + [Posting(Atoi(data[0]), Atoi(data[1]))];
    }
    assert vecs[..|vecs|] == vecs;
  }

  // ---------- the round trip ----------

  lemma {:induction false} NotInJoin(ps: seq<Str>, e: byte, d: byte)
    requires d != e && forall i :: 0 <= i < |ps| ==> d !in ps[i]
    ensures d !in JoinWith(ps, e)
  {
    if |ps| > 1 { NotInJoin(ps[1..], e, d); }
  }

  /** A joined text ends as its last piece does. */
  lemma {:induction false} JoinEnds(ps: seq<Str>, e: byte, b: byte)
    requires |ps| > 0 && forall i :: 0 <= i < |ps| ==> ps[i] != [] && ps[i][|ps[i]| - 1] == b
    ensures JoinWith(ps, e) != [] && JoinWith(ps, e)[|JoinWith(ps, e)| - 1] == b
  {
    if |ps| > 1 { JoinEnds(ps[1..], e, b); }
  }

  lemma PostingTextFacts(p: Posting)
    ensures var s := PostingText(p); s != [] && s[|s| - 1] == 48 && 9 !in s && 10 !in s && 2 !in s
    ensures ParsePosting(PostingText(p)) == Some(p)
  {
    hide Decimal, JoinWith, Pieces, Atoi;
    var ps := [Decimal(p.docId), Decimal(p.cnt), [48]];
    assert ps[0] == Decimal(p.docId) && ps[1] == Decimal(p.cnt) && ps[2] == [48];
    ThreeParts(ps[0], ps[1], ps[2], 1);
    DecimalClean(p.docId, 1); DecimalClean(p.cnt, 1);
    DecimalClean(p.docId, 2); DecimalClean(p.cnt, 2);
    DecimalClean(p.docId, 9); DecimalClean(p.cnt, 9);
    DecimalClean(p.docId, 10); DecimalClean(p.cnt, 10);
    NotInJoin(ps, 1, 2);
    NotInJoin(ps, 1, 9);
    NotInJoin(ps, 1, 10);
    PiecesOfJoin(ps, 1);
    AtoiBack(p.docId);
    AtoiBack(p.cnt);
  }

  lemma {:induction false} PostingsBack(ps: seq<Posting>)
    ensures ParsePostings(Texts(ps)) == ps
  {
    hide PostingText, ParsePosting;
    if ps != [] {
      var most := ps[..|ps| - 1];
      PostingsBack(most);
      assert Texts(ps)[..|ps| - 1] == Texts(most);
      PostingTextFacts(ps[|ps| - 1]);
    }
  }

  /** A written line is split into the word and its postings again. */
  lemma LineBack(w: Str, ps: seq<Posting>)
    requires ps != [] && 9 !in w && 10 !in w
    ensures 10 !in LineOf(w, ps)
    ensures var splits := SplitOf(LineOf(w, ps), [9]);
      |splits| == 2 && splits[0] == w && ParsePostings(SplitOf(splits[1], [2])) == ps
  {
    hide JoinWith, Pieces, PostingText, ParsePosting, ParsePostings;
    var ts := Texts(ps);
    forall i | 0 <= i < |ts|
      ensures ts[i] != [] && ts[i][|ts[i]| - 1] == 48 && 9 !in ts[i] && 10 !in ts[i] && 2 !in ts[i] {
      PostingTextFacts(ps[i]);
    }
    var t := JoinWith(ts, 2);
    NotInJoin(ts, 2, 9);
    NotInJoin(ts, 2, 10);
    JoinEnds(ts, 2, 48);
    PiecesOfJoin(ts, 2);
    PiecesOfJoin([w, t], 9);
    TwoParts(w, t, 9);
    PostingsBack(ps);
  }

  /** The words of at least three bytes. */
  ghost function LongWords(keys: seq<Str>, mps: Index): Index {
    map w | w in mps && w in keys && |w| >= 3 :: mps[w]
  }

  lemma {:induction false} LinesLoaded(keys: seq<Str>, mps: Index)
    requires forall w :: w in mps ==> mps[w] != [] && 9 !in w && 10 !in w
    requires forall w :: w in keys ==> w in mps
    ensures Loaded(IndexLines(keys, mps)) == LongWords(keys, mps)
    ensures forall i :: 0 <= i < |IndexLines(keys, mps)| ==> 10 !in IndexLines(keys, mps)[i]
  {
    hide LineOf, SplitOf, ParsePostings;
    if keys != [] {
      var most, w := keys[..|keys| - 1], keys[|keys| - 1];
      LinesLoaded(most, mps);
      assert w in mps;
      if |w| >= 3 {
        LineBack(w, mps[w]);
        var ls := IndexLines(most, mps);
        assert (ls + [LineOf(w, mps[w])])[..|ls|] == ls;
        assert LongWords(keys, mps) == LongWords(most, mps)[w := mps[w]];
      } else {
        assert IndexLines(most, mps) + [] == IndexLines(most, mps);
        assert LongWords(keys, mps) == LongWords(most, mps);
      }
    }
  }

  /** Loading the written index gives back exactly the postings of all words of at least three bytes. */
  lemma IndexRoundTrip(mps: Index)
    requires forall w :: w in mps ==> mps[w] != [] && 9 !in w && 10 !in w
    ensures Loaded(Lines(Unlines(IndexLines(Ascending(mps.Keys), mps)))) == map w | w in mps && |w| >= 3 :: mps[w]
  {
    hide Ascending, Loaded, IndexLines;
    var keys := Ascending(mps.Keys);
    LinesLoaded(keys, mps);
    LinesBack(IndexLines(keys, mps));
  }

  // ---------- build, write and load ----------

  /** A segmenter that only cuts its text: no word has a byte that the text has not. */
  ghost predicate Cuts(segment: Str -> seq<Str>) {
    forall t, i, b :: 0 <= i < |segment(t)| && b in segment(t)[i] ==> b in t
  }

  /** The piece has no delimiter, and no byte that the text has not. */
  ghost predicate CleanPiece(p: Str, s: Str, ds: Str) {
    forall b :: b in p ==> b in s && b !in ds
  }

  lemma {:induction false} PiecesClean(s: Str, ds: Str)
    ensures forall i :: 0 <= i < |Pieces(s, ds)| ==> CleanPiece(Pieces(s, ds)[i], s, ds)
    decreases |s|
  {
    hide IndexOf, Pieces, CleanPiece;
    FirstPiece(s, ds);
    var i := IndexOf(s, ds);
    IndexClean(s, ds);
    if i < |s| {
      var rest := Pieces(s[i + 1..], ds);
      PiecesClean(s[i + 1..], ds);
      forall j | 0 <= j < |Pieces(s, ds)| ensures CleanPiece(Pieces(s, ds)[j], s, ds) {
        if j > 0 { CleanBehind(rest[j - 1], s, i + 1, ds); }
      }
    } else {
      assert s[..i] == s;
    }
  }

  lemma IndexClean(s: Str, ds: Str)
    ensures IndexOf(s, ds) <= |s| && CleanPiece(s[..IndexOf(s, ds)], s, ds)
  {}

  lemma CleanBehind(p: Str, s: Str, i: nat, ds: Str)
    requires i <= |s| && CleanPiece(p, s[i..], ds)
    ensures CleanPiece(p, s, ds)
  {
    forall b | b in p ensures b in s && b !in ds { assert b in s[i..]; }
  }

  /** No word of the documents has a tab or a newline. */
  ghost predicate CleanWords(docs: seq<Doc>) {
    forall i, w: Str :: 0 <= i < |docs| && w in docs[i].words ==> 9 !in w && 10 !in w
  }

  lemma {:induction false} DocsClean(lines: seq<Str>, segment: Str -> seq<Str>)
    requires Cuts(segment) && forall i :: 0 <= i < |lines| ==> 10 !in lines[i]
    ensures CleanWords(DocsOf(lines, segment))
  {
    hide ParseDoc, Cuts;
    if lines != [] {
      DocsClean(lines[..|lines| - 1], segment);
      LineClean(lines[|lines| - 1], segment);
    }
  }

  lemma SplitPieces(s: Str, ds: Str)
    ensures |SplitOf(s, ds)| <= |Pieces(s, ds)|
    ensures forall i :: 0 <= i < |SplitOf(s, ds)| ==> SplitOf(s, ds)[i] == Pieces(s, ds)[i]
  {
    hide Pieces;
  }

  lemma LineClean(line: Str, segment: Str -> seq<Str>)
    requires Cuts(segment) && 10 !in line
    ensures var d := ParseDoc(line, segment); d.Some? ==> forall w: Str :: w in d.value.words ==> 9 !in w && 10 !in w
  {
    hide Pieces, Atoi;
    PiecesClean(line, [9]);
    var d := ParseDoc(line, segment);
    if d.Some? {
      SplitPieces(line, [9]);
      var text := SplitOf(line, [9])[1];
      assert CleanPiece(text, line, [9]);
      forall w: Str | w in d.value.words ensures 9 !in w && 10 !in w {
        var i :| 0 <= i < |segment(text)| && segment(text)[i] == w;
      }
    }
  }

  lemma {:induction false} WordOfDoc(docs: seq<Doc>, w: Str)
    requires CleanWords(docs) && Total(docs, w) > 0
    ensures 9 !in w && 10 !in w
  {
    if docs != [] {
      var d := docs[|docs| - 1];
      if Count(d.words, w) > 0 { assert w in d.words; } else { WordOfDoc(docs[..|docs| - 1], w); }
    }
  }

  lemma LinesClean(file: Str)
    ensures forall i :: 0 <= i < |Lines(file)| ==> 10 !in Lines(file)[i]
  {
    hide Pieces;
    PiecesClean(file, [10]);
    var ps := Pieces(file, [10]);
    forall i | 0 <= i < |ps| ensures 10 !in ps[i] { assert CleanPiece(ps[i], file, [10]); }
  }

  /** A line is an id, a tab, and the text that is cut into words. */
  lemma DocOfLine(id: int, text: Str, segment: Str -> seq<Str>)
    requires text != [] && 9 !in text
    ensures ParseDoc(Decimal(id) + [9] + text, segment) == Some(Doc(id, segment(text)))
  {
    hide Pieces, JoinWith, Atoi, Decimal;
    var line := Decimal(id) + [9] + text;
    DecimalClean(id, 9);
    TwoParts(Decimal(id), text, 9);
    PiecesOfJoin([Decimal(id), text], 9);
    AtoiBack(id);
    assert line[|line| - 1] == text[|text| - 1] && text[|text| - 1] in text;
  }

  /** build_index on a file, and then the loader on the index that was written: the dictionary has exactly the words of
      at least three bytes that occur, each with one posting per document that contains it. */
  method IndexAndLoad(file: Str, segment: Str -> seq<Str>) returns (dict: Index)
    requires Cuts(segment)
    ensures var docs := DocsOf(Lines(file), segment);
      forall w ::
        && (w in dict <==> |w| >= 3 && Total(docs, w) > 0)
        && (w in dict ==> dict[w] == Postings(docs, w) && SumCounts(dict[w]) == Total(docs, w))
  {
    hide Lines, Cuts, Counted, Postings, Total, Unlines, IndexLines, Ascending, Loaded;
    var mps, wordFreq, wordDocFreq, docLength := BuildIndex(Lines(file), segment);
    ghost var docs := DocsOf(Lines(file), segment);
    Conserved(docs, mps, wordFreq, wordDocFreq);
    LinesClean(file);
    DocsClean(Lines(file), segment);
    Indexed(docs, mps, wordFreq, wordDocFreq);
    var text := WriteIndex(mps);
    dict := LoadIndexDict(text);
    IndexRoundTrip(mps);
  }

  lemma Indexed(docs: seq<Doc>, mps: Index, wordFreq: map<Str, nat>, wordDocFreq: map<Str, nat>)
    requires Counted(docs, mps, wordFreq, wordDocFreq) && CleanWords(docs)
    ensures forall w :: w in mps <==> Total(docs, w) > 0
    ensures forall w :: w in mps ==>
      mps[w] == Postings(docs, w) && SumCounts(mps[w]) == Total(docs, w) && 9 !in w && 10 !in w
  {
    hide Postings, Total, SumCounts, CleanWords;
    forall w | w in mps
      ensures mps[w] == Postings(docs, w) && SumCounts(mps[w]) == Total(docs, w) && 9 !in w && 10 !in w
    {
      assert At(mps, w, []) == Postings(docs, w) && Total(docs, w) > 0;
      CountsAddUp(docs, w);
      WordOfDoc(docs, w);
    }
    assert forall w :: At(mps, w, []) == Postings(docs, w) && (w in mps <==> Total(docs, w) > 0);
  }
}
