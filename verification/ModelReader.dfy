/** Reading the strings of a model file. */
module ModelReader {
  import opened Bytes
  import opened ModelFile
  import opened Options

  /** The first NUL from p on, or the end of the file if there is none. */
  method NulFrom(file: Str, p: nat) returns (e: nat)
    requires p <= |file|
    ensures p <= e <= |file| && 0 !in file[p..e] && (e < |file| ==> file[e] == 0)
  {
    e := p;
    while e < |file| && file[e] != 0
      invariant p <= e <= |file| && 0 !in file[p..e]
    {
      e := e + 1;
    }
  }

  /** The file has these strings, each ended by a NUL, from start on. */
  ghost predicate HasStrings(file: Str, start: nat, ss: seq<Str>) {
    NoNul(ss) && start + |Terminated(ss)| <= |file| && file[start..start + |Terminated(ss)|] == Terminated(ss)
  }

  lemma SubSlice(file: Str, start: nat, part: Str, q: nat, n: nat)
    requires start + |part| <= |file| && file[start..start + |part|] == part && q + n <= |part|
    ensures file[start + q..start + q + n] == part[q..q + n]
  {
    var x, y := file[start + q..start + q + n], part[q..q + n];
    forall i | 0 <= i < n ensures x[i] == y[i] { assert file[start..start + |part|][q + i] == part[q + i]; }
  }

  /** Where s and a NUL are, the first NUL is the one behind s. */
  lemma EndsAtNul(file: Str, p: nat, s: Str, e: nat)
    requires p + |s| + 1 <= |file| && file[p..p + |s| + 1] == s + [0] && 0 !in s
    ensures s != [] ==> file[p] == s[0]
    ensures p <= e < |file| && 0 !in file[p..e] && file[e] == 0 ==> e == p + |s| && file[p..e] == s
    ensures p <= e && e == |file| ==> 0 in file[p..e]
  {
    var at := file[p..p + |s| + 1];
    assert file[p + |s|] == at[|s|] == 0;
    forall i | p <= i < p + |s| ensures file[i] == s[i - p] { assert file[i] == at[i - p] && s[i - p] in s; }
    if p + |s| < e <= |file| { assert file[p..e][|s|] == 0; }
  }

  /** String k of a section is what lies before the first NUL from its start on. */
  lemma StringFound(file: Str, start: nat, ss: seq<Str>, k: nat, e: nat)
    requires HasStrings(file, start, ss) && k < |ss|
    ensures var p := start + Start(WithNuls(ss), k);
      && p < |file| && start + Start(WithNuls(ss), k + 1) == p + |ss[k]| + 1 <= start + |Terminated(ss)|
      && (ss[k] != [] ==> file[p] == ss[k][0])
      && (p <= e < |file| && 0 !in file[p..e] && file[e] == 0 ==> e == p + |ss[k]| && file[p..e] == ss[k])
      && (p <= e && e == |file| ==> 0 in file[p..e])
  {
    var ps, p := WithNuls(ss), start + Start(WithNuls(ss), k);
    var n := |ss[k]|;
    PartAt(ps, k);
    assert ps[k] == ss[k] + [0];
    SubSlice(file, start, Terminated(ss), p - start, n + 1);
    EndsAtNul(file, p, ss[k], e);
  }

  /** The loop over y_str in open. */
  method ReadTags(file: Str, start: nat, size: nat, ghost ss: seq<Str>) returns (r: Option<seq<Str>>)
    ensures HasStrings(file, start, ss) && size == |Terminated(ss)| ==> r == Some(ss)
  {
    hide HasStrings, WithNuls;
    ghost var good := HasStrings(file, start, ss) && size == |Terminated(ss)|;
    var ys := [];
    if start > |file| { SectionInside(file, start, ss); return None; }
    var pos := 0;
    StartsEnds(WithNuls(ss));
    while pos < size
      invariant start + pos <= |file|
      invariant good ==> |ys| <= |ss| && ys == ss[..|ys|] && pos == Start(WithNuls(ss), |ys|)
      decreases |file| - pos
    {
      var e := NulFrom(file, start + pos);
      if good { StringFound(file, start, ss, |ys|, e); }
      if e == |file| { return None; }
      ys := ys + [file[start + pos..e]];
      pos := e + 1 - start;
    }
    if good { AllRead(ss, |ys|); }
    return Some(ys);
  }

  lemma SectionInside(file: Str, start: nat, ss: seq<Str>)
    ensures HasStrings(file, start, ss) ==> start + |Terminated(ss)| <= |file|
  {}

  /** Only the last string ends where the section ends. */
  lemma AllRead(ss: seq<Str>, k: nat)
    requires k <= |ss| && Start(WithNuls(ss), k) >= |Terminated(ss)|
    ensures k == |ss| && ss[..k] == ss
  {
    if k < |ss| { PartAt(WithNuls(ss), k); }
  }

  // ---------- templates ----------

  /** Behind the templates come at most three NULs, and then a byte that is not NUL and one that is. */
  ghost predicate HasTemplates(file: Str, start: nat, size: nat, us: seq<Str>, bs: seq<Str>) {
    && HasStrings(file, start, us + bs)
    && (forall i :: 0 <= i < |us| ==> |us[i]| > 0 && us[i][0] == 85)
    && (forall i :: 0 <= i < |bs| ==> |bs[i]| > 0 && bs[i][0] == 66)
    && |Terminated(us + bs)| <= size
    && start + size + 1 < |file| && file[start + size] != 0 && file[start + size + 1] == 0
    && (forall i :: start + |Terminated(us + bs)| <= i < start + size ==> file[i] == 0)
  }

  /** The loop over tmpl_str has read us' and bs' and stands at pos. */
  ghost predicate ReadUpTo(file: Str, start: nat, size: nat, us: seq<Str>, bs: seq<Str>, us': seq<Str>, bs': seq<Str>,
                           pos: nat) {
    var k := |us'| + |bs'|;
    && |us'| <= |us| && |bs'| <= |bs| && us' == us[..|us'|] && bs' == bs[..|bs'|] && (|bs'| > 0 ==> |us'| == |us|)
    && if k < |us| + |bs| then pos == Start(WithNuls(us + bs), k)
       else |Terminated(us + bs)| <= pos && start + pos <= start + size + 2 <= |file|
  }

  datatype Error = WrongVersion | UnknownTemplate | Broken | Overrun

  datatype Templates = Templates(unigram: seq<Str>, bigram: seq<Str>) | Failed(error: Error)

  /** The loop over tmpl_str in open. A NUL where a template should start is skipped, together with all bytes up to
      and including the next NUL; after an odd number of padding bytes that runs over the end of the section. */
  method ReadTemplates(file: Str, start: nat, size: nat, ghost us: seq<Str>, ghost bs: seq<Str>) returns (r: Templates)
    ensures HasTemplates(file, start, size, us, bs) ==> r == Templates(us, bs)
  {
    hide HasTemplates, ReadUpTo;
    ghost var good := HasTemplates(file, start, size, us, bs);
    var us', bs': seq<Str> := [], [];
    if start > |file| { TemplatesInside(file, start, size, us, bs); return Failed(Overrun); }
    var pos := 0;
    ReadNothing(file, start, size, us, bs);
    while pos < size
      invariant start + pos <= |file|
      invariant good ==> ReadUpTo(file, start, size, us, bs, us', bs', pos)
      decreases |file| - pos
    {
      if start + pos == |file| { NextTemplate(file, start, size, us, bs, us', bs', pos, 0, 0); return Failed(Overrun); }
      var v := start + pos;
      var next := if file[v] == 0 then v + 1 else v;
      var e := NulFrom(file, next);
      NextTemplate(file, start, size, us, bs, us', bs', pos, next, e);
      if file[v] != 0 && file[v] != 85 && file[v] != 66 { return Failed(UnknownTemplate); }
      if e == |file| { return Failed(Overrun); }
      if file[v] == 85 {
        us' := us' + [file[v..e]];
      } else if file[v] == 66 {
        bs' := bs' + [file[v..e]];
      }
      pos := e + 1 - start;
    }
    ReadEverything(file, start, size, us, bs, us', bs', pos);
    return Templates(us', bs');
  }

  lemma TemplatesInside(file: Str, start: nat, size: nat, us: seq<Str>, bs: seq<Str>)
    ensures HasTemplates(file, start, size, us, bs) ==> start + size <= |file|
  {}

  lemma ReadNothing(file: Str, start: nat, size: nat, us: seq<Str>, bs: seq<Str>)
    ensures HasTemplates(file, start, size, us, bs) ==> ReadUpTo(file, start, size, us, bs, [], [], 0)
  {
    StartsEnds(WithNuls(us + bs));
  }

  lemma ReadEverything(file: Str, start: nat, size: nat, us: seq<Str>, bs: seq<Str>, us': seq<Str>, bs': seq<Str>,
                       pos: nat)
    requires pos >= size
    ensures HasTemplates(file, start, size, us, bs) && ReadUpTo(file, start, size, us, bs, us', bs', pos) ==>
      us' == us && bs' == bs
  {
    var k := |us'| + |bs'|;
    if HasTemplates(file, start, size, us, bs) && ReadUpTo(file, start, size, us, bs, us', bs', pos) && k < |us + bs| {
      AllRead(us + bs, k);
    }
  }

  /** One turn of the loop: the next template, or padding. */
  lemma NextTemplate(file: Str, start: nat, size: nat, us: seq<Str>, bs: seq<Str>, us': seq<Str>, bs': seq<Str>,
                     pos: nat, next: nat, e: nat)
    requires pos < size && start + pos <= |file|
    ensures HasTemplates(file, start, size, us, bs) && ReadUpTo(file, start, size, us, bs, us', bs', pos) ==>
      var v := start + pos;
      && v < |file| && (file[v] == 0 || file[v] == 85 || file[v] == 66)
      && (next <= e <= |file| && next == (if file[v] == 0 then v + 1 else v)
          && 0 !in file[next..e] && (e < |file| ==> file[e] == 0) ==>
          && e < |file|
          && (file[v] == 85 ==> ReadUpTo(file, start, size, us, bs, us' + [file[v..e]], bs', e + 1 - start))
          && (file[v] == 66 ==> ReadUpTo(file, start, size, us, bs, us', bs' + [file[v..e]], e + 1 - start))
          && (file[v] == 0 ==> ReadUpTo(file, start, size, us, bs, us', bs', e + 1 - start)))
  {
    if HasTemplates(file, start, size, us, bs) && ReadUpTo(file, start, size, us, bs, us', bs', pos) {
      var k := |us'| + |bs'|;
      if k < |us| + |bs| {
        TemplateTurn(file, start, size, us, bs, us', bs', pos, e);
      } else {
        PaddingTurn(file, start, size, us, bs, us', bs', pos, e);
      }
    }
  }

  lemma TemplateTurn(file: Str, start: nat, size: nat, us: seq<Str>, bs: seq<Str>, us': seq<Str>, bs': seq<Str>,
                     pos: nat, e: nat)
    requires HasTemplates(file, start, size, us, bs) && ReadUpTo(file, start, size, us, bs, us', bs', pos)
    requires |us'| + |bs'| < |us| + |bs|
    ensures var v := start + pos;
      && v < |file| && file[v] == (if |us'| < |us| then 85 else 66)
      && (v <= e <= |file| && 0 !in file[v..e] && (e < |file| ==> file[e] == 0) ==>
          && e < |file|
          && ReadUpTo(file, start, size, us, bs, if |us'| < |us| then us' + [file[v..e]] else us',
                      if |us'| < |us| then bs' else bs' + [file[v..e]], e + 1 - start))
  {
    var k := |us'| + |bs'|;
    hide HasStrings;
    StringFound(file, start, us + bs, k, e);
    StartsEnds(WithNuls(us + bs));
    hide WithNuls, Start;
  }

  lemma PaddingTurn(file: Str, start: nat, size: nat, us: seq<Str>, bs: seq<Str>, us': seq<Str>, bs': seq<Str>,
                    pos: nat, e: nat)
    requires HasTemplates(file, start, size, us, bs) && ReadUpTo(file, start, size, us, bs, us', bs', pos)
    requires pos < size && |us'| + |bs'| == |us| + |bs|
    ensures start + pos < |file| && file[start + pos] == 0
    ensures start + pos + 1 <= e <= |file| && 0 !in file[start + pos + 1..e] && (e < |file| ==> file[e] == 0) ==>
      e < |file| && ReadUpTo(file, start, size, us, bs, us', bs', e + 1 - start)
  {
    var z := if pos + 1 < size then start + pos + 1 else start + pos + 2;
    assert file[z] == 0;
    if start + pos + 1 <= e <= |file| && z < e { assert file[start + pos + 1..e][z - (start + pos + 1)] == 0; }
  }
}
