/** The names of all features of a sentence: its templates, expanded at every token and every pair of neighbours. */
module Sentences {
  import opened Bytes
  import opened Dictionary
  import opened ModelFile
  import opened Template

  /** The templates are made of these pieces. */
  ghost predicate Parsed(templs: seq<Str>, pss: seq<Pieces>) {
    |templs| == |pss| && forall i :: 0 <= i < |pss| ==> Is(templs[i], pss[i])
  }

  /** Pieces can be found for all templates that do not end inside a reference. */
  lemma {:induction false} PiecesExist(templs: seq<Str>)
    requires forall i :: 0 <= i < |templs| ==> 0 !in templs[i] && !Unclosed(templs[i])
    ensures exists pss :: Parsed(templs, pss)
  {
    hide Is, Unclosed;
    var none: seq<Pieces> := [];
    if templs == [] {
      assert Parsed(templs, none);
    } else {
      var n := |templs| - 1;
      PiecesExist(templs[..n]);
      var pss :| Parsed(templs[..n], pss);
      TemplateOrUnclosed(templs[n]);
      var ps :| Is(templs[n], ps);
      assert Parsed(templs, pss + [ps]);
    }
  }

  ghost predicate Expands(pss: seq<Pieces>, pos: nat, x: Sentence, xsize: nat)
    requires pos < |x| && Columns(x, xsize)
  {
    forall i :: 0 <= i < |pss| ==> Expansion(pss[i], pos, x, xsize).Some?
  }

  /** The features of one token, or one pair of neighbours. */
  ghost function RowNames(pss: seq<Pieces>, pos: nat, x: Sentence, xsize: nat): (r: seq<Str>)
    requires pos < |x| && Columns(x, xsize) && Expands(pss, pos, x, xsize)
    ensures |r| == |pss|
  {
    seq(|pss|, i requires 0 <= i < |pss| => Expansion(pss[i], pos, x, xsize).value)
  }

  /** Every template can be expanded wherever it is applied: pair templates from the second token on. */
  ghost predicate SentenceExpands(us: seq<Pieces>, bs: seq<Pieces>, x: Sentence, xsize: nat)
    requires Columns(x, xsize)
  {
    && (forall pos :: 0 <= pos < |x| ==> Expands(us, pos, x, xsize))
    && (forall pos :: 0 < pos < |x| ==> Expands(bs, pos, x, xsize))
  }

  ghost function SentenceNames(us: seq<Pieces>, bs: seq<Pieces>, x: Sentence, xsize: nat): (ns: Names)
    requires |x| > 0 && Columns(x, xsize) && SentenceExpands(us, bs, x, xsize)
    ensures |ns.uni| == |x| && |ns.bi| == |x| - 1
  {
    Names(seq(|x|, i requires 0 <= i < |x| => RowNames(us, i, x, xsize)),
          seq(|x| - 1, i requires 0 <= i < |x| - 1 => RowNames(bs, i + 1, x, xsize)))
  }

  lemma RowLength(templs: seq<Str>, pss: seq<Pieces>)
    requires Parsed(templs, pss)
    ensures |pss| == |templs|
  {}

  ghost predicate ExpandsFrom(pss: seq<Pieces>, first: nat, n: nat, x: Sentence, xsize: nat)
    requires n <= |x| && Columns(x, xsize)
  {
    forall pos :: first <= pos < n ==> Expands(pss, pos, x, xsize)
  }

  /** The rows first .. n - 1. */
  ghost function RowsFrom(pss: seq<Pieces>, first: nat, n: nat, x: Sentence, xsize: nat): seq<seq<Str>>
    requires first <= n <= |x| && Columns(x, xsize) && ExpandsFrom(pss, first, n, x, xsize)
  {
    seq(n - first, i requires 0 <= i < n - first => RowNames(pss, first + i, x, xsize))
  }

  /** The rows of both loops are those of the sentence. */
  lemma SentenceRows(us: seq<Pieces>, bs: seq<Pieces>, x: Sentence, xsize: nat)
    requires |x| > 0 && Columns(x, xsize)
    requires ExpandsFrom(us, 0, |x|, x, xsize) && ExpandsFrom(bs, 1, |x|, x, xsize)
    ensures SentenceExpands(us, bs, x, xsize)
    ensures SentenceNames(us, bs, x, xsize).uni == RowsFrom(us, 0, |x|, x, xsize)
    ensures SentenceNames(us, bs, x, xsize).bi == RowsFrom(bs, 1, |x|, x, xsize)
  {
    hide Expands, RowNames;
  }

  /** Features of tokens start with U, those of pairs with B. */
  lemma SentenceWellNamed(unigram: seq<Str>, bigram: seq<Str>, us: seq<Pieces>, bs: seq<Pieces>, x: Sentence,
                          xsize: nat)
    requires |x| > 0 && Columns(x, xsize) && SentenceExpands(us, bs, x, xsize)
    requires Parsed(unigram, us) && Parsed(bigram, bs) && Templates(unigram, 85) && Templates(bigram, 66)
    ensures WellNamed(SentenceNames(us, bs, x, xsize))
  {
    hide Is, Expansion, Columns;
    var ns := SentenceNames(us, bs, x, xsize);
    forall i, k | 0 <= i < |ns.uni| && 0 <= k < |ns.uni[i]| ensures ns.uni[i][k] != [] && ns.uni[i][k][0] == 85 {
      assert Expands(us, i, x, xsize);
      ExpansionStarts(unigram[k], us[k], i, x, xsize);
    }
    forall i, k | 0 <= i < |ns.bi| && 0 <= k < |ns.bi[i]| ensures ns.bi[i][k] != [] && ns.bi[i][k][0] == 66 {
      assert Expands(bs, i + 1, x, xsize);
      ExpansionStarts(bigram[k], bs[k], i + 1, x, xsize);
    }
  }

  /** The templates applied to a sentence of this length refer to columns below n only. */
  ghost predicate ColumnsCovered(us: seq<Pieces>, bs: seq<Pieces>, length: nat, n: nat) {
    && (length > 0 ==> AllBelow(us, n))
    && (length > 1 ==> AllBelow(bs, n))
  }

  ghost predicate AllBelow(pss: seq<Pieces>, n: nat) {
    forall i :: 0 <= i < |pss| ==> ColumnsBelow(pss[i], n)
  }

  /** Some template refers to the column before n. */
  ghost predicate SomeUses(pss: seq<Pieces>, n: nat) {
    exists i :: 0 <= i < |pss| && Uses(pss[i], n)
  }

  /** Below two bounds is below the smaller one, and the number of columns always is a bound. */
  lemma CoveredBoth(us: seq<Pieces>, bs: seq<Pieces>, x: Sentence, xsize: nat, m: nat, n: nat)
    requires Columns(x, xsize) && SentenceExpands(us, bs, x, xsize) && ColumnsCovered(us, bs, |x|, m)
    requires n == xsize || n == m
    ensures ColumnsCovered(us, bs, |x|, n)
  {
    hide Expansion, ColumnsBelow, Columns;
    if |x| > 0 {
      assert Expands(us, 0, x, xsize);
      forall i | 0 <= i < |us| ensures ColumnsBelow(us[i], xsize) { ExpansionBelow(us[i], 0, x, xsize); }
    }
    if |x| > 1 {
      assert Expands(bs, 1, x, xsize);
      forall i | 0 <= i < |bs| ensures ColumnsBelow(bs[i], xsize) { ExpansionBelow(bs[i], 1, x, xsize); }
    }
  }

  lemma RowNarrow(pss: seq<Pieces>, pos: nat, x: Sentence, xsize: nat, n: nat)
    requires pos < |x| && Columns(x, xsize) && n <= xsize && AllBelow(pss, n)
    ensures Columns(Narrowed(x, n), n)
    ensures Expands(pss, pos, Narrowed(x, n), n) <==> Expands(pss, pos, x, xsize)
    ensures Expands(pss, pos, x, xsize) ==> RowNames(pss, pos, Narrowed(x, n), n) == RowNames(pss, pos, x, xsize)
  {
    hide Expansion, ColumnsBelow;
    forall i | 0 <= i < |pss| ensures Expansion(pss[i], pos, Narrowed(x, n), n) == Expansion(pss[i], pos, x, xsize) {
      ExpansionNarrow(pss[i], pos, x, xsize, n);
    }
  }

  /** Columns beyond those the templates refer to do not matter. */
  lemma SentenceNarrow(us: seq<Pieces>, bs: seq<Pieces>, x: Sentence, xsize: nat, n: nat)
    requires |x| > 0 && Columns(x, xsize) && n <= xsize && ColumnsCovered(us, bs, |x|, n)
    requires SentenceExpands(us, bs, x, xsize)
    ensures Columns(Narrowed(x, n), n) && SentenceExpands(us, bs, Narrowed(x, n), n)
    ensures SentenceNames(us, bs, Narrowed(x, n), n) == SentenceNames(us, bs, x, xsize)
  {
    hide Expands, RowNames, AllBelow, Columns;
    NarrowColumns(x, xsize, n);
    var x' := Narrowed(x, n);
    forall pos | 0 <= pos < |x|
      ensures Expands(us, pos, x', n) && RowNames(us, pos, x', n) == RowNames(us, pos, x, xsize)
    {
      assert Expands(us, pos, x, xsize);
      RowNarrow(us, pos, x, xsize, n);
    }
    forall pos | 0 < pos < |x|
      ensures Expands(bs, pos, x', n) && RowNames(bs, pos, x', n) == RowNames(bs, pos, x, xsize)
    {
      assert Expands(bs, pos, x, xsize);
      RowNarrow(bs, pos, x, xsize, n);
    }
  }

  lemma NarrowColumns(x: Sentence, xsize: nat, n: nat)
    requires Columns(x, xsize) && n <= xsize
    ensures (forall i :: 0 <= i < |x| ==> n <= |x[i]|) && Columns(Narrowed(x, n), n) && |Narrowed(x, n)| == |x|
  {}
}
