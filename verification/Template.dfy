/** feature.cpp get_index and apply_rule: expanding a feature template at a token of a sentence. */
module Template {
  import opened Bytes
  import opened Text
  import opened ModelFile
  import opened Options
  import opened ModelReader

  /** A template is made of characters and of references to a column of the token some rows away. It may end in a text
      that should be a reference but is none. */
  datatype Piece = Char(b: byte) | Ref(neg: bool, row: Str, col: Str) | Bad(rest: Str)

  type Pieces = seq<Piece>

  ghost predicate AllDigits(s: Str) {
    forall i :: 0 <= i < |s| ==> IsDigit(s[i])
  }

  ghost predicate WellFormed(ps: Pieces) {
    forall i :: 0 <= i < |ps| ==>
      match ps[i]
      case Char(b) => b != 37 && b != 0
      case Ref(_, row, col) => AllDigits(row) && AllDigits(col)
      case Bad(rest) => i == |ps| - 1 && Malformed(rest, 0)
  }

  /** From p to q there are only digits. */
  ghost predicate DigitsIn(t: Str, p: nat, q: nat) {
    p <= q <= |t| && forall i :: p <= i < q ==> IsDigit(t[i])
  }

  /** The digits from p on end at q, where the byte stop is. */
  ghost predicate NumberEnds(t: Str, p: nat, q: nat, stop: byte) {
    DigitsIn(t, p, q) && q < |t| && t[q] == stop
  }

  /** The digits from p on are followed by something other than the byte stop. */
  ghost predicate Stuck(t: Str, p: nat, stop: byte) {
    exists q: nat :: DigitsIn(t, p, q) && q < |t| && !IsDigit(t[q]) && t[q] != stop
  }

  /** Where the row number of a reference starts. */
  ghost function RowStart(t: Str, p: nat): nat {
    if p + 1 < |t| && t[p + 1] == 45 then p + 2 else p + 1
  }

  /** At p there is no reference, and never will be however the text goes on. */
  ghost predicate BadRef(t: Str, p: nat) {
    p >= |t| || t[p] != 91 || Stuck(t, RowStart(t, p), 44) ||
    exists q: nat :: NumberEnds(t, RowStart(t, p), q, 44) && Stuck(t, q + 1, 93)
  }

  /** A percent sign at p without a reference behind it. */
  ghost predicate Malformed(t: Str, p: nat) {
    p < |t| && t[p] == 37 && (p + 1 == |t| || t[p + 1] != 120 || BadRef(t, p + 2))
  }

  /** `[row,col]`, with an optional minus sign. */
  function RefText(p: Piece): Str
    requires p.Ref?
  {
    Concat(RefPieces(p))
  }

  function RefPieces(p: Piece): seq<Str>
    requires p.Ref?
  {
    [[91], if p.neg then [45] else [], p.row, [44], p.col, [93]]
  }

  function PieceText(p: Piece): Str {
    match p
    case Char(b) => [b]
    case Ref(_, _, _) => [37, 120] + RefText(p)
    case Bad(rest) => rest
  }

  ghost function PieceTexts(ps: Pieces): (r: seq<Str>)
    ensures |r| == |ps|
  {
    seq(|ps|, i requires 0 <= i < |ps| => PieceText(ps[i]))
  }

  /** How a template is written. */
  ghost function TemplateText(ps: Pieces): Str {
    Concat(PieceTexts(ps))
  }

  // ---------- meaning ----------

  /** Tokens of a sentence, each with its columns. */
  type Sentence = seq<seq<Str>>

  ghost predicate Columns(x: Sentence, xsize: nat) {
    forall i :: 0 <= i < |x| ==> |x[i]| == xsize
  }

  /** The entry at token idx: markers stand for the four tokens before the sentence and the four behind it. */
  ghost function Cell(x: Sentence, idx: int, col: nat): Str
    requires -4 <= idx < |x| + 4 && forall i :: 0 <= i < |x| ==> col < |x[i]|
  {
    if idx < 0 then [95, 66, 45, (48 - idx) as byte]
    else if idx >= |x| then [95, 66, 43, (49 + idx - |x|) as byte]
    else x[idx][col]
  }

  ghost function RowOf(p: Piece): int
    requires p.Ref?
  {
    if p.neg then -(Value(p.row, 0) as int) else Value(p.row, 0)
  }

  /** What a reference stands for at a token; nothing if it reaches too far. */
  ghost function Fetch(p: Piece, pos: nat, x: Sentence, xsize: nat): Option<Str>
    requires p.Ref? && pos < |x| && forall i :: 0 <= i < |x| ==> |x[i]| == xsize
  {
    var row, col := RowOf(p), Value(p.col, 0);
    if row < -4 || row > 4 || col >= xsize then None else Some(Cell(x, pos + row, col))
  }

  /** The template with every reference replaced; nothing if one of them reaches too far, or if it ends badly. */
  ghost function Expansion(ps: Pieces, pos: nat, x: Sentence, xsize: nat): Option<Str>
    requires pos < |x| && Columns(x, xsize)
  {
    if ps == [] then Some([])
    else
      var most, p := Expansion(ps[..|ps| - 1], pos, x, xsize), ps[|ps| - 1];
      if most.None? || p.Bad? then None
      else if p.Char? then Some(most.value + [p.b])
      else
        var c := Fetch(p, pos, x, xsize);
        if c.None? then None else Some(most.value + c.value)
  }

  /** No reference goes beyond column n. */
  ghost predicate ColumnsBelow(ps: Pieces, n: nat) {
    forall i :: 0 <= i < |ps| && ps[i].Ref? ==> Value(ps[i].col, 0) < n
  }

  /** Some reference is to the column before n. */
  ghost predicate Uses(ps: Pieces, n: nat) {
    exists i :: 0 <= i < |ps| && ps[i].Ref? && Value(ps[i].col, 0) + 1 == n
  }

  /** Once a part cannot be expanded, neither can the whole. */
  lemma {:induction false} StaysNone(ps: Pieces, k: nat, pos: nat, x: Sentence, xsize: nat)
    requires pos < |x| && Columns(x, xsize) && k <= |ps| && Expansion(ps[..k], pos, x, xsize).None?
    ensures Expansion(ps, pos, x, xsize).None?
    decreases |ps|
  {
    if k < |ps| {
      assert ps[..|ps| - 1][..k] == ps[..k];
      StaysNone(ps[..|ps| - 1], k, pos, x, xsize);
    } else {
      assert ps[..k] == ps;
    }
  }

  // ---------- parsing ----------

  /** The digits ds, ended by the byte stop, are at p. */
  ghost predicate NumberAt(t: Str, p: nat, ds: Str, stop: byte) {
    AllDigits(ds) && !IsDigit(stop) && p + |ds| < |t| && t[p..p + |ds|] == ds && t[p + |ds|] == stop
  }

  /** The two digit loops of get_index. */
  method ReadNumber(t: Str, p0: nat, stop: byte) returns (ok: bool, v: nat, p: nat)
    requires p0 <= |t| && !IsDigit(stop)
    ensures DigitsIn(t, p0, p) && v == Value(t[p0..p], 0)
    ensures ok ==> p == |t| || t[p] == stop
    ensures !ok ==> p < |t| && !IsDigit(t[p]) && t[p] != stop
  {
    ok, v, p := true, 0, p0;
    while p < |t| && t[p] != stop
      invariant DigitsIn(t, p0, p) && v == Value(t[p0..p], 0)
    {
      if !(48 <= t[p] <= 57) {
        ok := false;
        return;
      }
      assert t[p0..p + 1] == t[p0..p] + [t[p]];
      ValueMore(t[p0..p], t[p], 0);
      v := 10 * v + (t[p] as nat - 48);
      p := p + 1;
    }
  }

  /** Where a number ends is determined. */
  lemma SameEnd(t: Str, p: nat, q: nat, q': nat)
    requires DigitsIn(t, p, q) && DigitsIn(t, p, q')
    requires (q == |t| || !IsDigit(t[q])) && (q' == |t| || !IsDigit(t[q']))
    ensures q == q'
  {}

  lemma NumberIs(t: Str, p: nat, ds: Str, stop: byte)
    requires NumberAt(t, p, ds, stop)
    ensures NumberEnds(t, p, p + |ds|, stop) && t[p..p + |ds|] == ds
  {
    forall i | p <= i < p + |ds| ensures IsDigit(t[i]) { assert t[i] == t[p..p + |ds|][i - p]; }
  }

  /** Where the row and the column number end. */
  ghost predicate Numbers(t: Str, p: nat, q: nat, q': nat) {
    p < |t| && t[p] == 91 && NumberEnds(t, RowStart(t, p), q, 44) && NumberEnds(t, q + 1, q', 93)
  }

  lemma RefNumbers(t: Str, p: nat, ref: Piece)
    requires RefAt(t, p, ref)
    ensures ref.Ref?
    ensures var q := RowStart(t, p) + |ref.row|; var q' := q + 1 + |ref.col|;
      && Numbers(t, p, q, q') && q' == p + |RefText(ref)| - 1
      && t[RowStart(t, p)..q] == ref.row && t[q + 1..q'] == ref.col
      && (t[p + 1] == 45 <==> ref.neg)
  {
    hide RefText, AllDigits, NumberAt, NumberEnds;
    RefParts(t, p, ref);
    NumberIs(t, RowStart(t, p), ref.row, 44);
    NumberIs(t, RowStart(t, p) + |ref.row| + 1, ref.col, 93);
  }

  ghost predicate RefAt(t: Str, p: nat, ref: Piece) {
    && ref.Ref? && AllDigits(ref.row) && AllDigits(ref.col)
    && p + |RefText(ref)| <= |t| && t[p..p + |RefText(ref)|] == RefText(ref)
  }

  /** Where the parts of a reference are. */
  lemma RefSlices(t: Str, p: nat, ref: Piece)
    requires RefAt(t, p, ref)
    ensures var k := if ref.neg then 1 else 0; var q := p + 1 + k; var q' := q + |ref.row| + 1;
      && p + |RefText(ref)| == q' + |ref.col| + 1
      && t[p..p + 1] == [91] && t[p + 1..q] == (if ref.neg then [45] else [])
      && t[q..q + |ref.row|] == ref.row && t[q + |ref.row|..q'] == [44]
      && t[q'..q' + |ref.col|] == ref.col && t[q' + |ref.col|..q' + |ref.col| + 1] == [93]
  {
    hide Concat, Start, RefPieces, AllDigits;
    RefStarts(ref);
    var ps := RefPieces(ref);
    PartIn(t, p, ps, 0);
    PartIn(t, p, ps, 1);
    PartIn(t, p, ps, 2);
    PartIn(t, p, ps, 3);
    PartIn(t, p, ps, 4);
    PartIn(t, p, ps, 5);
  }

  /** What the parser finds in a reference. */
  lemma RefParts(t: Str, p: nat, ref: Piece)
    requires RefAt(t, p, ref)
    ensures p + 1 < |t| && t[p] == 91 && (t[p + 1] == 45 <==> ref.neg)
    ensures var q := p + 1 + if ref.neg then 1 else 0;
      && NumberAt(t, q, ref.row, 44) && NumberAt(t, q + |ref.row| + 1, ref.col, 93)
      && p + |RefText(ref)| == q + |ref.row| + 1 + |ref.col| + 1
  {
    hide RefText, AllDigits;
    RefSlices(t, p, ref);
    var q := p + 1 + if ref.neg then 1 else 0;
    var q' := q + |ref.row| + 1;
    SlicedFirst(t, p, [91]);
    SlicedFirst(t, p + 1, if ref.neg then [45] else []);
    SlicedFirst(t, q, ref.row);
    SlicedFirst(t, q + |ref.row|, [44]);
    SlicedFirst(t, q' + |ref.col|, [93]);
    NotMinus(ref.row);
  }

  lemma RefStarts(ref: Piece)
    requires ref.Ref?
    ensures var ps, k := RefPieces(ref), if ref.neg then 1 else 0;
      && ps == [[91], if ref.neg then [45] else [], ref.row, [44], ref.col, [93]]
      && Start(ps, 0) == 0 && Start(ps, 1) == 1 && Start(ps, 2) == 1 + k && Start(ps, 3) == 1 + k + |ref.row|
      && Start(ps, 4) == 2 + k + |ref.row| && Start(ps, 5) == 2 + k + |ref.row| + |ref.col|
      && |RefText(ref)| == 3 + k + |ref.row| + |ref.col|
  {
    hide Concat, Start;
    var ps := RefPieces(ref);
    StartsEnds(ps);
    PartAt(ps, 0); PartAt(ps, 1); PartAt(ps, 2); PartAt(ps, 3); PartAt(ps, 4); PartAt(ps, 5);
  }

  lemma NotMinus(s: Str)
    requires AllDigits(s)
    ensures s != [] ==> s[0] != 45
    ensures !IsDigit(44) && !IsDigit(93)
  {}

  /** Part k of a concatenation, in a text that holds it from p on. */
  lemma PartIn(t: Str, p: nat, ps: seq<Str>, k: nat)
    requires k < |ps| && p + |Concat(ps)| <= |t| && t[p..p + |Concat(ps)|] == Concat(ps)
    ensures Start(ps, k + 1) == Start(ps, k) + |ps[k]| <= |Concat(ps)|
    ensures t[p + Start(ps, k)..p + Start(ps, k) + |ps[k]|] == ps[k]
  {
    hide Concat, Start;
    PartAt(ps, k);
    SubSlice(t, p, Concat(ps), Start(ps, k), |ps[k]|);
  }

  lemma SlicedFirst(t: Str, p: nat, s: Str)
    requires p + |s| <= |t| && t[p..p + |s|] == s
    ensures s != [] ==> t[p] == s[0]
  {
    if s != [] { assert t[p] == t[p..p + |s|][0]; }
  }

  /** "_B-1" to "_B-4", and "_B+1" to "_B+4". */
  const BOS: seq<Str> := [[95, 66, 45, 49], [95, 66, 45, 50], [95, 66, 45, 51], [95, 66, 45, 52]]
  const EOS: seq<Str> := [[95, 66, 43, 49], [95, 66, 43, 50], [95, 66, 43, 51], [95, 66, 43, 52]]

  lemma MarkerAt(d: nat)
    requires 1 <= d <= 4
    ensures BOS[d - 1] == [95, 66, 45, (48 + d) as byte] && EOS[d - 1] == [95, 66, 43, (48 + d) as byte]
  {
    if d == 1 {} else if d == 2 {} else if d == 3 {} else {}
  }

  /** What get_index returns once row and column are known. */
  method Entry(x: Sentence, idx: int, col: nat) returns (r: Str)
    requires -4 <= idx < |x| + 4 && forall i :: 0 <= i < |x| ==> col < |x[i]|
    ensures r == Cell(x, idx, col)
  {
    if idx < 0 {
      MarkerAt(-idx);
      return BOS[-idx - 1];
    }
    if idx >= |x| {
      MarkerAt(idx - |x| + 1);
      return EOS[idx - |x|];
    }
    return x[idx][col];
  }

  /** get_index: the entry a reference stands for; p stays on the closing bracket. max is the largest column used. */
  method GetIndex(t: Str, p0: nat, pos: nat, x: Sentence, xsize: nat, max0: nat, ghost ref: Piece)
    returns (r: Option<Str>, p: nat, max: nat)
    requires pos < |x| && Columns(x, xsize) && p0 <= |t|
    ensures p0 <= p && max0 <= max
    ensures r.None? ==> max == max0
    ensures RefAt(t, p0, ref) ==> max == max0 || max == Value(ref.col, 0) + 1
    ensures RefAt(t, p0, ref) ==> r == Fetch(ref, pos, x, xsize)
    ensures RefAt(t, p0, ref) && r.Some? ==> p == p0 + |RefText(ref)| - 1 && Value(ref.col, 0) < max
    ensures BadRef(t, p0) ==> r.None?
  {
    hide RefText, Columns, RefAt, BadRef, DigitsIn, Cell, AllDigits;
    if RefAt(t, p0, ref) { RefNumbers(t, p0, ref); }
    ghost var start := RowStart(t, p0);
    r, p, max := None, p0, max0;
    if p == |t| || t[p] != 91 {
      return;
    }
    p := p + 1;
    var neg := p < |t| && t[p] == 45;
    if neg { p := p + 1; }
    assert p == start;
    var ok, row, col;
    ok, row, p := ReadNumber(t, p, 44);
    ghost var q := p;
    if RefAt(t, p0, ref) { SameEnd(t, start, q, start + |ref.row|); }
    if !ok { return; }
    if p < |t| { p := p + 1; }
    ok, col, p := ReadNumber(t, p, 93);
    if RefAt(t, p0, ref) { SameEnd(t, q + 1, p, q + 1 + |ref.col|); }
    if !ok { return; }
    NotBad(t, p0, q, p);
    var signed := if neg then -(row as int) else row;
    if signed < -4 || signed > 4 || col >= xsize { return; }
    if max < col + 1 { max := col + 1; }
    Widths(x, xsize);
    var entry := Entry(x, pos + signed, col);
    r := Some(entry);
  }

  /** If both numbers end well, or the text ends with one of them, the reference is not bad. */
  lemma NotBad(t: Str, p: nat, q: nat, q': nat)
    requires p < |t| && t[p] == 91 && DigitsIn(t, RowStart(t, p), q) && (q == |t| || t[q] == 44)
    requires q < |t| ==> DigitsIn(t, q + 1, q') && (q' == |t| || t[q'] == 93)
    ensures !BadRef(t, p)
  {
    hide DigitsIn;
    var start := RowStart(t, p);
    if Stuck(t, start, 44) {
      var k: nat :| DigitsIn(t, start, k) && k < |t| && !IsDigit(t[k]) && t[k] != 44;
      SameEnd(t, start, q, k);
    }
    if k: nat :| NumberEnds(t, start, k, 44) && Stuck(t, k + 1, 93) {
      SameEnd(t, start, q, k);
      var k': nat :| DigitsIn(t, k + 1, k') && k' < |t| && !IsDigit(t[k']) && t[k'] != 93;
      SameEnd(t, k + 1, q', k');
    }
  }

  lemma Widths(x: Sentence, xsize: nat)
    requires Columns(x, xsize)
    ensures forall i :: 0 <= i < |x| ==> |x[i]| == xsize
  {}

  // ---------- expanding ----------

  /** The template is one of well-formed pieces. */
  ghost predicate Is(t: Str, ps: Pieces) {
    WellFormed(ps) && t == TemplateText(ps)
  }

  /** The pieces before k have been read up to p and replaced by os, none of them going beyond column max. */
  ghost predicate ReadUpTo(t: Str, ps: Pieces, k: nat, p: nat, pos: nat, x: Sentence, xsize: nat, os: Str, max: nat)
    requires pos < |x| && Columns(x, xsize)
  {
    && k <= |ps| && Is(t, ps) && p == Start(PieceTexts(ps), k)
    && Expansion(ps[..k], pos, x, xsize) == Some(os) && ColumnsBelow(ps[..k], max)
  }

  /** What comes next in a template: a character, or a percent sign, an x, and a reference. */
  lemma NextPiece(t: Str, ps: Pieces, k: nat)
    requires Is(t, ps) && k <= |ps|
    ensures var p := Start(PieceTexts(ps), k);
      && (k == |ps| ==> p == |t|)
      && (k < |ps| ==> Start(PieceTexts(ps), k + 1) == p + |PieceText(ps[k])|)
      && (k < |ps| ==> Start(PieceTexts(ps), k + 1) <= |t| && p < |t|)
      && (k < |ps| && ps[k].Char? ==> t[p] == ps[k].b != 37)
      && (k < |ps| && ps[k].Ref? ==> p + 1 < |t| && t[p] == 37 && t[p + 1] == 120 && RefAt(t, p + 2, ps[k]))
      && (k < |ps| && ps[k].Bad? ==> k + 1 == |ps| && Malformed(t, p))
  {
    hide Concat, Start, RefText, AllDigits, Malformed;
    var texts := PieceTexts(ps);
    StartsEnds(texts);
    if k < |ps| {
      PartAt(texts, k);
      var p, s := Start(texts, k), texts[k];
      if ps[k].Bad? {
        assert t[p..p + |s|] == t[p..];
        MalformedAt(t, p);
      }
      SlicedFirst(t, p, s);
      if ps[k].Ref? {
        assert t[p..p + |s|] == [37, 120] + RefText(ps[k]);
        assert t[p + 1] == t[p..p + |s|][1];
        assert t[p + 2..p + |s|] == t[p..p + |s|][2..];
      }
    }
  }

  /** What is malformed as a text is so at the end of another. */
  lemma MalformedAt(t: Str, p: nat)
    requires p <= |t|
    ensures Malformed(t[p..], 0) <==> Malformed(t, p)
    ensures Malformed(t, p) ==> p < |t|
  {
    hide DigitsIn, Stuck;
    var r := t[p..];
    if |r| > 2 && r[1] == 120 && r[2] == 91 {
      var start := RowStart(r, 2);
      assert RowStart(t, p + 2) == p + start;
      StuckAt(t, p, start, 44);
      forall q: nat | NumberEnds(r, start, q, 44) && Stuck(r, q + 1, 93) ensures BadRef(t, p + 2) {
        DigitsAt(t, p, start, q);
        StuckAt(t, p, q + 1, 93);
        assert NumberEnds(t, p + start, p + q, 44);
      }
      var from := p + start;
      forall q: nat | NumberEnds(t, from, q, 44) && Stuck(t, q + 1, 93) ensures BadRef(r, 2) {
        NotBefore(t, from, q);
        DigitsAt(t, p, start, q - p);
        StuckAt(t, p, q - p + 1, 93);
        assert NumberEnds(r, start, q - p, 44);
      }
    }
  }

  lemma NotBefore(t: Str, p: nat, q: nat)
    requires DigitsIn(t, p, q)
    ensures p <= q <= |t|
  {}

  lemma DigitsAt(t: Str, p: nat, a: nat, b: nat)
    requires p <= |t|
    ensures DigitsIn(t[p..], a, b) <==> DigitsIn(t, p + a, p + b)
  {
    if DigitsIn(t[p..], a, b) {
      forall i | p + a <= i < p + b ensures IsDigit(t[i]) { assert t[i] == t[p..][i - p]; }
    }
  }

  lemma StuckAt(t: Str, p: nat, a: nat, stop: byte)
    requires p <= |t|
    ensures Stuck(t[p..], a, stop) <==> Stuck(t, p + a, stop)
  {
    var r := t[p..];
    if Stuck(r, a, stop) {
      var q: nat :| DigitsIn(r, a, q) && q < |r| && !IsDigit(r[q]) && r[q] != stop;
      DigitsAt(t, p, a, q);
      assert DigitsIn(t, p + a, p + q) && t[p + q] == r[q];
    }
    if Stuck(t, p + a, stop) {
      var q: nat :| DigitsIn(t, p + a, q) && q < |t| && !IsDigit(t[q]) && t[q] != stop;
      DigitsAt(t, p, a, q - p);
      assert DigitsIn(r, a, q - p) && t[q] == r[q - p];
    }
  }

  lemma OneMorePiece(ps: Pieces, k: nat, pos: nat, x: Sentence, xsize: nat, os: Str, max: nat, max': nat)
    requires pos < |x| && Columns(x, xsize) && k < |ps| && max <= max'
    requires Expansion(ps[..k], pos, x, xsize) == Some(os) && ColumnsBelow(ps[..k], max)
    ensures ps[k].Char? ==> Expansion(ps[..k + 1], pos, x, xsize) == Some(os + [ps[k].b])
    ensures ps[k].Ref? ==> var c := Fetch(ps[k], pos, x, xsize);
      Expansion(ps[..k + 1], pos, x, xsize) == if c.None? then None else Some(os + c.value)
    ensures ps[k].Bad? ==> Expansion(ps[..k + 1], pos, x, xsize).None?
    ensures !ps[k].Ref? || Value(ps[k].col, 0) < max' ==> ColumnsBelow(ps[..k + 1], max')
  {
    assert ps[..k + 1][..k] == ps[..k];
  }

  /** apply_rule: the expansion of a template, if all its references are well written and stay within reach. A reference
      without a closing bracket, behind which the source would read on, ends the template. */
  method ApplyRule(t: Str, pos: nat, x: Sentence, xsize: nat, max0: nat, ghost ps: Pieces)
    returns (os: Option<Str>, max: nat)
    requires pos < |x| && Columns(x, xsize)
    ensures max0 <= max && (Is(t, ps) ==> max == max0 || Uses(ps, max))
    ensures Is(t, ps) ==> os == Expansion(ps, pos, x, xsize) && (os.Some? ==> ColumnsBelow(ps, max))
  {
    hide Columns, Expansion, ColumnsBelow, Start, Is, Fetch, RefAt, RefText, BadRef;
    var s: Str := [];
    var p, k := 0, 0;
    max := max0;
    NothingRead(t, ps, pos, x, xsize, max);
    while p < |t|
      invariant max0 <= max && (Is(t, ps) ==> ReadUpTo(t, ps, k, p, pos, x, xsize, s, max))
      invariant Is(t, ps) ==> max == max0 || Uses(ps, max)
      decreases |t| - p
    {
      if Is(t, ps) { NextPiece(t, ps, k); }
      ghost var more := Is(t, ps) && k < |ps|;
      if t[p] != 37 {
        if more { OneMorePiece(ps, k, pos, x, xsize, s, max, max); }
        s := s + [t[p]];
      } else {
        if more && ps[k].Bad? {
          OneMorePiece(ps, k, pos, x, xsize, s, max, max);
          StaysNone(ps, k + 1, pos, x, xsize);
        }
        p := p + 1;
        if p == |t| || t[p] != 120 { return None, max; }
        p := p + 1;
        ghost var ref := if more && ps[k].Ref? then ps[k] else Ref(false, [], []);
        var c;
        ghost var max1 := max;
        c, p, max := GetIndex(t, p, pos, x, xsize, max, ref);
        if more { OneMorePiece(ps, k, pos, x, xsize, s, max1, max); }
        assert more && max != max1 ==> Uses(ps, max);
        if c.None? {
          if more { StaysNone(ps, k + 1, pos, x, xsize); }
          return None, max;
        }
        s := s + c.value;
      }
      p := p + 1;
      k := k + 1;
    }
    if Is(t, ps) { NextPiece(t, ps, k); assert ps[..|ps|] == ps; }
    os := Some(s);
  }

  lemma NothingRead(t: Str, ps: Pieces, pos: nat, x: Sentence, xsize: nat, max: nat)
    requires pos < |x| && Columns(x, xsize)
    ensures Is(t, ps) ==> ReadUpTo(t, ps, 0, 0, pos, x, xsize, [], max)
  {
    StartsEnds(PieceTexts(ps));
  }

  /** What a template stands for that is one reference: the entry of the column so many rows before or behind, or one
      of eight markers; nothing if it reaches more than four rows or past the columns. */
  lemma OneReference(neg: bool, row: Str, col: Str, pos: nat, x: Sentence, xsize: nat)
    requires pos < |x| && Columns(x, xsize)
    ensures var r, c := Value(row, 0), Value(col, 0); var i: int := if neg then pos - r else pos + r;
      var e := Expansion([Ref(neg, row, col)], pos, x, xsize);
      && (r > 4 || c >= xsize ==> e == None)
      && (r <= 4 && c < xsize && 0 <= i < |x| ==> e == Some(x[i][c]))
      && (r <= 4 && c < xsize && i == -1 ==> e == Some([95, 66, 45, 49]))
      && (r <= 4 && c < xsize && i == -2 ==> e == Some([95, 66, 45, 50]))
      && (r <= 4 && c < xsize && i == -3 ==> e == Some([95, 66, 45, 51]))
      && (r <= 4 && c < xsize && i == -4 ==> e == Some([95, 66, 45, 52]))
      && (r <= 4 && c < xsize && i == |x| ==> e == Some([95, 66, 43, 49]))
      && (r <= 4 && c < xsize && i == |x| + 1 ==> e == Some([95, 66, 43, 50]))
      && (r <= 4 && c < xsize && i == |x| + 2 ==> e == Some([95, 66, 43, 51]))
      && (r <= 4 && c < xsize && i == |x| + 3 ==> e == Some([95, 66, 43, 52]))
  {
    hide Value;
    var none: Pieces := [];
    assert [Ref(neg, row, col)][..0] == none;
    assert Expansion(none, pos, x, xsize) == Some([]);
    assert forall s: Str :: [] + s == s;
  }

  /** A character stands for itself, and pieces are expanded one after the other. */
  lemma ExpansionMore(ps: Pieces, p: Piece, pos: nat, x: Sentence, xsize: nat)
    requires pos < |x| && Columns(x, xsize)
    ensures var a, b := Expansion(ps, pos, x, xsize), Expansion([p], pos, x, xsize);
      Expansion(ps + [p], pos, x, xsize) == if a.None? || b.None? then None else Some(a.value + b.value)
    ensures p.Char? ==> Expansion([p], pos, x, xsize) == Some([p.b])
    ensures p.Bad? ==> Expansion([p], pos, x, xsize) == None
  {
    hide Fetch;
    var none: Pieces := [];
    assert [p][..0] == none && (ps + [p])[..|ps|] == ps;
    assert Expansion(none, pos, x, xsize) == Some([]);
    assert forall s: Str :: [] + s == s;
  }

  // ---------- every text is a template, or ends inside a reference ----------

  /** From p on there is a reference without a closing bracket. */
  ghost predicate OpenRef(t: Str, p: nat) {
    && p < |t| && t[p] == 91
    && (DigitsIn(t, RowStart(t, p), |t|) ||
        exists q: nat :: NumberEnds(t, RowStart(t, p), q, 44) && DigitsIn(t, q + 1, |t|))
  }

  /** Up to p the text is made of these characters and references. */
  ghost predicate PiecesUpTo(t: Str, ps: Pieces, p: nat) {
    && p <= |t| && t[..p] == TemplateText(ps) && WellFormed(ps)
    && forall i :: 0 <= i < |ps| ==> !ps[i].Bad?
  }

  /** The text ends inside a reference. */
  ghost predicate Unclosed(t: Str) {
    exists ps, p: nat ::
      PiecesUpTo(t, ps, p) && p + 1 < |t| && t[p] == 37 && t[p + 1] == 120 && OpenRef(t, p + 2)
  }

  ghost predicate IsTemplate(t: Str) {
    exists ps :: Is(t, ps)
  }

  lemma DigitsEnd(t: Str, p: nat) returns (q: nat)
    requires p <= |t|
    ensures DigitsIn(t, p, q) && (q == |t| || !IsDigit(t[q]))
    decreases |t| - p
  {
    if p == |t| || !IsDigit(t[p]) { return p; }
    q := DigitsEnd(t, p + 1);
  }

  /** There are three cases: a reference, a bad one, and one without an end. */
  lemma ThreeCases(t: Str, p: nat) returns (q: nat, q': nat)
    requires p < |t| && t[p] == 91 && !BadRef(t, p) && !OpenRef(t, p)
    ensures Numbers(t, p, q, q')
  {
    hide DigitsIn;
    q := DigitsEnd(t, RowStart(t, p));
    assert q < |t| && t[q] == 44;
    q' := DigitsEnd(t, q + 1);
    assert NumberEnds(t, RowStart(t, p), q, 44);
  }

  lemma RefTextIs(ref: Piece)
    requires ref.Ref?
    ensures RefText(ref) == [91] + (if ref.neg then [45] else []) + ref.row + [44] + ref.col + [93]
  {
    hide Concat;
    var minus: Str := if ref.neg then [45] else [];
    var none: seq<Str> := [];
    assert Concat(none) == [] by { StartsEnds(none); }
    assert none + [[91]] == [[91]] && [] + [91] == [91];
    ConcatMore(none, [91]);
    ConcatTwo([[91]], minus, ref.row);
    assert [[91]] + [minus, ref.row] == [[91], minus, ref.row];
    ConcatTwo([[91], minus, ref.row], [44], ref.col);
    assert [[91], minus, ref.row] + [[44], ref.col] == [[91], minus, ref.row, [44], ref.col];
    ConcatMore([[91], minus, ref.row, [44], ref.col], [93]);
    assert [[91], minus, ref.row, [44], ref.col] + [[93]] == RefPieces(ref);
  }

  lemma ConcatTwo(ps: seq<Str>, p: Str, q: Str)
    ensures Concat(ps + [p, q]) == Concat(ps) + p + q
  {
    hide Concat;
    ConcatMore(ps, p);
    ConcatMore(ps + [p], q);
    assert ps + [p, q] == ps + [p] + [q];
  }

  /** What the numbers delimit is a reference. */
  lemma RefHere(t: Str, p: nat, q: nat, q': nat) returns (ref: Piece)
    requires Numbers(t, p, q, q')
    ensures p < q' < |t| && ref.Ref? && AllDigits(ref.row) && AllDigits(ref.col) && t[p..q' + 1] == RefText(ref)
  {
    hide RefText;
    var start := RowStart(t, p);
    ref := Ref(start == p + 2, t[start..q], t[q + 1..q']);
    RefTextIs(ref);
    FourCuts(t, p, start, q, q + 1, q');
    assert t[p..start] == [91] + (if ref.neg then [45] else []);
    assert t[q..q + 1] == [44] && t[q'..q' + 1] == [93];
  }

  lemma FourCuts(t: Str, p: nat, a: nat, b: nat, c: nat, d: nat)
    requires p <= a <= b <= c <= d < |t|
    ensures t[p..d + 1] == t[p..a] + t[a..b] + t[b..c] + t[c..d] + t[d..d + 1]
  {
    Cut(t, p, a, b);
    Cut(t, p, b, c);
    Cut(t, p, c, d);
    Cut(t, p, d, d + 1);
  }

  lemma Cut(t: Str, p: nat, a: nat, b: nat)
    requires p <= a <= b <= |t|
    ensures t[p..b] == t[p..a] + t[a..b]
  {}

  lemma MoreText(ps: Pieces, p: Piece)
    ensures TemplateText(ps + [p]) == TemplateText(ps) + PieceText(p)
  {
    hide PieceText;
    assert PieceTexts(ps + [p]) == PieceTexts(ps) + [PieceText(p)];
    ConcatMore(PieceTexts(ps), PieceText(p));
  }

  lemma OnePiece(t: Str, ps: Pieces, p: nat, piece: Piece, q: nat)
    requires PiecesUpTo(t, ps, p) && p <= q <= |t| && t[p..q] == PieceText(piece) && WellFormed([piece])
    ensures !piece.Bad? ==> PiecesUpTo(t, ps + [piece], q)
    ensures q == |t| ==> Is(t, ps + [piece])
  {
    hide Concat, TemplateText, PieceText, AllDigits, Malformed;
    MoreText(ps, piece);
    assert t[..q] == t[..p] + t[p..q];
    assert q == |t| ==> t[..q] == t;
    assert [piece][0] == piece;
  }

  /** A text without NUL is a template, with a bad end or without, unless it ends inside a reference. */
  lemma {:induction false} EveryText(t: Str, ps: Pieces, p: nat)
    requires PiecesUpTo(t, ps, p) && 0 !in t
    ensures Unclosed(t) || IsTemplate(t)
    decreases |t| - p
  {
    hide TemplateText, PieceText, Malformed, BadRef, OpenRef, Numbers, RefText;
    if p == |t| {
      assert t[..p] == t;
      assert Is(t, ps);
    } else if t[p] != 37 {
      CharHere(t, p);
      OnePiece(t, ps, p, Char(t[p]), p + 1);
      EveryText(t, ps + [Char(t[p])], p + 1);
    } else if Malformed(t, p) {
      MalformedAt(t, p);
      BadHere(t, p);
      OnePiece(t, ps, p, Bad(t[p..]), |t|);
    } else {
      NotMalformed(t, p);
      if !OpenRef(t, p + 2) {
        var q, q' := ThreeCases(t, p + 2);
        var ref := RefHere(t, p + 2, q, q');
        RefPiece(t, p, q', ref);
        OnePiece(t, ps, p, ref, q' + 1);
        EveryText(t, ps + [ref], q' + 1);
      }
    }
  }

  lemma CharHere(t: Str, p: nat)
    requires p < |t| && t[p] != 37 && 0 !in t
    ensures t[p..p + 1] == PieceText(Char(t[p])) && WellFormed([Char(t[p])])
  {
    assert t[p] in t;
  }

  lemma BadHere(t: Str, p: nat)
    requires p < |t| && Malformed(t[p..], 0)
    ensures t[p..|t|] == PieceText(Bad(t[p..])) && WellFormed([Bad(t[p..])])
  {}

  lemma NotMalformed(t: Str, p: nat)
    requires p < |t| && t[p] == 37 && !Malformed(t, p)
    ensures p + 2 < |t| && t[p + 1] == 120 && t[p + 2] == 91 && !BadRef(t, p + 2)
  {}

  lemma RefPiece(t: Str, p: nat, q': nat, ref: Piece)
    requires p + 1 < q' < |t| && t[p] == 37 && t[p + 1] == 120 && ref.Ref? && t[p + 2..q' + 1] == RefText(ref)
    requires AllDigits(ref.row) && AllDigits(ref.col)
    ensures t[p..q' + 1] == PieceText(ref) && WellFormed([ref])
  {
    assert t[p..q' + 1] == [t[p], t[p + 1]] + t[p + 2..q' + 1];
  }

  /** What a C string that is no template looks like. */
  lemma TemplateOrUnclosed(t: Str)
    requires 0 !in t
    ensures Unclosed(t) || IsTemplate(t)
  {
    var none: Pieces := [];
    assert PieceTexts(none) == [] && t[..0] == [];
    EveryText(t, none, 0);
  }

  // ---------- what expansions keep ----------

  lemma {:induction false} ExpansionPrefix(ps: Pieces, k: nat, pos: nat, x: Sentence, xsize: nat)
    requires pos < |x| && Columns(x, xsize) && k <= |ps| && Expansion(ps, pos, x, xsize).Some?
    ensures Expansion(ps[..k], pos, x, xsize).Some?
    ensures Expansion(ps[..k], pos, x, xsize).value <= Expansion(ps, pos, x, xsize).value
    decreases |ps|
  {
    if k < |ps| {
      assert ps[..|ps| - 1][..k] == ps[..k];
      ExpansionPrefix(ps[..|ps| - 1], k, pos, x, xsize);
    } else {
      assert ps[..k] == ps;
    }
  }

  /** An expansion starts with the first character of its template. */
  lemma ExpansionStarts(t: Str, ps: Pieces, pos: nat, x: Sentence, xsize: nat)
    requires pos < |x| && Columns(x, xsize) && Is(t, ps) && t != [] && t[0] != 37 && Expansion(ps, pos, x, xsize).Some?
    ensures Expansion(ps, pos, x, xsize).value != [] && Expansion(ps, pos, x, xsize).value[0] == t[0]
  {
    StartsEnds(PieceTexts(ps));
    NextPiece(t, ps, 0);
    ExpansionPrefix(ps, 1, pos, x, xsize);
    assert ps[..1] == [ps[0]] && [ps[0]][..0] == [];
  }

  ghost predicate CStrings(x: Sentence) {
    forall i, j :: 0 <= i < |x| && 0 <= j < |x[i]| ==> 0 !in x[i][j]
  }

  /** Expansions of C strings are C strings. */
  lemma {:induction false} ExpansionNoNul(ps: Pieces, pos: nat, x: Sentence, xsize: nat)
    requires pos < |x| && Columns(x, xsize) && WellFormed(ps) && CStrings(x)
    ensures Expansion(ps, pos, x, xsize).Some? ==> 0 !in Expansion(ps, pos, x, xsize).value
  {
    if ps != [] {
      assert WellFormed(ps[..|ps| - 1]);
      ExpansionNoNul(ps[..|ps| - 1], pos, x, xsize);
    }
  }

  /** What can be expanded refers to existing columns only. */
  lemma {:induction false} ExpansionBelow(ps: Pieces, pos: nat, x: Sentence, xsize: nat)
    requires pos < |x| && Columns(x, xsize) && Expansion(ps, pos, x, xsize).Some?
    ensures ColumnsBelow(ps, xsize)
  {
    if ps != [] { ExpansionBelow(ps[..|ps| - 1], pos, x, xsize); }
  }

  /** The first n columns of every token. */
  function Narrowed(x: Sentence, n: nat): Sentence
    requires forall i :: 0 <= i < |x| ==> n <= |x[i]|
  {
    seq(|x|, i requires 0 <= i < |x| => x[i][..n])
  }

  /** Columns that no template refers to do not matter. */
  lemma {:induction false} ExpansionNarrow(ps: Pieces, pos: nat, x: Sentence, xsize: nat, n: nat)
    requires pos < |x| && Columns(x, xsize) && n <= xsize && ColumnsBelow(ps, n)
    ensures Expansion(ps, pos, Narrowed(x, n), n) == Expansion(ps, pos, x, xsize)
  {
    if ps != [] {
      ExpansionNarrow(ps[..|ps| - 1], pos, x, xsize, n);
    }
  }
}
