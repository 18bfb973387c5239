/** gtest.cc edit_distance: hunks, and the unified diff made of them. */
module UnifiedDiff {
  import opened EditScript
  import opened EditDistance

  // ---------- positions in a script ----------

  /** How many lines of the left side the script uses. */
  ghost function Lefts(s: Script): nat {
    if s == [] then 0 else Lefts(s[..|s| - 1]) + if s[|s| - 1] == Add then 0 else 1
  }

  ghost function Rights(s: Script): nat {
    if s == [] then 0 else Rights(s[..|s| - 1]) + if s[|s| - 1] == Remove then 0 else 1
  }

  /** Where the two sides are after the first k edits. */
  ghost function LeftAt(s: Script, k: nat): nat
    requires k <= |s|
  {
    Lefts(s[..k])
  }

  ghost function RightAt(s: Script, k: nat): nat
    requires k <= |s|
  {
    Rights(s[..k])
  }

  ghost predicate Turns(s: Script, left: seq<string>, right: seq<string>) {
    Replays(s, left, right, |left|, |right|)
  }

  lemma {:induction false} PrefixReplays(s: Script, left: seq<string>, right: seq<string>, i: nat, j: nat, k: nat)
    requires i <= |left| && j <= |right| && Replays(s, left, right, i, j) && k <= |s|
    ensures LeftAt(s, k) <= i && RightAt(s, k) <= j && Replays(s[..k], left, right, LeftAt(s, k), RightAt(s, k))
    ensures Lefts(s) == i && Rights(s) == j
    decreases |s|
  {
    if s != [] {
      var most, e := s[..|s| - 1], s[|s| - 1];
      var i', j' := if e == Add then i else i - 1, if e == Remove then j else j - 1;
      PrefixReplays(most, left, right, i', j', if k < |s| then k else |most|);
      if k < |s| { assert most[..k] == s[..k]; } else { assert s[..k] == s; }
    }
  }

  lemma EndAt(s: Script, left: seq<string>, right: seq<string>)
    requires Turns(s, left, right)
    ensures LeftAt(s, 0) == RightAt(s, 0) == 0 && LeftAt(s, |s|) == |left| && RightAt(s, |s|) == |right|
  {
    PrefixReplays(s, left, right, |left|, |right|, |s|);
    assert s[..|s|] == s;
  }

  lemma InSides(s: Script, left: seq<string>, right: seq<string>, k: nat)
    requires Turns(s, left, right) && k <= |s|
    ensures LeftAt(s, k) <= |left| && RightAt(s, k) <= |right|
  {
    PrefixReplays(s, left, right, |left|, |right|, k);
  }

  /** What edit k does. */
  lemma EditAt(s: Script, left: seq<string>, right: seq<string>, k: nat)
    requires Turns(s, left, right) && k < |s|
    ensures LeftAt(s, k + 1) == LeftAt(s, k) + (if s[k] == Add then 0 else 1) <= |left|
    ensures RightAt(s, k + 1) == RightAt(s, k) + (if s[k] == Remove then 0 else 1) <= |right|
    ensures s[k] == Match ==> left[LeftAt(s, k)] == right[RightAt(s, k)]
  {
    PrefixReplays(s, left, right, |left|, |right|, k + 1);
    assert s[..k + 1][..k] == s[..k];
  }

  /** The edits a .. b - 1 are all matches. */
  ghost predicate AllMatch(s: Script, a: nat, b: nat) {
    b <= |s| && forall k :: a <= k < b ==> s[k] == Match
  }

  /** Over a run of matches both sides advance together over equal lines. */
  lemma {:induction false} RunOfMatches(s: Script, left: seq<string>, right: seq<string>, a: nat, b: nat)
    requires Turns(s, left, right) && a <= b && AllMatch(s, a, b)
    ensures LeftAt(s, b) == LeftAt(s, a) + (b - a) <= |left| && RightAt(s, b) == RightAt(s, a) + (b - a) <= |right|
    ensures left[LeftAt(s, a)..LeftAt(s, b)] == right[RightAt(s, a)..RightAt(s, b)]
    decreases b - a
  {
    hide Turns, LeftAt, RightAt;
    InSides(s, left, right, a);
    if a < b {
      RunOfMatches(s, left, right, a, b - 1);
      EditAt(s, left, right, b - 1);
      Longer(left, LeftAt(s, a), LeftAt(s, b - 1));
      Longer(right, RightAt(s, a), RightAt(s, b - 1));
    }
  }

  lemma Longer<T>(x: seq<T>, a: nat, b: nat)
    requires a <= b < |x|
    ensures x[a..b + 1] == x[a..b] + [x[b]]
  {}

  // ---------- hunks ----------

  /** A line of a hunk: ' ' for a common line, '-' for a removed and '+' for an added one. */
  datatype Line = Line(kind: char, text: string)

  /** The lines of the left side, and those of the right side. */
  ghost function OldSide(ls: seq<Line>): seq<string> {
    if ls == [] then [] else OldSide(ls[..|ls| - 1]) + if ls[|ls| - 1].kind == '+' then [] else [ls[|ls| - 1].text]
  }

  ghost function NewSide(ls: seq<Line>): seq<string> {
    if ls == [] then [] else NewSide(ls[..|ls| - 1]) + if ls[|ls| - 1].kind == '-' then [] else [ls[|ls| - 1].text]
  }

  lemma {:induction false} SidesAppend(a: seq<Line>, b: seq<Line>)
    ensures OldSide(a + b) == OldSide(a) + OldSide(b) && NewSide(a + b) == NewSide(a) + NewSide(b)
    decreases |b|
  {
    if b == [] {
      assert a + b == a;
    } else {
      assert (a + b)[..|a + b| - 1] == a + b[..|b| - 1];
      SidesAppend(a, b[..|b| - 1]);
    }
  }

  lemma {:induction false} OneKind(ls: seq<Line>, kind: char)
    requires forall i :: 0 <= i < |ls| ==> ls[i].kind == kind
    ensures kind == '-' ==> NewSide(ls) == []
    ensures kind == '+' ==> OldSide(ls) == []
  {
    if ls != [] { OneKind(ls[..|ls| - 1], kind); }
  }

  lemma OneLine(l: Line)
    ensures OldSide([l]) == (if l.kind == '+' then [] else [l.text])
    ensures NewSide([l]) == (if l.kind == '-' then [] else [l.text])
  {
    assert [l][..0] == [];
  }

  /** Which lines of the left side are common and which removed; which of the right side are common and which added. */
  ghost function OldKinds(ls: seq<Line>): string {
    if ls == [] then "" else OldKinds(ls[..|ls| - 1]) + if ls[|ls| - 1].kind == '+' then "" else [ls[|ls| - 1].kind]
  }

  ghost function NewKinds(ls: seq<Line>): string {
    if ls == [] then "" else NewKinds(ls[..|ls| - 1]) + if ls[|ls| - 1].kind == '-' then "" else [ls[|ls| - 1].kind]
  }

  lemma {:induction false} KindsAppend(a: seq<Line>, b: seq<Line>)
    ensures OldKinds(a + b) == OldKinds(a) + OldKinds(b) && NewKinds(a + b) == NewKinds(a) + NewKinds(b)
    decreases |b|
  {
    if b == [] {
      assert a + b == a;
    } else {
      assert (a + b)[..|a + b| - 1] == a + b[..|b| - 1];
      KindsAppend(a, b[..|b| - 1]);
    }
  }

  lemma {:induction false} NoKinds(ls: seq<Line>, kind: char)
    requires forall i :: 0 <= i < |ls| ==> ls[i].kind == kind
    ensures kind == '-' ==> NewKinds(ls) == ""
    ensures kind == '+' ==> OldKinds(ls) == ""
  {
    if ls != [] { NoKinds(ls[..|ls| - 1], kind); }
  }

  /** The same for the lines that a script goes over. */
  ghost function OldMarks(s: Script): string {
    if s == [] then ""
    else OldMarks(s[..|s| - 1]) +
         match s[|s| - 1]
         case Match => " "
         case Add => ""
         case _ => "-"
  }

  ghost function NewMarks(s: Script): string {
    if s == [] then ""
    else NewMarks(s[..|s| - 1]) +
         match s[|s| - 1]
         case Match => " "
         case Remove => ""
         case _ => "+"
  }

  ghost function Matches(s: Script): nat {
    if s == [] then 0 else Matches(s[..|s| - 1]) + if s[|s| - 1] == Match then 1 else 0
  }

  /** These lines are marked as the script says. */
  ghost predicate Marked(ls: seq<Line>, common: nat, s: Script) {
    OldKinds(ls) == OldMarks(s) && NewKinds(ls) == NewMarks(s) && common == Matches(s)
  }

  lemma NothingMarked(s: Script, k: nat)
    requires k <= |s|
    ensures Marked([], 0, s[k..k])
  {}

  lemma MoreMarks(s: Script, a: nat, k: nat)
    requires a <= k < |s|
    ensures OldMarks(s[a..k + 1]) ==
            OldMarks(s[a..k]) + if s[k] == Match then " " else if s[k] == Add then "" else "-"
    ensures NewMarks(s[a..k + 1]) ==
            NewMarks(s[a..k]) + if s[k] == Match then " " else if s[k] == Remove then "" else "+"
    ensures Matches(s[a..k + 1]) == Matches(s[a..k]) + if s[k] == Match then 1 else 0
  {
    assert s[a..k + 1][..k - a] == s[a..k];
  }

  ghost predicate Kinds(ls: seq<Line>) {
    forall i :: 0 <= i < |ls| ==> ls[i].kind == ' ' || ls[i].kind == '-' || ls[i].kind == '+'
  }

  /** Added lines are never followed directly by removed ones. */
  ghost predicate RemovesFirst(ls: seq<Line>) {
    forall i :: 0 < i < |ls| && ls[i - 1].kind == '+' ==> ls[i].kind != '-'
  }

  lemma OneKindOnly(l: Line)
    ensures OldKinds([l]) == (if l.kind == '+' then "" else [l.kind])
    ensures NewKinds([l]) == (if l.kind == '-' then "" else [l.kind])
  {
    assert [l][..0] == [];
  }

  /** One line more on the sides that it belongs to, marked with its kind. */
  ghost predicate Pushed(before: seq<Line>, after: seq<Line>, l: Line) {
    && OldSide(after) == OldSide(before) + (if l.kind == '+' then [] else [l.text])
    && NewSide(after) == NewSide(before) + (if l.kind == '-' then [] else [l.text])
    && OldKinds(after) == OldKinds(before) + (if l.kind == '+' then "" else [l.kind])
    && NewKinds(after) == NewKinds(before) + (if l.kind == '-' then "" else [l.kind])
  }

  lemma PushedLast(ls: seq<Line>, l: Line)
    ensures Pushed(ls, ls + [l], l)
  {
    hide OldSide, NewSide, OldKinds, NewKinds;
    OneLine(l);
    OneKindOnly(l);
    SidesAppend(ls, [l]);
    KindsAppend(ls, [l]);
  }

  lemma PushedCommon(ls: seq<Line>, text: string)
    ensures Pushed(ls, ls + [Line(' ', text)], Line(' ', text))
  {
    PushedLast(ls, Line(' ', text));
  }

  lemma PushedAdded(ls: seq<Line>, adds: seq<Line>, text: string)
    ensures Pushed(ls + adds, ls + (adds + [Line('+', text)]), Line('+', text))
  {
    PushedLast(ls + adds, Line('+', text));
    assert ls + adds + [Line('+', text)] == ls + (adds + [Line('+', text)]);
  }

  lemma PushedRemoved(ls: seq<Line>, removes: seq<Line>, adds: seq<Line>, text: string)
    requires forall i :: 0 <= i < |adds| ==> adds[i].kind == '+'
    ensures Pushed(ls + removes + adds, ls + (removes + [Line('-', text)]) + adds, Line('-', text))
  {
    hide OldSide, NewSide, OldKinds, NewKinds;
    var l, rs := Line('-', text), ls + removes;
    PushedLast(rs, l);
    assert ls + (removes + [l]) == rs + [l];
    OneKind(adds, '+');
    NoKinds(adds, '+');
    SidesAppend(rs, adds);
    SidesAppend(rs + [l], adds);
    KindsAppend(rs, adds);
    KindsAppend(rs + [l], adds);
  }

  /** What PrintTo writes: the numbers of the header, and the lines. */
  datatype Printed = Printed(leftStart: nat, rightStart: nat, removes: nat, adds: nat, common: nat, lines: seq<Line>)

  function Number(n: nat): string {
    if n < 10 then ["0123456789"[n]] else Number(n / 10) + ["0123456789"[n % 10]]
  }

  /** The header: a side without changes is left out. */
  ghost function HeaderText(p: Printed): string {
    "@@ "
    + (if p.removes > 0 then "-" + Number(p.leftStart) + "," + Number(p.removes + p.common) else "")
    + (if p.removes > 0 && p.adds > 0 then " " else "")
    + (if p.adds > 0 then "+" + Number(p.rightStart) + "," + Number(p.adds + p.common) else "")
    + " @@\n"
  }

  ghost function LinesText(ls: seq<Line>): string {
    if ls == [] then "" else LinesText(ls[..|ls| - 1]) + [ls[|ls| - 1].kind] + ls[|ls| - 1].text + "\n"
  }

  /** The text of all hunks. */
  ghost function DiffText(ps: seq<Printed>): string {
    if ps == [] then ""
    else DiffText(ps[..|ps| - 1]) + (HeaderText(ps[|ps| - 1]) + LinesText(ps[|ps| - 1].lines))
  }

  class Hunk {
    const leftStart: nat
    const rightStart: nat
    var adds: nat
    var removes: nat
    var common: nat
    var hunk: seq<Line>
    var hunkAdds: seq<Line>
    var hunkRemoves: seq<Line>

    ghost predicate Valid()
      reads this
    {
      && (forall i :: 0 <= i < |hunkAdds| ==> hunkAdds[i].kind == '+')
      && (forall i :: 0 <= i < |hunkRemoves| ==> hunkRemoves[i].kind == '-')
      && (hunk != [] ==> hunk[|hunk| - 1].kind == ' ') && RemovesFirst(hunk) && Kinds(hunk)
      && |Old()| == removes + common && |New()| == adds + common
    }

    /** All lines pushed so far, as they would be printed. */
    ghost function All(): seq<Line>
      reads this
    {
      hunk + hunkRemoves + hunkAdds
    }

    ghost function Old(): seq<string>
      reads this
    {
      OldSide(All())
    }

    ghost function New(): seq<string>
      reads this
    {
      NewSide(All())
    }

    constructor (leftStart: nat, rightStart: nat)
      ensures Valid() && All() == [] && Old() == [] && New() == [] && adds == removes == common == 0
      ensures this.leftStart == leftStart && this.rightStart == rightStart
    {
      this.leftStart, this.rightStart := leftStart, rightStart;
      adds, removes, common := 0, 0, 0;
      hunk, hunkAdds, hunkRemoves := [], [], [];
    }

    method FlushEdits()
      modifies `hunk, `hunkAdds, `hunkRemoves
      ensures hunk == old(All()) && hunkAdds == hunkRemoves == []
    {
      hunk := hunk + hunkRemoves;
      hunkRemoves := [];
      hunk := hunk + hunkAdds;
      hunkAdds := [];
    }

    lemma InOrder()
      requires Valid()
      ensures RemovesFirst(All()) && Kinds(All())
      ensures forall text :: RemovesFirst(All() + [Line(' ', text)])
    {}

    /** A removed line is moved before the added lines that came since the last common line: neither side changes. */
    method PushLine(edit: char, line: string)
      requires Valid() && (edit == ' ' || edit == '-' || edit == '+')
      modifies this
      ensures Valid()
      ensures Old() == old(Old()) + if edit == '+' then [] else [line]
      ensures New() == old(New()) + if edit == '-' then [] else [line]
      ensures adds == old(adds) + if edit == '+' then 1 else 0
      ensures removes == old(removes) + if edit == '-' then 1 else 0
      ensures common == old(common) + if edit == ' ' then 1 else 0
      ensures OldKinds(All()) == old(OldKinds(All())) + if edit == '+' then "" else [edit]
      ensures NewKinds(All()) == old(NewKinds(All())) + if edit == '-' then "" else [edit]
    {
      hide OldSide, NewSide, OldKinds, NewKinds, RemovesFirst;
      InOrder();
      if edit == ' ' {
        PushedCommon(All(), line);
        common := common + 1;
        FlushEdits();
        hunk := hunk + [Line(' ', line)];
        assert All() == hunk;
      } else if edit == '-' {
        PushedRemoved(hunk, hunkRemoves, hunkAdds, line);
        removes := removes + 1;
        hunkRemoves := hunkRemoves + [Line('-', line)];
      } else {
        PushedAdded(hunk + hunkRemoves, hunkAdds, line);
        adds := adds + 1;
        hunkAdds := hunkAdds + [Line('+', line)];
      }
    }

    predicate HasEdits()
      reads this
    {
      adds > 0 || removes > 0
    }

    method PrintHeader() returns (ss: string)
      ensures ss == HeaderText(Printed(leftStart, rightStart, removes, adds, common, []))
    {
      ss := "@@ ";
      if removes > 0 { ss := ss + ("-" + Number(leftStart) + "," + Number(removes + common)); }
      if removes > 0 && adds > 0 { ss := ss + " "; }
      if adds > 0 { ss := ss + ("+" + Number(rightStart) + "," + Number(adds + common)); }
      ss := ss + " @@\n";
    }

    method PrintTo() returns (p: Printed, os: string)
      requires Valid()
      modifies this
      ensures p == Printed(leftStart, rightStart, old(removes), old(adds), old(common), old(All()))
      ensures os == HeaderText(p) + LinesText(p.lines)
      ensures RemovesFirst(p.lines) && Kinds(p.lines)
      ensures OldSide(p.lines) == old(Old()) && NewSide(p.lines) == old(New())
      ensures |OldSide(p.lines)| == p.removes + p.common && |NewSide(p.lines)| == p.adds + p.common
    {
      hide OldSide, NewSide, RemovesFirst, HeaderText;
      InOrder();
      var header := PrintHeader();
      HeaderWithout(Printed(leftStart, rightStart, removes, adds, common, All()));
      FlushEdits();
      p := Printed(leftStart, rightStart, removes, adds, common, hunk);
      var body := "";
      for i := 0 to |hunk|
        invariant body == LinesText(hunk[..i])
      {
        assert hunk[..i + 1][..i] == hunk[..i];
        body := body + [hunk[i].kind] + hunk[i].text + "\n";
      }
      assert hunk[..|hunk|] == hunk;
      os := header + body;
    }
  }

  lemma HeaderWithout(p: Printed)
    ensures HeaderText(p) == HeaderText(p.(lines := []))
  {}

  // ---------- patches ----------

  /** Where a hunk ends on the left and on the right. */
  ghost function LeftEnd(p: Printed): int { p.leftStart - 1 + p.removes + p.common }

  ghost function RightEnd(p: Printed): int { p.rightStart - 1 + p.adds + p.common }

  /** The header is right about both sides, and there is something to change. */
  ghost predicate GoodHunk(p: Printed, left: seq<string>, right: seq<string>) {
    && 1 <= p.leftStart && LeftEnd(p) <= |left| && 1 <= p.rightStart && RightEnd(p) <= |right|
    && OldSide(p.lines) == left[p.leftStart - 1..LeftEnd(p)] && NewSide(p.lines) == right[p.rightStart - 1..RightEnd(p)]
    && p.removes + p.adds > 0 && RemovesFirst(p.lines) && Kinds(p.lines)
  }

  ghost function DoneLeft(ps: seq<Printed>): int {
    if ps == [] then 0 else LeftEnd(ps[|ps| - 1])
  }

  ghost function DoneRight(ps: seq<Printed>): int {
    if ps == [] then 0 else RightEnd(ps[|ps| - 1])
  }

  /** The hunks are good, in order and do not overlap; between them the sides agree. */
  ghost predicate Chain(ps: seq<Printed>, left: seq<string>, right: seq<string>) {
    ps == [] ||
    (var most, p := ps[..|ps| - 1], ps[|ps| - 1];
     && Chain(most, left, right) && GoodHunk(p, left, right)
     && 0 <= DoneLeft(most) <= p.leftStart - 1 && 0 <= DoneRight(most) <= p.rightStart - 1
     && left[DoneLeft(most)..p.leftStart - 1] == right[DoneRight(most)..p.rightStart - 1])
  }

  /** Applying the hunks to left: lines before a hunk are copied, its left-hand range is replaced by its right-hand
      lines. */
  ghost function Patched(ps: seq<Printed>, left: seq<string>): seq<string> {
    if ps == [] then []
    else
      var most, p := ps[..|ps| - 1], ps[|ps| - 1];
      Patched(most, left)
      + (if 0 <= DoneLeft(most) <= p.leftStart - 1 <= |left| then left[DoneLeft(most)..p.leftStart - 1] else [])
      + NewSide(p.lines)
  }

  /** The whole result, with the lines after the last hunk. */
  ghost function Patch(ps: seq<Printed>, left: seq<string>): seq<string> {
    Patched(ps, left) + if 0 <= DoneLeft(ps) <= |left| then left[DoneLeft(ps)..] else []
  }

  lemma ChainMore(ps: seq<Printed>, p: Printed, left: seq<string>, right: seq<string>)
    requires Chain(ps, left, right) && GoodHunk(p, left, right)
    requires 0 <= DoneLeft(ps) <= p.leftStart - 1 && 0 <= DoneRight(ps) <= p.rightStart - 1
    requires left[DoneLeft(ps)..p.leftStart - 1] == right[DoneRight(ps)..p.rightStart - 1]
    ensures Chain(ps + [p], left, right)
  {
    hide GoodHunk, DoneLeft, DoneRight;
    assert (ps + [p])[..|ps|] == ps && (ps + [p])[|ps|] == p;
  }

  /** A chain of hunks turns the left side into the right one, up to the end of the last hunk. */
  lemma {:induction false} ChainPatches(ps: seq<Printed>, left: seq<string>, right: seq<string>)
    requires Chain(ps, left, right)
    ensures 0 <= DoneLeft(ps) <= |left| && 0 <= DoneRight(ps) <= |right| && Patched(ps, left) == right[..DoneRight(ps)]
  {
    hide GoodHunk;
    if ps != [] {
      var most, p := ps[..|ps| - 1], ps[|ps| - 1];
      ChainPatches(most, left, right);
      assert GoodHunk(p, left, right);
      GoodEnds(p, left, right);
      Splice(right, DoneRight(most), p.rightStart - 1, RightEnd(p));
    }
  }

  lemma GoodEnds(p: Printed, left: seq<string>, right: seq<string>)
    requires GoodHunk(p, left, right)
    ensures 1 <= p.leftStart <= LeftEnd(p) + 1 <= |left| + 1 && 1 <= p.rightStart <= RightEnd(p) + 1 <= |right| + 1
    ensures NewSide(p.lines) == right[p.rightStart - 1..RightEnd(p)]
  {}

  lemma Splice(x: seq<string>, a: nat, b: nat, c: nat)
    requires a <= b <= c <= |x|
    ensures x[..a] + x[a..b] + x[b..c] == x[..c]
  {}

  // ---------- the diff ----------

  /** The hunk holds both sides from its start up to here. */
  ghost predicate Covers(h: Hunk, left: seq<string>, right: seq<string>, l: nat, r: nat)
    reads h
  {
    && h.Valid() && 1 <= h.leftStart <= l + 1 && l <= |left| && 1 <= h.rightStart <= r + 1 && r <= |right|
    && h.Old() == left[h.leftStart - 1..l] && h.New() == right[h.rightStart - 1..r]
  }

  /** Edit k is next, and the sides are at l and r. */
  ghost predicate At(edits: Script, k: nat, l: nat, r: nat) {
    k <= |edits| && l == LeftAt(edits, k) && r == RightAt(edits, k)
  }

  /** Behind edit k there are context matches, and before it too, or the script ends or starts there. */
  ghost predicate Calm(edits: Script, k: nat, l: nat, r: nat, context: nat) {
    k == 0 || k == |edits|
    || (l >= context && r >= context && (AllMatch(edits, k, |edits|) || AllMatch(edits, k, k + context)))
  }

  /** The first edit from k on that is not a match. */
  method NextEdit(edits: Script, k: nat) returns (it: nat)
    requires k <= |edits|
    ensures k <= it <= |edits| && AllMatch(edits, k, it) && (it < |edits| ==> edits[it] != Match)
  {
    it := k;
    while it < |edits| && edits[it] == Match
      invariant k <= it <= |edits| && AllMatch(edits, k, it)
    {
      it := it + 1;
    }
  }

  /** Find the first edit. */
  method SkipMatches(edits: Script, k: nat, l: nat, r: nat, ghost left: seq<string>, ghost right: seq<string>)
    returns (k': nat, l': nat, r': nat)
    requires Turns(edits, left, right) && At(edits, k, l, r)
    ensures At(edits, k', l', r') && k <= k' && AllMatch(edits, k, k') && (k' < |edits| ==> edits[k'] != Match)
    ensures l' == l + (k' - k) <= |left| && r' == r + (k' - k) <= |right|
  {
    hide Turns, LeftAt, RightAt;
    k', l', r' := k, l, r;
    InSides(edits, left, right, k);
    while k' < |edits| && edits[k'] == Match
      invariant k <= k' <= |edits| && At(edits, k', l', r') && AllMatch(edits, k, k')
      invariant l' == l + (k' - k) <= |left| && r' == r + (k' - k) <= |right|
    {
      EditAt(edits, left, right, k');
      k', l', r' := k' + 1, l' + 1, r' + 1;
    }
  }

  /** The lines of context before the first edit, which is edit k. */
  method StartHunk(left: seq<string>, right: seq<string>, l: nat, r: nat, prefix: nat, ghost edits: Script,
                   ghost k: nat)
    returns (h: Hunk)
    requires prefix <= l <= |left| && prefix <= r <= |right|
    ensures fresh(h) && h.Valid() && !h.HasEdits() && h.leftStart == l - prefix + 1 && h.rightStart == r - prefix + 1
    ensures left[l - prefix..l] == right[r - prefix..r] ==> Covers(h, left, right, l, r)
    ensures prefix <= k && AllMatch(edits, k - prefix, k) ==> Marked(h.All(), h.common, edits[k - prefix..k])
  {
    hide Hunk.Valid, Hunk.Old, Hunk.New, Hunk.All, OldMarks, NewMarks, Matches, OldKinds, NewKinds, OldSide, NewSide;
    hide Kinds, RemovesFirst, Covers;
    ghost var matched := prefix <= k && AllMatch(edits, k - prefix, k);
    h := new Hunk(l - prefix + 1, r - prefix + 1);
    var i: nat := prefix;
    if matched { NothingMarked(edits, k - prefix); }
    while i > 0
      invariant i <= prefix && h.Valid() && !h.HasEdits()
      invariant h.Old() == h.New() == left[l - prefix..l - i]
      invariant matched ==> Marked(h.All(), h.common, edits[k - prefix..k - i])
    {
      Longer(left, l - prefix, l - i);
      if matched { MoreMarks(edits, k - prefix, k - i); }
      h.PushLine(' ', left[l - i]);
      i := i - 1;
    }
    CoversNow(h, left, right, l, r, prefix);
  }

  lemma CoversNow(h: Hunk, left: seq<string>, right: seq<string>, l: nat, r: nat, prefix: nat)
    requires h.Valid() && prefix <= l <= |left| && prefix <= r <= |right|
    requires h.leftStart == l - prefix + 1 && h.rightStart == r - prefix + 1
    requires h.Old() == h.New() == left[l - prefix..l]
    ensures left[l - prefix..l] == right[r - prefix..r] ==> Covers(h, left, right, l, r)
  {
    hide Hunk.Valid, Hunk.Old, Hunk.New;
  }

  /** The three cases of one edit. */
  method PushEdit(h: Hunk, edits: Script, left: seq<string>, right: seq<string>, k: nat, l: nat, r: nat, ghost a: nat)
    requires Turns(edits, left, right) && At(edits, k, l, r) && k < |edits| && Covers(h, left, right, l, r)
    requires a <= k && Marked(h.All(), h.common, edits[a..k])
    modifies h
    ensures Covers(h, left, right, l + (if edits[k] == Add then 0 else 1), r + if edits[k] == Remove then 0 else 1)
    ensures At(edits, k + 1, l + (if edits[k] == Add then 0 else 1), r + if edits[k] == Remove then 0 else 1)
    ensures h.HasEdits() <==> old(h.HasEdits()) || edits[k] != Match
    ensures Marked(h.All(), h.common, edits[a..k + 1])
  {
    hide Turns, LeftAt, RightAt, Hunk.Valid, Hunk.Old, Hunk.New, Hunk.All, OldMarks, NewMarks, Matches, OldKinds;
    hide NewKinds;
    var edit := edits[k];
    EditAt(edits, left, right, k);
    MoreMarks(edits, a, k);
    if edit != Add { Longer(left, h.leftStart - 1, l); }
    if edit != Remove { Longer(right, h.rightStart - 1, r); }
    if edit == Match || edit == Remove || edit == Replace {
      h.PushLine(if edit == Match then ' ' else '-', left[l]);
    }
    if edit == Add || edit == Replace {
      h.PushLine('+', right[r]);
    }
  }

  // ---------- how much context a hunk has ----------

  /** Some edit from k on, before bound, is not a match. */
  ghost predicate SoonEdit(edits: Script, k: nat, bound: int) {
    exists i :: k <= i < bound && i < |edits| && edits[i] != Match
  }

  /** Between a and b fewer than m matches in a row. */
  ghost predicate NoLongRun(edits: Script, a: nat, b: nat, m: nat) {
    b <= |edits| && forall i: nat, j: nat :: a <= i <= j <= b && AllMatch(edits, i, j) ==> j - i < m
  }

  /** The hunk of edits a .. b - 1: its first edit is e, its last one f - 1; before and behind these there are context
      matches, or as many as there are, and between them fewer than twice context in a row. */
  ghost predicate Framed(edits: Script, a: nat, e: nat, f: nat, b: nat, context: nat) {
    && a <= e < f <= b <= |edits| && edits[e] != Match && edits[f - 1] != Match
    && AllMatch(edits, a, e) && e - a == (if LeftAt(edits, e) < context then LeftAt(edits, e) else context)
    && AllMatch(edits, f, b) && (b - f == context || (b == |edits| && b - f < context))
    && NoLongRun(edits, e, f, 2 * context)
  }

  /** While a hunk is filled: its first edit is e, and edits n .. k - 1 are the matches behind the last one. */
  ghost predicate Filling(edits: Script, e: nat, n: nat, k: nat, context: nat) {
    && e < n <= k <= |edits| && edits[e] != Match && edits[n - 1] != Match && AllMatch(edits, n, k)
    && NoLongRun(edits, e, n, 2 * context)
    && (k - n > context ==> SoonEdit(edits, k, n + 2 * context))
  }

  lemma FillFirst(edits: Script, e: nat, context: nat)
    requires e < |edits| && edits[e] != Match && context > 0
    ensures Filling(edits, e, e + 1, e + 1, context)
  {}

  lemma FillMore(edits: Script, e: nat, n: nat, k: nat, context: nat)
    requires Filling(edits, e, n, k, context) && k < |edits| && context > 0
    requires k - n >= context ==> SoonEdit(edits, k, k + context)
    ensures Filling(edits, e, if edits[k] == Match then n else k + 1, k + 1, context)
  {
    if edits[k] == Match {
      if k - n >= context {
        if k - n == context {
          var i :| k <= i < k + context && i < |edits| && edits[i] != Match;
          assert k + 1 <= i < n + 2 * context;
        } else {
          var i :| k <= i < n + 2 * context && i < |edits| && edits[i] != Match;
          assert k + 1 <= i;
        }
      }
    } else {
      forall i: nat, j: nat | e <= i <= j <= k + 1 && AllMatch(edits, i, j) ensures j - i < 2 * context {
        RunEnds(edits, i, j, k);
        RunEnds(edits, i, j, n - 1);
      }
    }
  }

  /** A run of matches does not go over an edit that is none. */
  lemma RunEnds(edits: Script, i: nat, j: nat, k: nat)
    requires AllMatch(edits, i, j) && k < |edits| && edits[k] != Match
    ensures !(i <= k < j)
  {}

  lemma SoonWider(edits: Script, k: nat, bound: int, bound': int)
    requires SoonEdit(edits, k, bound) && bound <= bound'
    ensures SoonEdit(edits, k, bound') && k < |edits|
  {}

  /** The loop ends with exactly the context behind the last edit, or at the end of the script. */
  lemma FillDone(edits: Script, e: nat, n: nat, k: nat, context: nat)
    requires Filling(edits, e, n, k, context)
    requires k == |edits| || (k - n >= context && !SoonEdit(edits, k, k + context))
    ensures k - n == context || (k == |edits| && k - n < context)
  {
    hide SoonEdit, NoLongRun;
    if k - n > context { SoonWider(edits, k, n + 2 * context, k + context); }
  }

  /** Take edits until there is enough context behind them, and the next edit is too far away to join. */
  method FillHunk(h: Hunk, edits: Script, left: seq<string>, right: seq<string>, context: nat, k: nat, l: nat, r: nat,
                  ghost a: nat)
    returns (k': nat, l': nat, r': nat, ghost f: nat)
    requires Turns(edits, left, right) && At(edits, k, l, r) && h.Valid() && !h.HasEdits()
    requires k < |edits| ==> Covers(h, left, right, l, r) && edits[k] != Match
    requires k < |edits| ==> a <= k && Marked(h.All(), h.common, edits[a..k])
    modifies h
    ensures k <= k' && At(edits, k', l', r') && h.Valid()
    ensures h.HasEdits() <==> k < |edits| && context > 0
    ensures k < |edits| ==> Covers(h, left, right, l', r')
    ensures h.HasEdits() ==> k' > 0 && Calm(edits, k', l', r', context)
    ensures h.HasEdits() ==>
      && Filling(edits, k, f, k', context) && (k' - f == context || (k' == |edits| && k' - f < context))
      && Marked(h.All(), h.common, edits[a..k'])
  {
    hide Turns, LeftAt, RightAt, Hunk.Valid, Hunk.All, Covers, Marked, Filling, SoonEdit;
    k', l', r' := k, l, r;
    var nSuffix := 0;
    f := k;
    while k' < |edits|
      invariant k <= k' && At(edits, k', l', r')
      invariant if k < |edits| then Covers(h, left, right, l', r') else k' == k && h.Valid()
      invariant h.HasEdits() <==> k' > k
      invariant k' > k ==> context > 0
      invariant nSuffix <= k' - k && AllMatch(edits, k' - nSuffix, k') && (k' == k ==> nSuffix == 0)
      invariant k < |edits| ==> Marked(h.All(), h.common, edits[a..k'])
      invariant k' > k ==> nSuffix == k' - f && Filling(edits, k, f, k', context)
    {
      if nSuffix >= context {
        var it := NextEdit(edits, k');
        NextIsSoon(edits, k', it, context);
        if it == |edits| || it - k' >= context {
          RunOfMatches(edits, left, right, k' - nSuffix, k');
          break;
        }
      }
      if k' == k { FillFirst(edits, k, context); } else { FillMore(edits, k, f, k', context); }
      nSuffix := if edits[k'] == Match then nSuffix + 1 else 0;
      if nSuffix == 0 { f := k' + 1; }
      PushEdit(h, edits, left, right, k', l', r', a);
      l', r' := l' + (if edits[k'] == Add then 0 else 1), r' + if edits[k'] == Remove then 0 else 1;
      k' := k' + 1;
    }
    if k < |edits| { CoversValid(h, left, right, l', r'); }
    if k' > k { FillDone(edits, k, f, k', context); }
  }

  lemma NextIsSoon(edits: Script, k: nat, it: nat, context: nat)
    requires k <= it <= |edits| && AllMatch(edits, k, it) && (it < |edits| ==> edits[it] != Match)
    ensures SoonEdit(edits, k, k + context) <==> it < |edits| && it - k < context
  {}

  lemma CoversValid(h: Hunk, left: seq<string>, right: seq<string>, l: nat, r: nat)
    requires Covers(h, left, right, l, r)
    ensures h.Valid()
  {}

  /** The loop of CreateUnifiedDiff after the hunks ps, the last of which ends before edit k. */
  ghost predicate DiffUpTo(ps: seq<Printed>, edits: Script, left: seq<string>, right: seq<string>, k: nat, l: nat,
                           r: nat, context: nat) {
    && At(edits, k, l, r) && Chain(ps, left, right) && DoneLeft(ps) == l && DoneRight(ps) == r
    && (ps == [] ==> k == 0) && (ps != [] ==> k > 0) && Calm(edits, k, l, r, context)
  }

  lemma NoHunks(edits: Script, left: seq<string>, right: seq<string>, context: nat)
    requires Turns(edits, left, right)
    ensures DiffUpTo([], edits, left, right, 0, 0, 0, context)
  {
    EndAt(edits, left, right);
  }

  /** When only matches are left, the hunks are a patch. */
  lemma Finished(ps: seq<Printed>, edits: Script, left: seq<string>, right: seq<string>, k: nat, l: nat, r: nat,
                 context: nat)
    requires Turns(edits, left, right) && DiffUpTo(ps, edits, left, right, k, l, r, context)
    requires AllMatch(edits, k, |edits|)
    ensures Patch(ps, left) == right
  {
    hide Turns, LeftAt, RightAt, Calm, Patched, Chain;
    ChainPatches(ps, left, right);
    RunOfMatches(edits, left, right, k, |edits|);
    EndAt(edits, left, right);
    assert right[..r] + right[r..] == right && left[l..] == left[l..|left|] && right[r..] == right[r..|right|];
  }

  /** Behind a hunk there is room for the context of the next one, unless the script has only matches left. */
  lemma RoomForContext(ps: seq<Printed>, edits: Script, left: seq<string>, right: seq<string>, k: nat, l: nat, r: nat,
                       context: nat, k': nat, l': nat, r': nat)
    requires Turns(edits, left, right) && DiffUpTo(ps, edits, left, right, k, l, r, context)
    requires At(edits, k', l', r') && k <= k' && AllMatch(edits, k, k') && (k' < |edits| ==> edits[k'] != Match)
    requires k < |edits|
    ensures var prefix := if l' < context then l' else context;
      && prefix <= l' <= |left| && prefix <= r' <= |right|
      && l <= l' && r <= r'
      && (k' < |edits| ==> prefix <= k' - k && AllMatch(edits, k' - prefix, k'))
      && (k' < |edits| ==> l <= l' - prefix && r <= r' - prefix && left[l' - prefix..l'] == right[r' - prefix..r'])
      && (k' < |edits| ==> left[l..l' - prefix] == right[r..r' - prefix])
  {
    hide Turns, Chain, Patched;
    var prefix := if l' < context then l' else context;
    RunOfMatches(edits, left, right, k, k');
    EndAt(edits, left, right);
    if k' < |edits| {
      assert k' - k >= prefix;
      RunOfMatches(edits, left, right, k' - prefix, k');
      RunOfMatches(edits, left, right, k, k' - prefix);
    }
  }

  lemma DoneAt(ps: seq<Printed>, edits: Script, left: seq<string>, right: seq<string>, k: nat, l: nat, r: nat,
               context: nat)
    requires DiffUpTo(ps, edits, left, right, k, l, r, context)
    ensures At(edits, k, l, r)
  {}

  lemma HunkAdded(ps: seq<Printed>, p: Printed, edits: Script, left: seq<string>, right: seq<string>, k: nat, l: nat,
                  r: nat, k': nat, l': nat, r': nat, context: nat)
    requires DiffUpTo(ps, edits, left, right, k, l, r, context) && GoodHunk(p, left, right) && At(edits, k', l', r')
    requires k' > 0
    requires Calm(edits, k', l', r', context) && LeftEnd(p) == l' && RightEnd(p) == r'
    requires l <= p.leftStart - 1 <= |left| && r <= p.rightStart - 1 <= |right|
    requires left[l..p.leftStart - 1] == right[r..p.rightStart - 1]
    ensures DiffUpTo(ps + [p], edits, left, right, k', l', r', context)
  {
    hide Chain, Calm, LeftAt, RightAt, GoodHunk, LeftEnd, RightEnd;
    ChainMore(ps, p, left, right);
  }

  /** The edits of a hunk: a .. b - 1, of which the first that is not a match is e and the last one f - 1. */
  datatype Cut = Cut(a: nat, e: nat, f: nat, b: nat)

  /** The hunk is about these edits, has the lines they go over, marked as they say, and the right context. */
  ghost predicate CutOf(p: Printed, edits: Script, cut: Cut, context: nat) {
    && Framed(edits, cut.a, cut.e, cut.f, cut.b, context)
    && p.leftStart == LeftAt(edits, cut.a) + 1 && LeftEnd(p) == LeftAt(edits, cut.b)
    && p.rightStart == RightAt(edits, cut.a) + 1 && RightEnd(p) == RightAt(edits, cut.b)
    && Marked(p.lines, p.common, edits[cut.a..cut.b])
  }

  lemma CutStarts(edits: Script, left: seq<string>, right: seq<string>, k: nat, l: nat, r: nat, prefix: nat)
    requires Turns(edits, left, right) && At(edits, k, l, r) && prefix <= k && AllMatch(edits, k - prefix, k)
    ensures LeftAt(edits, k - prefix) == l - prefix && RightAt(edits, k - prefix) == r - prefix
  {
    hide Turns, LeftAt, RightAt;
    RunOfMatches(edits, left, right, k - prefix, k);
  }

  lemma FramedNow(edits: Script, a: nat, e: nat, f: nat, b: nat, context: nat)
    requires Filling(edits, e, f, b, context) && (b - f == context || (b == |edits| && b - f < context))
    requires a <= e && AllMatch(edits, a, e)
    requires e - a == if LeftAt(edits, e) < context then LeftAt(edits, e) else context
    ensures Framed(edits, a, e, f, b, context)
  {
    hide NoLongRun, LeftAt;
  }

  lemma CutMade(p: Printed, edits: Script, cut: Cut, context: nat, l: nat, r: nat)
    requires Framed(edits, cut.a, cut.e, cut.f, cut.b, context) && At(edits, cut.b, l, r)
    requires LeftEnd(p) == l && RightEnd(p) == r
    requires p.leftStart == LeftAt(edits, cut.a) + 1 && p.rightStart == RightAt(edits, cut.a) + 1
    requires Marked(p.lines, p.common, edits[cut.a..cut.b])
    ensures CutOf(p, edits, cut, context)
  {
    hide Framed, Marked, LeftAt, RightAt;
  }

  /** The body of the loop: skip to the first edit, take the context before it, and fill the hunk. Nothing is found
      if there are only matches left, or no context is wanted. */
  method NextHunk(ghost ps: seq<Printed>, edits: Script, left: seq<string>, right: seq<string>, context: nat, k: nat,
                  l: nat, r: nat)
    returns (found: bool, p: Printed, os: string, k': nat, l': nat, r': nat, ghost cut: Cut)
    requires Turns(edits, left, right) && DiffUpTo(ps, edits, left, right, k, l, r, context) && k < |edits|
    ensures found ==> context > 0 && k' > k && DiffUpTo(ps + [p], edits, left, right, k', l', r', context)
    ensures !found ==> AllMatch(edits, k, |edits|) || context == 0
    ensures os == HeaderText(p) + LinesText(p.lines)
    ensures found ==> k <= cut.a && AllMatch(edits, k, cut.a) && cut.b == k' && CutOf(p, edits, cut, context)
  {
    hide Framed, Filling, Marked, NoLongRun;
    hide Turns, LeftAt, RightAt, Chain, Calm, Covers, GoodHunk, Hunk.Valid, Hunk.Old, Hunk.New, Hunk.All;
    hide OldSide, NewSide, RemovesFirst, LeftEnd, RightEnd, HeaderText, LinesText;
    DoneAt(ps, edits, left, right, k, l, r, context);
    hide DiffUpTo, DoneLeft, DoneRight;
    k', l', r' := SkipMatches(edits, k, l, r, left, right);
    RoomForContext(ps, edits, left, right, k, l, r, context, k', l', r');
    var prefix := if l' < context then l' else context;
    var h := StartHunk(left, right, l', r', prefix, edits, k');
    ghost var e, f, a := k', 0, if prefix <= k' then k' - prefix else 0;
    if k' < |edits| { CutStarts(edits, left, right, k', l', r', prefix); }
    k', l', r', f := FillHunk(h, edits, left, right, context, k', l', r', a);
    cut := Cut(a, e, f, k');
    found := h.HasEdits();
    if found {
      CoversEnds(h, left, right, l', r');
      FramedNow(edits, a, e, f, k', context);
    }
    p, os := h.PrintTo();
    if found { CutMade(p, edits, cut, context, l', r'); }
    if found { HunkAdded(ps, p, edits, left, right, k, l, r, k', l', r', context); }
  }

  /** CreateUnifiedDiff. The hunks are good, in order and do not overlap. With at least one line of context they are a
      patch from left to right; with none, no hunk is ever written. */
  method CreateUnifiedDiff(left: seq<string>, right: seq<string>, context: nat)
    returns (ss: string, ps: seq<Printed>, ghost cuts: seq<Cut>)
    ensures ss == DiffText(ps)
    ensures CutsOf(ps, Path(left, right, |left|, |right|), cuts, context)
    ensures context > 0 ==> AllCovered(Path(left, right, |left|, |right|), cuts)
    ensures Chain(ps, left, right)
    ensures context == 0 ==> ps == []
    ensures Patch(ps, left) == right <==> context > 0 || left == right
  {
    hide Turns, LeftAt, RightAt, Chain, Calm, Replays, Patch, NeverMisses, HeaderText, LinesText, CutOf, CutsOf;
    hide CoveredTo, AllCovered;
    NoCuts(Path(left, right, |left|, |right|), context);
    var edits := CalculateOptimalEdits(left, right);
    IsTurns(edits, left, right);
    ss, ps, cuts := "", [], [];
    var k: nat, l: nat, r: nat := 0, 0, 0;
    NoHunks(edits, left, right, context);
    NothingPatched(left);
    while k < |edits|
      invariant DiffUpTo(ps, edits, left, right, k, l, r, context) && (context == 0 ==> ps == []) && ss == DiffText(ps)
      invariant CutsOf(ps, edits, cuts, context) && CoveredTo(edits, cuts, k)
      decreases |edits| - k
    {
      var found, p, os, k', l', r';
      ghost var cut;
      found, p, os, k', l', r', cut := NextHunk(ps, edits, left, right, context, k, l, r);
      if !found {
        break;
      }
      assert (ps + [p])[..|ps|] == ps;
      ss := ss + os;
      MoreCuts(ps, p, edits, cuts, cut, context, k);
      ps, cuts := ps + [p], cuts + [cut];
      k, l, r := k', l', r';
    }
    if AllMatch(edits, k, |edits|) { CoveredDone(edits, cuts, k); }
    if AllMatch(edits, k, |edits|) { Finished(ps, edits, left, right, k, l, r, context); }
  }

  /** One cut per hunk, in order. */
  ghost predicate CutsOf(ps: seq<Printed>, edits: Script, cuts: seq<Cut>, context: nat) {
    && |cuts| == |ps|
    && (forall i :: 0 <= i < |ps| ==> CutOf(ps[i], edits, cuts[i], context))
    && (forall i :: 0 < i < |ps| ==> cuts[i - 1].b <= cuts[i].a)
  }

  ghost predicate InCut(cuts: seq<Cut>, n: nat) {
    exists i :: 0 <= i < |cuts| && cuts[i].a <= n < cuts[i].b
  }

  /** Before edit k, every edit that is not a match belongs to a hunk. */
  ghost predicate CoveredTo(edits: Script, cuts: seq<Cut>, k: nat) {
    && k <= |edits| && (forall i :: 0 <= i < |cuts| ==> cuts[i].b <= k)
    && forall n: nat :: n < k && edits[n] != Match ==> InCut(cuts, n)
  }

  ghost predicate AllCovered(edits: Script, cuts: seq<Cut>) {
    forall n: nat :: n < |edits| && edits[n] != Match ==> InCut(cuts, n)
  }

  lemma MoreCuts(ps: seq<Printed>, p: Printed, edits: Script, cuts: seq<Cut>, cut: Cut, context: nat, k: nat)
    requires CutsOf(ps, edits, cuts, context) && CoveredTo(edits, cuts, k) && CutOf(p, edits, cut, context)
    requires k <= cut.a && AllMatch(edits, k, cut.a)
    ensures CutsOf(ps + [p], edits, cuts + [cut], context) && CoveredTo(edits, cuts + [cut], cut.b)
  {
    hide CutOf, CutsOf, CoveredTo;
    CutEnds(p, edits, cut, context);
    CutsMore(ps, p, edits, cuts, cut, context, k);
    CoverMore(edits, cuts, cut, k);
  }

  lemma CutEnds(p: Printed, edits: Script, cut: Cut, context: nat)
    requires CutOf(p, edits, cut, context)
    ensures cut.a <= cut.b <= |edits|
  {
    hide LeftAt, RightAt, Marked, NoLongRun, LeftEnd, RightEnd;
  }

  lemma CutsMore(ps: seq<Printed>, p: Printed, edits: Script, cuts: seq<Cut>, cut: Cut, context: nat, k: nat)
    requires CutsOf(ps, edits, cuts, context) && CoveredTo(edits, cuts, k)
    requires CutOf(p, edits, cut, context) && k <= cut.a
    ensures CutsOf(ps + [p], edits, cuts + [cut], context)
  {
    hide CutOf, InCut;
  }

  lemma CoverMore(edits: Script, cuts: seq<Cut>, cut: Cut, k: nat)
    requires CoveredTo(edits, cuts, k) && k <= cut.a <= cut.b <= |edits| && AllMatch(edits, k, cut.a)
    ensures CoveredTo(edits, cuts + [cut], cut.b)
  {
    var cuts' := cuts + [cut];
    assert cuts'[|cuts|] == cut;
    forall n: nat | n < cut.b && edits[n] != Match ensures InCut(cuts', n) {
      if n < k {
        var i :| 0 <= i < |cuts| && cuts[i].a <= n < cuts[i].b;
        assert cuts'[i] == cuts[i];
      }
    }
  }

  lemma NoCuts(edits: Script, context: nat)
    ensures CutsOf([], edits, [], context) && CoveredTo(edits, [], 0)
  {}

  lemma CoveredDone(edits: Script, cuts: seq<Cut>, k: nat)
    requires CoveredTo(edits, cuts, k) && AllMatch(edits, k, |edits|)
    ensures AllCovered(edits, cuts)
  {}

  lemma IsTurns(edits: Script, left: seq<string>, right: seq<string>)
    requires Replays(edits, left, right, |left|, |right|)
    ensures Turns(edits, left, right)
  {}

  lemma NothingPatched(left: seq<string>)
    ensures Patch([], left) == left
  {}

  /** What PrintTo writes for a hunk that covers both sides is a good hunk. */
  lemma CoversEnds(h: Hunk, left: seq<string>, right: seq<string>, l: nat, r: nat)
    requires Covers(h, left, right, l, r) && h.HasEdits()
    ensures h.Valid()
    ensures var p := Printed(h.leftStart, h.rightStart, h.removes, h.adds, h.common, h.All());
      RemovesFirst(p.lines) && Kinds(p.lines) ==> GoodHunk(p, left, right) && LeftEnd(p) == l && RightEnd(p) == r
  {}
}
