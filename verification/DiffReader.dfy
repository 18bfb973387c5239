/** Reading the text of a unified diff back: what it says determines the hunks. */
module DiffReader {
  import opened Options
  import opened EditScript
  import opened UnifiedDiff

  // ---------- numbers ----------

  ghost predicate Digit(c: char) { '0' <= c <= '9' }

  /** The number that a string of digits stands for. */
  ghost function ValueOf(s: string): nat {
    if s == "" then 0
    else 10 * ValueOf(s[..|s| - 1]) + if Digit(s[|s| - 1]) then s[|s| - 1] as nat - '0' as nat else 0
  }

  /** A number is written with its digits, the most significant one first and not a zero. */
  lemma {:induction false} NumberBack(n: nat)
    ensures ValueOf(Number(n)) == n && Number(n) != "" && (n > 0 ==> Number(n)[0] != '0')
    ensures forall i :: 0 <= i < |Number(n)| ==> Digit(Number(n)[i])
  {
    if n < 10 {
      LastDigit("", n);
      assert "" + ["0123456789"[n]] == Number(n);
    } else {
      NumberBack(n / 10);
      LastDigit(Number(n / 10), n % 10);
    }
  }

  lemma LastDigit(s: string, d: nat)
    requires d < 10
    ensures var c := "0123456789"[d];
      ValueOf(s + [c]) == 10 * ValueOf(s) + d && Digit(c) && (d > 0 ==> c != '0')
  {
    var t := s + ["0123456789"[d]];
    assert t[..|t| - 1] == s;
  }

  // ---------- cutting text ----------

  ghost function Find(s: string, c: char): (i: nat)
    ensures i <= |s| && (i < |s| ==> s[i] == c) && forall k :: 0 <= k < i ==> s[k] != c
  {
    if s == "" || s[0] == c then 0 else 1 + Find(s[1..], c)
  }

  lemma {:induction false} FindAfter(s: string, c: char, rest: string)
    requires forall i :: 0 <= i < |s| ==> s[i] != c
    ensures Find(s + [c] + rest, c) == |s|
  {
    if s == "" {
      assert "" + [c] + rest == [c] + rest;
    } else {
      assert (s + [c] + rest)[1..] == s[1..] + [c] + rest;
      FindAfter(s[1..], c, rest);
    }
  }

  lemma {:induction false} NotFound(s: string, c: char)
    requires forall i :: 0 <= i < |s| ==> s[i] != c
    ensures Find(s, c) == |s|
  {
    if s != "" { NotFound(s[1..], c); }
  }

  ghost function SplitLines(s: string): seq<string>
    decreases |s|
  {
    var i := Find(s, '\n');
    if s == "" then [] else if i == |s| then [s] else [s[..i]] + SplitLines(s[i + 1..])
  }

  // ---------- reading ----------

  /** The lines of one side that a hunk is about. */
  datatype Range = Range(start: nat, count: nat)

  /** A line of the diff: the header of a hunk, or a line of it. */
  datatype Record = Head(left: Option<Range>, right: Option<Range>) | Body(kind: char, text: string)

  /** start,count behind a sign. */
  ghost function ReadRange(s: string): Range {
    var i := Find(s, ',');
    if i == 0 || i == |s| then Range(0, 0) else Range(ValueOf(s[1..i]), ValueOf(s[i + 1..]))
  }

  /** One or two ranges with a space between them; the sign says which side it is. */
  ghost function ReadRanges(s: string): Record {
    var i := Find(s, ' ');
    if i < |s| then Head(Some(ReadRange(s[..i])), Some(ReadRange(s[i + 1..])))
    else if s == "" then Head(None, None)
    else if s[0] == '-' then Head(Some(ReadRange(s)), None)
    else Head(None, Some(ReadRange(s)))
  }

  ghost function ReadLine(line: string): Record {
    if line == "" then Body(' ', "")
    else if line[0] == '@' then if |line| < 6 then Head(None, None) else ReadRanges(line[3..|line| - 3])
    else Body(line[0], line[1..])
  }

  ghost function ReadLines(lines: seq<string>): seq<Record> {
    if lines == [] then [] else [ReadLine(lines[0])] + ReadLines(lines[1..])
  }

  ghost function ReadDiff(s: string): seq<Record> {
    ReadLines(SplitLines(s))
  }

  // ---------- what should be read ----------

  /** The ranges of the sides that change. */
  ghost function HeadOf(p: Printed): Record {
    Head(if p.removes > 0 then Some(Range(p.leftStart, p.removes + p.common)) else None,
         if p.adds > 0 then Some(Range(p.rightStart, p.adds + p.common)) else None)
  }

  ghost function Bodies(ls: seq<Line>): seq<Record> {
    if ls == [] then [] else Bodies(ls[..|ls| - 1]) + [Body(ls[|ls| - 1].kind, ls[|ls| - 1].text)]
  }

  ghost function RecordsOf(ps: seq<Printed>): seq<Record> {
    if ps == [] then []
    else RecordsOf(ps[..|ps| - 1]) + [HeadOf(ps[|ps| - 1])] + Bodies(ps[|ps| - 1].lines)
  }

  ghost predicate PlainLine(l: Line) {
    l.kind != '@' && l.kind != '\n' && forall i :: 0 <= i < |l.text| ==> l.text[i] != '\n'
  }

  ghost predicate Plain(ls: seq<Line>) {
    forall i :: 0 <= i < |ls| ==> PlainLine(ls[i])
  }

  // ---------- reading back ----------

  lemma FirstLine(line: string, rest: string)
    requires forall i :: 0 <= i < |line| ==> line[i] != '\n'
    ensures ReadDiff(line + "\n" + rest) == [ReadLine(line)] + ReadDiff(rest)
  {
    hide ReadLine, Find;
    var s := line + "\n" + rest;
    FindAfter(line, '\n', rest);
    assert s == line + ['\n'] + rest;
    assert s[..|line|] == line && s[|line| + 1..] == rest;
    var lines := [line] + SplitLines(rest);
    assert lines[1..] == SplitLines(rest);
  }

  ghost predicate Digits(s: string) {
    forall i :: 0 <= i < |s| ==> Digit(s[i])
  }

  lemma RangeBack(sign: char, a: nat, b: nat)
    requires sign == '-' || sign == '+'
    ensures var s := [sign] + Number(a) + "," + Number(b);
      && ReadRange(s) == Range(a, b) && s[0] == sign
      && forall i :: 0 <= i < |s| ==> s[i] != ' ' && s[i] != '\n'
  {
    hide Number, ReadRange;
    NumberBack(a);
    NumberBack(b);
    RangeOf(sign, Number(a), Number(b));
  }

  lemma RangeOf(sign: char, x: string, z: string)
    requires (sign == '-' || sign == '+') && Digits(x) && Digits(z)
    ensures var s := [sign] + x + "," + z;
      && ReadRange(s) == Range(ValueOf(x), ValueOf(z)) && s[0] == sign
      && forall i :: 0 <= i < |s| ==> s[i] != ' ' && s[i] != '\n'
  {
    hide Find, ValueOf;
    var t := [sign] + x;
    FindAfter(t, ',', z);
    assert [sign] + x + "," + z == t + [','] + z;
    Parts(t, ',', z);
    assert t[1..] == x;
  }

  lemma Parts(t: string, c: char, z: string)
    ensures var s := t + [c] + z; s[..|t|] == t && s[|t| + 1..] == z && (t != "" ==> s[1..|t|] == t[1..])
  {}

  ghost function LeftText(p: Printed): string {
    ['-'] + Number(p.leftStart) + "," + Number(p.removes + p.common)
  }

  ghost function RightText(p: Printed): string {
    ['+'] + Number(p.rightStart) + "," + Number(p.adds + p.common)
  }

  ghost function RangesText(p: Printed): string {
    if p.removes > 0 && p.adds > 0 then LeftText(p) + " " + RightText(p)
    else if p.removes > 0 then LeftText(p)
    else if p.adds > 0 then RightText(p)
    else ""
  }

  lemma RangesBack(p: Printed)
    ensures ReadRanges(RangesText(p)) == HeadOf(p)
    ensures forall i :: 0 <= i < |RangesText(p)| ==> RangesText(p)[i] != '\n'
  {
    hide Find, Number, ReadRange;
    RangeBack('-', p.leftStart, p.removes + p.common);
    RangeBack('+', p.rightStart, p.adds + p.common);
    var a, b := LeftText(p), RightText(p);
    if p.removes > 0 && p.adds > 0 {
      FindAfter(a, ' ', b);
      assert a + " " + b == a + [' '] + b;
      Parts(a, ' ', b);
    } else {
      NotFound(RangesText(p), ' ');
    }
  }

  /** The header says where the sides that change start, and how many lines of them there are. */
  lemma HeaderBack(p: Printed, rest: string)
    ensures ReadDiff(HeaderText(p) + rest) == [HeadOf(p)] + ReadDiff(rest)
  {
    hide ReadRanges, RangesText, HeadOf, ReadDiff;
    RangesBack(p);
    var line := "@@ " + RangesText(p) + " @@";
    HeaderIs(p);
    assert line[3..|line| - 3] == RangesText(p);
    FirstLine(line, rest);
    assert line + "\n" + rest == HeaderText(p) + rest;
  }

  lemma HeaderIs(p: Printed)
    ensures HeaderText(p) == "@@ " + RangesText(p) + " @@" + "\n"
  {
    hide Number;
    assert "-" == ['-'] && "+" == ['+'];
  }

  lemma {:induction false} LinesBack(ls: seq<Line>, rest: string)
    requires Plain(ls)
    ensures ReadDiff(LinesText(ls) + rest) == Bodies(ls) + ReadDiff(rest)
    decreases |ls|
  {
    hide ReadDiff, PlainLine;
    if ls == [] {
      assert "" + rest == rest && [] + ReadDiff(rest) == ReadDiff(rest);
    } else {
      var most, l := ls[..|ls| - 1], ls[|ls| - 1];
      var tail := [l.kind] + l.text + "\n" + rest;
      LinesBack(most, tail);
      assert LinesText(ls) + rest == LinesText(most) + tail;
      LineBack(l, rest);
      assert Bodies(most) + ([Body(l.kind, l.text)] + ReadDiff(rest)) == Bodies(ls) + ReadDiff(rest);
    }
  }

  lemma LineBack(l: Line, rest: string)
    requires PlainLine(l)
    ensures ReadDiff([l.kind] + l.text + "\n" + rest) == [Body(l.kind, l.text)] + ReadDiff(rest)
  {
    hide ReadDiff;
    var line := [l.kind] + l.text;
    FirstLine(line, rest);
    assert line[1..] == l.text;
  }

  /** The text of the hunks is read back as their headers and lines. */
  lemma {:induction false} DiffBack(ps: seq<Printed>, rest: string)
    requires forall i :: 0 <= i < |ps| ==> Plain(ps[i].lines)
    ensures ReadDiff(DiffText(ps) + rest) == RecordsOf(ps) + ReadDiff(rest)
    decreases |ps|
  {
    hide ReadDiff, Plain, HeaderText, LinesText, HeadOf, Bodies;
    if ps == [] {
      assert "" + rest == rest && [] + ReadDiff(rest) == ReadDiff(rest);
    } else {
      var most, p := ps[..|ps| - 1], ps[|ps| - 1];
      var body := LinesText(p.lines) + rest;
      DiffBack(most, HeaderText(p) + body);
      assert DiffText(ps) + rest == DiffText(most) + (HeaderText(p) + body);
      HeaderBack(p, body);
      LinesBack(p.lines, rest);
      assert RecordsOf(most) + ([HeadOf(p)] + (Bodies(p.lines) + ReadDiff(rest))) == RecordsOf(ps) + ReadDiff(rest);
    }
  }

  // ---------- for the diff of two texts ----------

  ghost predicate NoNewlines(lines: seq<string>) {
    forall i :: 0 <= i < |lines| ==> '\n' !in lines[i]
  }

  lemma {:induction false} TextsOfSides(ls: seq<Line>)
    ensures forall i :: 0 <= i < |ls| ==>
      (ls[i].kind != '+' ==> ls[i].text in OldSide(ls)) && (ls[i].kind != '-' ==> ls[i].text in NewSide(ls))
  {
    if ls != [] { TextsOfSides(ls[..|ls| - 1]); }
  }

  lemma {:induction false} ChainIsPlain(ps: seq<Printed>, left: seq<string>, right: seq<string>)
    requires Chain(ps, left, right) && NoNewlines(left) && NoNewlines(right)
    ensures forall i :: 0 <= i < |ps| ==> Plain(ps[i].lines)
  {
    hide GoodHunk, Plain;
    if ps != [] {
      ChainIsPlain(ps[..|ps| - 1], left, right);
      HunkIsPlain(ps[|ps| - 1], left, right);
    }
  }

  lemma HunkIsPlain(p: Printed, left: seq<string>, right: seq<string>)
    requires GoodHunk(p, left, right) && NoNewlines(left) && NoNewlines(right)
    ensures Plain(p.lines)
  {
    hide OldSide, NewSide, RemovesFirst;
    TextsOfSides(p.lines);
    forall i | 0 <= i < |p.lines| ensures PlainLine(p.lines[i]) {
      var text := p.lines[i].text;
      if p.lines[i].kind != '+' {
        var n :| 0 <= n < |OldSide(p.lines)| && OldSide(p.lines)[n] == text;
        assert text == left[p.leftStart - 1 + n];
      } else {
        var n :| 0 <= n < |NewSide(p.lines)| && NewSide(p.lines)[n] == text;
        assert text == right[p.rightStart - 1 + n];
      }
    }
  }

  /** The text of a diff says where its hunks start, how many lines they have on the sides that change, and what these
      lines are. */
  lemma DiffDetermines(ps: seq<Printed>, left: seq<string>, right: seq<string>)
    requires Chain(ps, left, right) && NoNewlines(left) && NoNewlines(right)
    ensures ReadDiff(DiffText(ps)) == RecordsOf(ps)
  {
    hide Chain, DiffText, RecordsOf, NoNewlines, Plain;
    ChainIsPlain(ps, left, right);
    DiffBack(ps, "");
    assert DiffText(ps) + "" == DiffText(ps);
    NothingToRead();
    assert RecordsOf(ps) + [] == RecordsOf(ps);
  }

  lemma NothingToRead()
    ensures ReadDiff("") == []
  {}
}
