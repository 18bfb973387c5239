/** gtest-port.cc: the simple regular expressions. The end of a C string is the end of the sequence. */
module Regex {

  datatype Atom = Atom(escaped: bool, c: char)
  datatype Repeat = One | Optional | Star | Plus
  datatype Item = Item(atom: Atom, rep: Repeat)

  /** An expression: anchored at the start or not, repeated atoms, anchored at the end or not. */
  datatype Regex = Regex(start: bool, items: seq<Item>, end: bool)

  predicate IsInSet(ch: char, str: string) { ch in str }
  predicate IsAsciiDigit(ch: char) { '0' <= ch <= '9' }
  predicate IsAsciiPunct(ch: char) { IsInSet(ch, "^-!\"#$%&'()*+,./:;<=>?@[\\]_`{|}~") }
  predicate IsRepeat(ch: char) { IsInSet(ch, "?*+") }
  predicate IsAsciiWhiteSpace(ch: char) { IsInSet(ch, " \U{0C}\n\r\t\U{0B}") }
  predicate IsAsciiWordChar(ch: char) { 'a' <= ch <= 'z' || 'A' <= ch <= 'Z' || '0' <= ch <= '9' || ch == '_' }
  predicate IsValidEscape(c: char) { IsAsciiPunct(c) || IsInSet(c, "dDfnrsStvwW") }

  predicate AtomMatchesChar(escaped: bool, patternChar: char, ch: char) {
    if escaped then
      match patternChar
      case 'd' => IsAsciiDigit(ch)
      case 'D' => !IsAsciiDigit(ch)
      case 'f' => ch == '\U{0C}'
      case 'n' => ch == '\n'
      case 'r' => ch == '\r'
      case 's' => IsAsciiWhiteSpace(ch)
      case 'S' => !IsAsciiWhiteSpace(ch)
      case 't' => ch == '\t'
      case 'v' => ch == '\U{0B}'
      case 'w' => IsAsciiWordChar(ch)
      case 'W' => !IsAsciiWordChar(ch)
      case _ => IsAsciiPunct(patternChar) && patternChar == ch
    else (patternChar == '.' && ch != '\n') || patternChar == ch
  }

  // ---------- what the characters and escapes stand for, by character code ----------

  ghost predicate DigitCode(n: int) { 48 <= n <= 57 }

  ghost predicate SpaceCode(n: int) { 9 <= n <= 13 || n == 32 }

  /** The 63 letters, digits and the underscore. */
  ghost predicate WordCode(n: int) { DigitCode(n) || 65 <= n <= 90 || n == 95 || 97 <= n <= 122 }

  /** The 32 visible ASCII characters that are neither letters nor digits. */
  ghost predicate PunctCode(n: int) { 33 <= n <= 47 || 58 <= n <= 64 || 91 <= n <= 96 || 123 <= n <= 126 }

  /** The characters an atom stands for: a dot for all but the newline, other plain characters for themselves, escaped
      punctuation for itself. */
  ghost predicate Denotes(a: Atom, n: int) {
    if !a.escaped then (if a.c == '.' then n != 10 else n == a.c as int)
    else if a.c == 'd' then DigitCode(n)
    else if a.c == 'D' then !DigitCode(n)
    else if a.c == 'f' then n == 12
    else if a.c == 'n' then n == 10
    else if a.c == 'r' then n == 13
    else if a.c == 's' then SpaceCode(n)
    else if a.c == 'S' then !SpaceCode(n)
    else if a.c == 't' then n == 9
    else if a.c == 'v' then n == 11
    else if a.c == 'w' then WordCode(n)
    else if a.c == 'W' then !WordCode(n)
    else PunctCode(n) && n == a.c as int
  }

  lemma PunctExact(ch: char)
    ensures IsAsciiPunct(ch) <==> PunctCode(ch as int)
  {}

  /** The matcher's test of one character is right for every atom and every character. */
  lemma AtomExact(escaped: bool, c: char, ch: char)
    ensures AtomMatchesChar(escaped, c, ch) <==> Denotes(Atom(escaped, c), ch as int)
  {
    PunctExact(c);
    hide IsAsciiPunct;
  }

  /** Exactly punctuation and eleven letters can be escaped. */
  lemma EscapeExact(c: char)
    ensures IsValidEscape(c) <==> PunctCode(c as int) || c == 'd' || c == 'D' || c == 'f' || c == 'n' || c == 'r' ||
                                  c == 's' || c == 'S' || c == 't' || c == 'v' || c == 'w' || c == 'W'
  {
    PunctExact(c);
    hide IsAsciiPunct;
  }

  // ---------- syntax ----------

  /** A plain atom is a character without a role of its own; an escaped one needs a supported escape. */
  ghost predicate WellFormedAtom(a: Atom) {
    if a.escaped then IsValidEscape(a.c) else !IsInSet(a.c, "\\^$()[]{}|?*+")
  }

  ghost predicate WellFormed(items: seq<Item>) {
    forall i :: 0 <= i < |items| ==> WellFormedAtom(items[i].atom)
  }

  function AtomText(a: Atom): string {
    if a.escaped then ['\\', a.c] else [a.c]
  }

  function RepeatText(r: Repeat): string {
    match r
    case One => ""
    case Optional => "?"
    case Star => "*"
    case Plus => "+"
  }

  ghost function ItemsText(items: seq<Item>): string {
    if items == [] then "" else AtomText(items[0].atom) + RepeatText(items[0].rep) + ItemsText(items[1..])
  }

  ghost function EndText(end: bool): string {
    if end then "$" else ""
  }

  /** How the expression is written. */
  ghost function Text(r: Regex): string {
    (if r.start then "^" else "") + TailText(r.items, r.end)
  }

  ghost function TailText(items: seq<Item>, end: bool): string {
    ItemsText(items) + EndText(end)
  }

  // ---------- meaning ----------

  ghost predicate MayRepeat(rep: Repeat, n: nat) {
    match rep
    case One => n == 1
    case Optional => n <= 1
    case Star => true
    case Plus => n >= 1
  }

  ghost predicate AllMatch(a: Atom, s: string) {
    forall i :: 0 <= i < |s| ==> Denotes(a, s[i] as int)
  }

  /** The language: the string can be cut into one piece per item, of characters that the item's atom matches, and as
      many as its repetition allows. */
  ghost predicate InLanguage(items: seq<Item>, s: string) {
    if items == [] then s == ""
    else exists n :: 0 <= n <= |s| && FirstPiece(items[0], s, n) && InLanguage(items[1..], s[n..])
  }

  ghost predicate FirstPiece(item: Item, s: string, n: nat)
    requires n <= |s|
  {
    MayRepeat(item.rep, n) && AllMatch(item.atom, s[..n])
  }

  /** Some prefix of s is in the language; all of s if the expression is anchored at the end. */
  ghost predicate MatchesHead(items: seq<Item>, end: bool, s: string) {
    exists n :: 0 <= n <= |s| && InLanguage(items, s[..n]) && (end ==> n == |s|)
  }

  /** Some part of s, anchored as the expression says, is in the language. */
  ghost predicate Matches(r: Regex, s: string) {
    exists k :: 0 <= k <= |s| && MatchesHead(r.items, r.end, s[k..]) && (r.start ==> k == 0)
  }

  // ---------- validation ----------

  /** The checks from one position on; prev: a repetition may follow here, first: nothing comes before. */
  ghost predicate ValidFrom(p: string, prev: bool, first: bool) {
    if p == "" then true
    else if p[0] == '\\' then |p| > 1 && IsValidEscape(p[1]) && ValidFrom(p[2..], true, false)
    else
      && (p[0] == '^' ==> first)
      && (p[0] == '$' ==> |p| == 1)
      && !IsInSet(p[0], "()[]{}|")
      && (IsRepeat(p[0]) ==> prev)
      && ValidFrom(p[1..], !IsInSet(p[0], "^$?*+"), false)
  }

  /** A well-formed atom is accepted everywhere, and can be repeated. */
  lemma AtomValid(a: Atom, q: string, prev: bool, first: bool)
    requires WellFormedAtom(a)
    ensures ValidFrom(AtomText(a) + q, prev, first) <==> ValidFrom(q, true, false)
  {
    var p := AtomText(a) + q;
    assert p[0] == if a.escaped then '\\' else a.c;
    assert p[|AtomText(a)|..] == q;
  }

  /** A repetition is accepted behind an atom, and cannot itself be repeated. */
  lemma RepeatValid(rep: Repeat, q: string)
    requires rep != One
    ensures ValidFrom(RepeatText(rep) + q, true, false) <==> ValidFrom(q, false, false)
  {
    var p := RepeatText(rep) + q;
    assert p[1..] == q;
  }

  /** A dollar sign or the end is accepted everywhere. */
  lemma EndValid(end: bool, prev: bool, first: bool)
    ensures ValidFrom(EndText(end), prev, first)
  {}

  lemma TailText1(items: seq<Item>, end: bool)
    requires items != []
    ensures TailText(items, end) == AtomText(items[0].atom) + (RepeatText(items[0].rep) + TailText(items[1..], end))
  {}

  /** Every way of writing a tail is accepted. */
  lemma {:induction false} TailIsValid(items: seq<Item>, end: bool, prev: bool, first: bool)
    requires WellFormed(items)
    ensures ValidFrom(TailText(items, end), prev, first)
    decreases |items|
  {
    hide ValidFrom, AtomText, RepeatText, WellFormedAtom;
    if items == [] {
      EndValid(end, prev, first);
      assert "" + EndText(end) == EndText(end);
    } else {
      var item, rest := items[0], TailText(items[1..], end);
      TailText1(items, end);
      AtomValid(item.atom, RepeatText(item.rep) + rest, prev, first);
      TailIsValid(items[1..], end, item.rep == One, false);
      if item.rep == One {
        OneText(rest);
      } else {
        RepeatValid(item.rep, rest);
      }
    }
  }

  lemma OneText(q: string)
    ensures RepeatText(One) + q == q
  {}

  lemma StartValid(q: string)
    ensures ValidFrom("^" + q, false, true) <==> ValidFrom(q, false, false)
  {
    assert ("^" + q)[1..] == q;
  }

  lemma TextIsValid(r: Regex)
    requires WellFormed(r.items)
    ensures ValidFrom(Text(r), false, true)
  {
    hide ValidFrom;
    TailIsValid(r.items, r.end, false, true);
    TailIsValid(r.items, r.end, false, false);
    StartValid(TailText(r.items, r.end));
    assert "" + TailText(r.items, r.end) == TailText(r.items, r.end);
  }

  ghost function RepeatOf(ch: char): Repeat
    requires IsRepeat(ch)
  {
    if ch == '?' then Optional else if ch == '*' then Star else Plus
  }

  /** An accepted string that is not empty, a dollar sign or a caret starts with a well-formed atom. */
  lemma StartsWithAtom(p: string, first: bool) returns (a: Atom, q: string)
    requires ValidFrom(p, false, first) && p != "" && p != "$" && p[0] != '^'
    ensures WellFormedAtom(a) && p == AtomText(a) + q && |q| < |p|
  {
    a := if p[0] == '\\' then Atom(true, p[1]) else Atom(false, p[0]);
    q := p[|AtomText(a)|..];
  }

  /** Where something can be repeated, either it is, or nothing that could be is there. */
  lemma MaybeRepeat(q: string) returns (rep: Repeat, rest: string)
    requires ValidFrom(q, true, false)
    ensures q == RepeatText(rep) + rest && ValidFrom(rest, false, false) && |rest| <= |q|
  {
    if q != "" && IsRepeat(q[0]) {
      rep, rest := RepeatOf(q[0]), q[1..];
      assert q == [q[0]] + q[1..];
    } else {
      rep, rest := One, q;
    }
  }

  /** What is accepted where nothing can be repeated is the text of some tail. */
  lemma {:induction false} ValidIsTail(p: string, first: bool) returns (items: seq<Item>, end: bool)
    requires ValidFrom(p, false, first) && (p != "" ==> p[0] != '^')
    ensures WellFormed(items) && p == TailText(items, end)
    decreases |p|
  {
    hide ValidFrom, AtomText, RepeatText, WellFormedAtom, IsInSet;
    if p == "" { return [], false; }
    if p == "$" { return [], true; }
    var a, q := StartsWithAtom(p, first);
    AtomValid(a, q, false, first);
    var rep, rest := MaybeRepeat(q);
    NoCaret(rest);
    items, end := ValidIsTail(rest, false);
    items := [Item(a, rep)] + items;
    TailText1(items, end);
  }

  lemma NoCaret(p: string)
    requires ValidFrom(p, false, false)
    ensures p != "" ==> p[0] != '^'
  {}

  /** The accepted strings are exactly the texts of well-formed expressions. */
  lemma ValidIsText(p: string)
    ensures ValidFrom(p, false, true) <==> exists r: Regex :: WellFormed(r.items) && p == Text(r)
  {
    hide ValidFrom;
    if ValidFrom(p, false, true) {
      if p != "" && p[0] == '^' {
        StartValid(p[1..]);
        assert p == "^" + p[1..];
        NoCaret(p[1..]);
        var items, end := ValidIsTail(p[1..], false);
        assert p == Text(Regex(true, items, end));
      } else {
        var items, end := ValidIsTail(p, true);
        assert p == Text(Regex(false, items, end));
      }
    }
    if r: Regex :| WellFormed(r.items) && p == Text(r) { TextIsValid(r); }
  }

  datatype CString = Null | Str(s: string)

  /** What one character, or one escape sequence, contributes. */
  lemma CheckOne(p: string, i: nat, prev: bool)
    requires i < |p|
    ensures p[i] == '\\' ==> (ValidFrom(p[i..], prev, i == 0) <==>
      i + 1 < |p| && IsValidEscape(p[i + 1]) && ValidFrom(p[i + 2..], true, false))
    ensures p[i] != '\\' ==> (ValidFrom(p[i..], prev, i == 0) <==>
      && (p[i] == '^' ==> i == 0) && (p[i] == '$' ==> i + 1 == |p|) && !IsInSet(p[i], "()[]{}|")
      && (IsRepeat(p[i]) ==> prev)
      && ValidFrom(p[i + 1..], !IsInSet(p[i], "^$?*+"), false))
  {
    hide IsInSet, IsValidEscape;
    assert p[i..][1..] == p[i + 1..];
    if i + 1 < |p| { assert p[i..][2..] == p[i + 2..]; }
  }

  /** ValidateRegex: reports every error, but stops at a backslash at the end. */
  method ValidateRegex(regex: CString) returns (isValid: bool)
    ensures isValid <==> regex.Str? && ValidFrom(regex.s, false, true)
    ensures isValid <==> regex.Str? && exists r: Regex :: WellFormed(r.items) && regex.s == Text(r)
  {
    hide WellFormed, Text, ValidFrom, IsInSet, IsValidEscape, IsRepeat;
    if regex.Null? { return false; }
    var p := regex.s;
    ValidIsText(p);
    EndValid(false, false, false);
    EndValid(false, true, false);
    EndValid(false, false, true);
    isValid := true;
    var prevRepeatable := false;
    var i := 0;
    assert p[0..] == p;
    while i < |p|
      invariant i <= |p|
      invariant ValidFrom(p, false, true) <==> isValid && ValidFrom(p[i..], prevRepeatable, i == 0)
    {
      CheckOne(p, i, prevRepeatable);
      if p[i] == '\\' {
        i := i + 1;
        if i == |p| { return false; }
        if !IsValidEscape(p[i]) { isValid := false; }
        prevRepeatable := true;
      } else {
        var ch := p[i];
        if ch == '^' && i > 0 {
          isValid := false;
        } else if ch == '$' && i + 1 < |p| {
          isValid := false;
        } else if IsInSet(ch, "()[]{}|") {
          isValid := false;
        } else if IsRepeat(ch) && !prevRepeatable {
          isValid := false;
        }
        prevRepeatable := !IsInSet(ch, "^$?*+");
      }
      i := i + 1;
    }
    assert p[i..] == "";
  }

  // ---------- matching ----------

  lemma NoItems(end: bool, s: string)
    ensures MatchesHead([], end, s) <==> (end ==> s == "")
  {
    assert InLanguage([], s[..0]);
  }

  /** Matching at the head means matching the first piece and then, from where it ends, the rest. */
  lemma FirstItem(items: seq<Item>, end: bool, s: string)
    requires items != []
    ensures MatchesHead(items, end, s) <==> exists n: nat :: Splits(items, end, s, n)
  {
    hide FirstPiece;
    if MatchesHead(items, end, s) {
      var m :| 0 <= m <= |s| && InLanguage(items, s[..m]) && (end ==> m == |s|);
      var n :| 0 <= n <= m && FirstPiece(items[0], s[..m], n) && InLanguage(items[1..], s[..m][n..]);
      SamePiece(items[0], s, m, n);
      assert s[..m][n..] == s[n..][..m - n];
      assert Splits(items, end, s, n);
    }
    if n: nat :| Splits(items, end, s, n) {
      var k :| 0 <= k <= |s[n..]| && InLanguage(items[1..], s[n..][..k]) && (end ==> k == |s[n..]|);
      SamePiece(items[0], s, n + k, n);
      assert s[..n + k][n..] == s[n..][..k];
      assert InLanguage(items, s[..n + k]);
    }
  }

  ghost predicate Splits(items: seq<Item>, end: bool, s: string, n: nat)
    requires items != []
  {
    n <= |s| && FirstPiece(items[0], s, n) && MatchesHead(items[1..], end, s[n..])
  }

  lemma SamePiece(item: Item, s: string, m: nat, n: nat)
    requires n <= m <= |s|
    ensures FirstPiece(item, s[..m], n) <==> FirstPiece(item, s, n)
  {
    assert s[..m][..n] == s[..n];
  }

  /** The largest size_t less one. */
  const MAX_COUNT: nat := 0xFFFF_FFFF_FFFF_FFFE

  /** MatchRepetitionAndRegexAtHead: try every number of repetitions, fewest first. */
  method MatchRepetitionAndRegexAtHead(escaped: bool, c: char, repeat: char, regex: string, str: string,
                                       ghost items: seq<Item>, ghost end: bool) returns (m: bool)
    requires items != [] && items[0].atom == Atom(escaped, c) && IsRepeat(repeat) && items[0].rep == RepeatOf(repeat)
    requires WellFormed(items) && regex == TailText(items[1..], end) && |str| < MAX_COUNT
    ensures m <==> MatchesHead(items, end, str)
    decreases |items|, 0
  {
    hide MatchesHead, WellFormed, WellFormedAtom, TailText;
    RestWellFormed(items);
    FirstItem(items, end, str);
    var minCount := if repeat == '+' then 1 else 0;
    var maxCount := if repeat == '?' then 1 else MAX_COUNT;
    var i := 0;
    while i <= maxCount
      invariant i <= |str| && i <= maxCount + 1 && AllMatch(items[0].atom, str[..i])
      invariant forall n :: 0 <= n < i ==> !Splits(items, end, str, n)
    {
      if i >= minCount {
        var tail := MatchRegexAtHead(regex, str[i..], items[1..], end);
        if tail {
          assert Splits(items, end, str, i);
          return true;
        }
      }
      if i < |str| { AtomExact(escaped, c, str[i]); }
      if i == |str| || !AtomMatchesChar(escaped, c, str[i]) {
        forall n: nat ensures !Splits(items, end, str, n) { NoMoreRepeats(items, end, str, i, n); }
        return false;
      }
      i := i + 1;
    }
    return false;
  }

  /** The atom cannot be repeated past a character it does not match. */
  lemma NoMoreRepeats(items: seq<Item>, end: bool, s: string, i: nat, n: nat)
    requires items != [] && i <= |s| && (i == |s| || !Denotes(items[0].atom, s[i] as int))
    ensures n > i ==> !Splits(items, end, s, n)
  {
    hide Denotes, MatchesHead;
    if i < n <= |s| { assert s[..n][i] == s[i]; }
  }

  lemma RestWellFormed(items: seq<Item>)
    requires WellFormed(items) && items != []
    ensures WellFormed(items[1..]) && WellFormedAtom(items[0].atom)
  {}

  lemma AtomAhead(a: Atom, u: string)
    requires WellFormedAtom(a)
    ensures var t := AtomText(a) + u; var k := if a.escaped then 1 else 0;
      |t| > k && (t[0] == '\\' <==> a.escaped) && t[0] != '$' && t[k] == a.c && t[k + 1..] == u
  {}

  lemma RepeatAhead(rep: Repeat, rest: string)
    ensures var u := RepeatText(rep) + rest;
      if rep == One then u == rest else u != "" && IsRepeat(u[0]) && RepeatOf(u[0]) == rep && u[1..] == rest
  {}

  /** How the text of a tail starts. */
  lemma HeadText(items: seq<Item>, end: bool)
    requires WellFormed(items)
    ensures items == [] ==> TailText(items, end) == EndText(end)
    ensures items != [] ==> var t := TailText(items, end); var a := items[0].atom; var k := if a.escaped then 1 else 0;
      && |t| > k && (t[0] == '\\' <==> a.escaped) && t[0] != '$' && t[k] == a.c
      && (items[0].rep == One ==> t[k + 1..] == TailText(items[1..], end) && !(|t| > k + 1 && IsRepeat(t[k + 1])))
      && (items[0].rep != One ==> |t| > k + 1 && IsRepeat(t[k + 1]) && RepeatOf(t[k + 1]) == items[0].rep
                                  && t[k + 2..] == TailText(items[1..], end))
  {
    hide AtomText, RepeatText, IsRepeat, ItemsText, WellFormedAtom, RepeatOf;
    if items == [] {
      EmptyItems();
    } else {
      var a := items[0].atom;
      assert WellFormedAtom(a);
      TailText1(items, end);
      NoRepeatAhead(items[1..], end);
      var u := RepeatText(items[0].rep) + TailText(items[1..], end);
      AtomAhead(a, u);
      RepeatAhead(items[0].rep, TailText(items[1..], end));
    }
  }

  lemma EmptyItems()
    ensures ItemsText([]) == ""
  {}

  lemma NoRepeatAhead(items: seq<Item>, end: bool)
    requires WellFormed(items)
    ensures TailText(items, end) != "" ==> !IsRepeat(TailText(items, end)[0])
  {
    if items != [] {
      assert WellFormedAtom(items[0].atom);
      TailText1(items, end);
    }
  }

  /** With a single atom in front, the first character decides, and then the rest. */
  lemma SingleItem(items: seq<Item>, end: bool, s: string)
    requires items != [] && items[0].rep == One
    ensures MatchesHead(items, end, s) <==>
      s != "" && Denotes(items[0].atom, s[0] as int) && MatchesHead(items[1..], end, s[1..])
  {
    hide MatchesHead, Denotes;
    FirstItem(items, end, s);
    if s != "" && Denotes(items[0].atom, s[0] as int) && MatchesHead(items[1..], end, s[1..]) {
      assert Splits(items, end, s, 1);
    }
    if n: nat :| Splits(items, end, s, n) { assert s[..n][0] == s[0]; }
  }

  /** One repeated atom, anchored at the end: all characters are its own, and there are as many as may be. */
  lemma OneItemMatches(item: Item, s: string)
    ensures MatchesHead([item], true, s) <==>
      && (forall i :: 0 <= i < |s| ==> Denotes(item.atom, s[i] as int))
      && (item.rep == One ==> |s| == 1) && (item.rep == Optional ==> |s| <= 1) && (item.rep == Plus ==> |s| >= 1)
  {
    hide MatchesHead, Denotes;
    FirstItem([item], true, s);
    assert [item][1..] == [];
    forall n | 0 <= n <= |s| ensures MatchesHead([item][1..], true, s[n..]) <==> n == |s| { NoItems(true, s[n..]); }
    assert s[..|s|] == s;
    if MatchesHead([item], true, s) {
      var n: nat :| Splits([item], true, s, n);
    } else {
      assert !Splits([item], true, s, |s|);
    }
  }

  /** So a dot alone matches any one character but the newline, and \d one of ten digits. */
  lemma DotAndDigit(s: string)
    ensures MatchesHead([Item(Atom(false, '.'), One)], true, s) <==> |s| == 1 && s[0] != '\n'
    ensures MatchesHead([Item(Atom(true, 'd'), One)], true, s) <==> |s| == 1 && '0' <= s[0] <= '9'
  {
    OneItemMatches(Item(Atom(false, '.'), One), s);
    OneItemMatches(Item(Atom(true, 'd'), One), s);
  }

  /** MatchRegexAtHead, for a valid expression without a caret in front. */
  method MatchRegexAtHead(regex: string, str: string, ghost items: seq<Item>, ghost end: bool) returns (m: bool)
    requires WellFormed(items) && regex == TailText(items, end) && |str| < MAX_COUNT
    ensures m <==> MatchesHead(items, end, str)
    decreases |items|, 1
  {
    hide MatchesHead, WellFormed, WellFormedAtom, TailText, AtomMatchesChar, IsRepeat;
    HeadText(items, end);
    NoItems(end, str);
    if regex == "" { return true; }
    if regex[0] == '$' { return str == ""; }
    var escaped := regex[0] == '\\';
    var at := if escaped then 1 else 0;
    if at + 1 < |regex| && IsRepeat(regex[at + 1]) {
      m := MatchRepetitionAndRegexAtHead(escaped, regex[at], regex[at + 1], regex[at + 2..], str, items, end);
    } else {
      SingleItem(items, end, str);
      RestWellFormed(items);
      if str != "" { AtomExact(escaped, regex[at], str[0]); }
      if str == "" || !AtomMatchesChar(escaped, regex[at], str[0]) { return false; }
      m := MatchRegexAtHead(regex[at + 1..], str[1..], items[1..], end);
    }
  }

  /** MatchRegexAnywhere: does some part of the string match? */
  method MatchRegexAnywhere(regex: CString, str: CString, ghost r: Regex) returns (m: bool)
    requires regex.Str? ==> WellFormed(r.items) && regex.s == Text(r)
    requires str.Str? ==> |str.s| < MAX_COUNT
    ensures m <==> regex.Str? && str.Str? && Matches(r, str.s)
  {
    hide MatchesHead, WellFormed;
    if regex.Null? || str.Null? { return false; }
    var p, s := regex.s, str.s;
    CaretFirst(r);
    if p != "" && p[0] == '^' {
      m := MatchRegexAtHead(p[1..], s, r.items, r.end);
      assert s[0..] == s;
      return;
    }
    var i := 0;
    while i <= |s|
      invariant i <= |s| + 1 && forall k :: 0 <= k < i && k <= |s| ==> !MatchesHead(r.items, r.end, s[k..])
    {
      m := MatchRegexAtHead(p, s[i..], r.items, r.end);
      if m { return true; }
      i := i + 1;
    }
    return false;
  }

  lemma CaretFirst(r: Regex)
    requires WellFormed(r.items)
    ensures Text(r) != "" && Text(r)[0] == '^' <==> r.start
    ensures r.start ==> Text(r)[1..] == TailText(r.items, r.end)
    ensures !r.start ==> Text(r) == TailText(r.items, r.end)
  {
    hide AtomMatchesChar;
    TailIsValid(r.items, r.end, false, false);
    NoCaret(TailText(r.items, r.end));
  }

  // ---------- class RE ----------

  /** The last thing written is an escaped dollar sign. */
  ghost predicate EndsInEscapedDollar(items: seq<Item>) {
    items != [] && items[|items| - 1] == Item(Atom(true, '$'), One)
  }

  /** The expression that Init builds for full matches. */
  ghost function FullRegex(r: Regex): Regex {
    Regex(true, r.items, r.end || !EndsInEscapedDollar(r.items))
  }

  lemma {:induction false} LastChar(items: seq<Item>, end: bool)
    requires WellFormed(items)
    ensures var t := TailText(items, end);
      t != "" && t[|t| - 1] == '$' <==> end || EndsInEscapedDollar(items)
    decreases |items|
  {
    hide WellFormedAtom;
    if items == [] {
      EmptyItems();
    } else {
      LastChar(items[1..], end);
      LastOfItem(items[0], TailText(items[1..], end));
      TailText1(items, end);
      if |items| == 1 { EmptyItems(); }
      if |items| > 1 || end { TailNotEmpty(items[1..], end); }
    }
  }

  lemma LastOfItem(item: Item, rest: string)
    requires WellFormedAtom(item.atom)
    ensures AtomText(item.atom) + (RepeatText(item.rep) + rest) != ""
    ensures var t := AtomText(item.atom) + (RepeatText(item.rep) + rest);
      t[|t| - 1] == if rest != "" then rest[|rest| - 1]
                    else if item.rep == One then item.atom.c
                    else RepeatText(item.rep)[|RepeatText(item.rep)| - 1]
    ensures rest == "" && item.rep != One ==>
      RepeatText(item.rep) != "" && RepeatText(item.rep)[|RepeatText(item.rep)| - 1] != '$'
    ensures item.atom.c == '$' ==> item.atom.escaped
  {}

  lemma TailNotEmpty(items: seq<Item>, end: bool)
    requires items != [] || end
    ensures TailText(items, end) != ""
  {}

  ghost function Sample(a: Atom): char {
    if !a.escaped then a.c
    else match a.c
         case 'd' => '0'
         case 'D' => 'a'
         case 'f' => '\U{0C}'
         case 'n' => '\n'
         case 'r' => '\r'
         case 's' => ' '
         case 'S' => 'a'
         case 't' => '\t'
         case 'v' => '\U{0B}'
         case 'w' => 'a'
         case 'W' => ' '
         case _ => a.c
  }

  /** Every atom matches some character. */
  lemma SomeChar(a: Atom)
    requires WellFormedAtom(a)
    ensures Denotes(a, Sample(a) as int)
  {
    EscapeExact(a.c);
    hide IsValidEscape, IsInSet;
  }

  /** No language is empty. */
  lemma {:induction false} SomeString(items: seq<Item>) returns (s: string)
    requires WellFormed(items)
    ensures InLanguage(items, s)
    decreases |items|
  {
    hide Denotes, WellFormedAtom;
    if items == [] { return ""; }
    RestWellFormed(items);
    var ch := Sample(items[0].atom);
    SomeChar(items[0].atom);
    var rest := SomeString(items[1..]);
    s := [ch] + rest;
    assert s[..1] == [ch] && s[1..] == rest;
    assert FirstPiece(items[0], s, 1);
  }

  /** A string of an expression that ends in an escaped dollar sign ends in a dollar sign. */
  lemma {:induction false} EndsInDollar(items: seq<Item>, s: string)
    requires EndsInEscapedDollar(items) && InLanguage(items, s)
    ensures s != "" && s[|s| - 1] == '$'
    decreases |items|
  {
    var n :| 0 <= n <= |s| && FirstPiece(items[0], s, n) && InLanguage(items[1..], s[n..]);
    if |items| > 1 {
      EndsInDollar(items[1..], s[n..]);
    } else {
      assert s[..1][0] == s[0];
    }
  }

  /** FullMatch means what it promises, that the entire string matches, if and only if the expression does not end in
      an escaped dollar sign: that one is taken for the anchor. */
  lemma FullMatchExact(r: Regex)
    requires WellFormed(r.items)
    ensures (forall s :: Matches(FullRegex(r), s) <==> InLanguage(r.items, s)) <==>
      r.end || !EndsInEscapedDollar(r.items)
  {
    hide InLanguage, WellFormed, EndsInEscapedDollar;
    var f := FullRegex(r);
    if r.end || !EndsInEscapedDollar(r.items) {
      forall s ensures Matches(f, s) <==> InLanguage(r.items, s) {
        assert s[0..] == s && s[..|s|] == s;
      }
    } else {
      var w := SomeString(r.items);
      var s := w + "x";
      assert s[0..] == s && s[..|w|] == w;
      assert InLanguage(f.items, s[0..][..|w|]);
      assert MatchesHead(f.items, f.end, s[0..]);
      assert Matches(f, s);
      if InLanguage(r.items, s) { EndsInDollar(r.items, s); }
    }
  }

  class RE {
    var pattern: CString
    var fullPattern: CString
    var isValid: bool
    ghost var r: Regex

    ghost predicate Valid()
      reads this
    {
      isValid ==>
        WellFormed(r.items) && pattern == Str(Text(r)) && fullPattern == Str(Text(FullRegex(r)))
    }

    /** Init: valid exactly if the expression is well-formed. */
    constructor (regex: CString)
      ensures Valid() && pattern == regex
      ensures isValid <==> regex.Str? && exists x: Regex :: WellFormed(x.items) && regex.s == Text(x)
    {
      hide WellFormed, Text, EndsInEscapedDollar;
      pattern, fullPattern := regex, Null;
      new;
      isValid := ValidateRegex(regex);
      if !isValid { return; }
      ghost var x: Regex :| WellFormed(x.items) && regex.s == Text(x);
      r := x;
      FullText(r);
      var len := |regex.s|;
      var buffer := "";
      if len == 0 || regex.s[0] != '^' { buffer := buffer + "^"; }
      buffer := buffer + regex.s;
      if len == 0 || regex.s[len - 1] != '$' { buffer := buffer + "$"; }
      fullPattern := Str(buffer);
    }

    /** PartialMatch: some part of the string matches. */
    method PartialMatch(str: CString) returns (m: bool)
      requires Valid() && (str.Str? ==> |str.s| < 0xFFFF_FFFF_FFFF_FFFE)
      ensures m <==> isValid && str.Str? && Matches(r, str.s)
    {
      if !isValid { return false; }
      m := MatchRegexAnywhere(pattern, str, r);
    }

    /** FullMatch: the string matches as a whole, as far as the expression does not end in an escaped dollar sign. */
    method FullMatch(str: CString) returns (m: bool)
      requires Valid() && (str.Str? ==> |str.s| < 0xFFFF_FFFF_FFFF_FFFE)
      ensures m <==> isValid && str.Str? && Matches(FullRegex(r), str.s)
      ensures r.end || !EndsInEscapedDollar(r.items) ==> (m <==> isValid && str.Str? && InLanguage(r.items, str.s))
    {
      hide Matches, InLanguage, EndsInEscapedDollar;
      if !isValid { return false; }
      m := MatchRegexAnywhere(fullPattern, str, FullRegex(r));
      FullMatchExact(r);
    }
  }

  /** What Init adds to the text. */
  lemma FullText(r: Regex)
    requires WellFormed(r.items)
    ensures var t := Text(r);
      Text(FullRegex(r)) == (if t == "" || t[0] != '^' then "^" else "") + t
        + (if t == "" || t[|t| - 1] != '$' then "$" else "")
  {
    hide WellFormed, EndsInEscapedDollar, ItemsText;
    LastChar(r.items, r.end);
    CaretFirst(r);
  }
}
