/** utils.h: splitting text; and decimal numbers as ostream writes and atoi reads them. */
module Text {
  import opened Bytes

  /** Where a character of ds first occurs, or the end. */
  function IndexOf(s: Str, ds: Str): (i: nat)
    ensures i <= |s| && (forall k :: 0 <= k < i ==> s[k] !in ds) && (i < |s| ==> s[i] in ds)
  {
    if s == [] || s[0] in ds then 0 else 1 + IndexOf(s[1..], ds)
  }

  /** The pieces between the delimiters; there is always one more than there are delimiters. */
  function Pieces(s: Str, ds: Str): (r: seq<Str>)
    ensures |r| > 0
    decreases |s|
  {
    var i := IndexOf(s, ds);
    if i == |s| then [s] else [s[..i]] + Pieces(s[i + 1..], ds)
  }

  function JoinWith(ps: seq<Str>, d: byte): Str {
    if ps == [] then [] else if |ps| == 1 then ps[0] else ps[0] + [d] + JoinWith(ps[1..], d)
  }

  lemma {:induction false} IndexAfter(p: Str, rest: Str, ds: Str)
    requires (forall k :: 0 <= k < |p| ==> p[k] !in ds) && (rest != [] ==> rest[0] in ds)
    ensures IndexOf(p + rest, ds) == |p|
  {
    if p == [] {
      assert p + rest == rest;
    } else {
      assert (p + rest)[1..] == p[1..] + rest;
      IndexAfter(p[1..], rest, ds);
    }
  }

  /** Joining and splitting again gives the same pieces, if none contains the delimiter. */
  lemma {:induction false} PiecesOfJoin(ps: seq<Str>, d: byte)
    requires |ps| > 0 && forall i :: 0 <= i < |ps| ==> d !in ps[i]
    ensures Pieces(JoinWith(ps, d), [d]) == ps
  {
    hide IndexOf;
    if |ps| == 1 {
      IndexAfter(ps[0], [], [d]);
      assert ps[0] + [] == ps[0];
    } else {
      var rest := JoinWith(ps[1..], d);
      IndexAfter(ps[0], [d] + rest, [d]);
      assert ps[0] + [d] + rest == ps[0] + ([d] + rest);
      assert JoinWith(ps, d)[|ps[0]| + 1..] == rest;
      PiecesOfJoin(ps[1..], d);
    }
  }

  lemma {:induction false} JoinMore(ps: seq<Str>, p: Str, d: byte)
    requires |ps| > 0
    ensures JoinWith(ps + [p], d) == JoinWith(ps, d) + [d] + p
  {
    assert (ps + [p])[1..] == ps[1..] + [p];
    if |ps| > 1 {
      JoinMore(ps[1..], p, d);
      assert ps[0] + [d] + (JoinWith(ps[1..], d) + [d] + p) == ps[0] + [d] + JoinWith(ps[1..], d) + [d] + p;
    }
  }

  /** How the pieces of a string start. */
  lemma FirstPiece(s: Str, ds: Str)
    ensures var i := IndexOf(s, ds);
      i <= |s| && Pieces(s, ds) == if i == |s| then [s] else [s[..i]] + Pieces(s[i + 1..], ds)
  {
    hide IndexOf;
  }

  /** The pieces of what is left from a position on. */
  lemma NextPiece(s: Str, ds: Str, last: nat)
    requires last <= |s|
    ensures var i := last + IndexOf(s[last..], ds);
      i <= |s| && Pieces(s[last..], ds) == if i == |s| then [s[last..]] else [s[last..i]] + Pieces(s[i + 1..], ds)
  {
    hide Pieces, IndexOf;
    var t := s[last..];
    FirstPiece(t, ds);
    var i := IndexOf(t, ds);
    if i < |t| { assert t[i + 1..] == s[last + i + 1..] && t[..i] == s[last..last + i]; }
  }

  /** StringUtil::split. Whatever the delimiters are, the piece at the end is dropped if the string ends in a tab. */
  function SplitOf(s: Str, ds: Str): seq<Str> {
    if s == [] || ds == [] then []
    else if s[|s| - 1] == 9 then Pieces(s, ds)[..|Pieces(s, ds)| - 1]
    else Pieces(s, ds)
  }

  /** The pieces before position last are done. */
  ghost predicate SplitTo(str: Str, delim: Str, ret: seq<Str>, last: nat)
    requires last <= |str|
  {
    Pieces(str, delim) == ret + Pieces(str[last..], delim)
  }

  lemma SplitStart(str: Str, delim: Str)
    ensures SplitTo(str, delim, [], 0)
  {
    hide Pieces;
    assert str[0..] == str;
  }

  lemma SplitMore(str: Str, delim: Str, ret: seq<Str>, last: nat, index: nat)
    requires last <= index < |str| && index == last + IndexOf(str[last..], delim) && SplitTo(str, delim, ret, last)
    ensures SplitTo(str, delim, ret + [str[last..index]], index + 1)
  {
    hide Pieces, IndexOf;
    NextPiece(str, delim, last);
  }

  lemma SplitEnd(str: Str, delim: Str, ret: seq<Str>, last: nat)
    requires last <= |str| && IndexOf(str[last..], delim) == |str| - last && SplitTo(str, delim, ret, last)
    ensures Pieces(str, delim) == ret + [str[last..]]
  {
    hide Pieces, IndexOf;
    NextPiece(str, delim, last);
  }

  method Split(str: Str, delim: Str) returns (ret: seq<Str>)
    ensures ret == SplitOf(str, delim)
  {
    hide Pieces, IndexOf, SplitTo;
    ret := [];
    if |str| == 0 || |delim| == 0 { return; }
    var last := 0;
    var index := FindFirstOf(str, delim, last);
    SplitStart(str, delim);
    while index != -1
      invariant 0 <= last <= |str| && SplitTo(str, delim, ret, last)
      invariant var i := IndexOf(str[last..], delim); index == if i == |str| - last then -1 else last + i
      decreases |str| - last
    {
      SplitMore(str, delim, ret, last, index);
      ret := ret + [str[last..index]];
      last := index + 1;
      index := FindFirstOf(str, delim, last);
    }
    SplitEnd(str, delim, ret, last);
    if str[|str| - 1] != 9 {
      ret := ret + [str[last..]];
    }
  }

  /** find_first_of from a position on. */
  method FindFirstOf(str: Str, ds: Str, from: nat) returns (index: int)
    requires from <= |str|
    ensures index == if IndexOf(str[from..], ds) == |str| - from then -1 else from + IndexOf(str[from..], ds)
  {
    hide IndexOf;
    index := from;
    while index < |str| && str[index] !in ds
      invariant from <= index <= |str| && forall k :: from <= k < index ==> str[k] !in ds
    {
      index := index + 1;
    }
    assert str[from..] == str[from..index] + str[index..];
    IndexAfter(str[from..index], str[index..], ds);
    if index == |str| { index := -1; }
  }

  /** The lines getline reads: what is behind the last newline counts only if it is not empty. */
  function Lines(file: Str): seq<Str> {
    var ps := Pieces(file, [10]);
    if ps[|ps| - 1] == [] then ps[..|ps| - 1] else ps
  }

  /** Lines, each with a newline behind it. */
  ghost function Unlines(ls: seq<Str>): Str {
    if ls == [] then [] else Unlines(ls[..|ls| - 1]) + ls[|ls| - 1] + [10]
  }

  lemma {:induction false} UnlinesIsJoin(ls: seq<Str>)
    ensures Unlines(ls) == JoinWith(ls + [[]], 10)
    decreases |ls|
  {
    if ls == [] {
      assert ls + [[]] == [[]];
    } else {
      var most, l := ls[..|ls| - 1], ls[|ls| - 1];
      UnlinesIsJoin(most);
      assert ls == most + [l];
      if most == [] {
        assert ls + [[]] == [l, []] && [l, []][1..] == [[]];
      } else {
        JoinMore(most, [], 10);
        JoinMore(most, l, 10);
        JoinMore(ls, [], 10);
      }
    }
  }

  /** Written lines are read back, if none contains a newline. */
  lemma LinesBack(ls: seq<Str>)
    requires forall i :: 0 <= i < |ls| ==> 10 !in ls[i]
    ensures Lines(Unlines(ls)) == ls
  {
    hide Pieces, JoinWith, Unlines;
    UnlinesIsJoin(ls);
    PiecesOfJoin(ls + [[]], 10);
  }

  /** What is behind the last newline is a line too, if it is not empty. */
  lemma UnendedLine(ls: seq<Str>, l: Str)
    requires (forall i :: 0 <= i < |ls| ==> 10 !in ls[i]) && 10 !in l && l != []
    ensures Lines(Unlines(ls) + l) == ls + [l]
  {
    hide Pieces, JoinWith, Unlines;
    JoinedEnd(ls, l);
    PiecesOfJoin(ls + [l], 10);
  }

  lemma {:induction false} JoinedEnd(ls: seq<Str>, l: Str)
    ensures Unlines(ls) + l == JoinWith(ls + [l], 10)
  {
    UnlinesIsJoin(ls);
    if ls == [] {
      assert [] + [l] == [l];
    } else {
      JoinMore(ls, [], 10);
      JoinMore(ls, l, 10);
      UnlinesEnd(ls);
    }
  }

  lemma UnlinesEnd(ls: seq<Str>)
    requires ls != [] && Unlines(ls) == JoinWith(ls, 10) + [10] + []
    ensures forall l: Str :: Unlines(ls) + l == JoinWith(ls, 10) + [10] + l
  {}

  // ---------- numbers ----------

  predicate IsDigit(b: byte) { 48 <= b <= 57 }

  function Digits(n: nat): (s: Str)
    ensures |s| > 0 && forall i :: 0 <= i < |s| ==> IsDigit(s[i])
  {
    if n < 10 then [(48 + n) as byte] else Digits(n / 10) + [(48 + n % 10) as byte]
  }

  /** How a number is written. */
  function Decimal(n: int): (s: Str)
    ensures |s| > 0 && forall i :: 0 <= i < |s| ==> IsDigit(s[i]) || s[i] == 45
  {
    if n < 0 then [45] + Digits(-n) else Digits(n)
  }

  /** The number that the leading digits make, behind acc. */
  function Value(s: Str, acc: nat): nat {
    if s == [] || !IsDigit(s[0]) then acc else Value(s[1..], 10 * acc + (s[0] as nat - 48))
  }

  /** atoi: leading white space, a sign, digits. */
  function Atoi(s: Str): int
    decreases |s|
  {
    if s == [] then 0
    else if s[0] == 32 || 9 <= s[0] <= 13 then Atoi(s[1..])
    else if s[0] == 45 then -(Value(s[1..], 0) as int)
    else if s[0] == 43 then Value(s[1..], 0)
    else Value(s, 0)
  }

  lemma {:induction false} ValueMore(s: Str, d: byte, acc: nat)
    requires IsDigit(d) && forall i :: 0 <= i < |s| ==> IsDigit(s[i])
    ensures Value(s + [d], acc) == 10 * Value(s, acc) + (d as nat - 48)
    decreases |s|
  {
    if s == [] {
      assert s + [d] == [d] && [d][1..] == [];
    } else {
      assert (s + [d])[1..] == s[1..] + [d];
      ValueMore(s[1..], d, 10 * acc + (s[0] as nat - 48));
    }
  }

  lemma {:induction false} ValueOfDigits(n: nat)
    ensures Value(Digits(n), 0) == n
  {
    if n < 10 {
      assert Digits(n)[1..] == [];
    } else {
      ValueOfDigits(n / 10);
      ValueMore(Digits(n / 10), (48 + n % 10) as byte, 0);
    }
  }

  /** Every written number is read back. */
  lemma AtoiBack(n: int)
    ensures Atoi(Decimal(n)) == n
  {
    if n < 0 {
      ValueOfDigits(-n);
      assert Decimal(n)[1..] == Digits(-n);
    } else {
      ValueOfDigits(n);
      assert IsDigit(Digits(n)[0]);
    }
  }

  /** Numbers are written without leading zeros, and a minus sign stands in front of negative ones. */
  lemma {:induction false} DigitsStart(n: nat)
    ensures n > 0 ==> Digits(n)[0] != 48
    ensures n == 0 ==> Digits(n) == [48]
  {
    if n >= 10 { DigitsStart(n / 10); }
  }

  lemma DecimalStarts(n: int)
    ensures Decimal(n)[0] == 45 <==> n < 0
    ensures n < 0 ==> |Decimal(n)| > 1 && Decimal(n)[1] != 48
    ensures n > 0 ==> Decimal(n)[0] != 48
    ensures n == 0 ==> Decimal(n) == [48]
  {
    DigitsStart(if n < 0 then -n else n);
    assert IsDigit(Digits(if n < 0 then -n else n)[0]);
  }

  ghost predicate IsSpace(b: byte) { b == 32 || b == 9 || b == 10 || b == 11 || b == 12 || b == 13 }

  /** atoi skips white space, reads a sign, and then the digits up to the first other character. */
  lemma {:induction false} AtoiReads(ws: Str, sign: Str, ds: Str, rest: Str)
    requires forall i :: 0 <= i < |ws| ==> IsSpace(ws[i])
    requires sign == [] || sign == [45] || sign == [43]
    requires (forall i :: 0 <= i < |ds| ==> 48 <= ds[i] <= 57) && (rest != [] ==> rest[0] < 48 || rest[0] > 57)
    requires sign == [] && ds == [] && rest != [] ==> !IsSpace(rest[0]) && rest[0] != 45 && rest[0] != 43
    ensures Atoi(ws + sign + ds + rest) == if sign == [45] then -(Number(ds) as int) else Number(ds)
    decreases |ws|
  {
    if ws == [] {
      assert ws + sign + ds + rest == sign + (ds + rest);
      ValueReads(ds, rest, 0);
      NumberFrom(ds);
      if sign != [] { assert (sign + (ds + rest))[1..] == ds + rest; } else { assert sign + (ds + rest) == ds + rest; }
    } else {
      assert (ws + sign + ds + rest)[1..] == ws[1..] + sign + ds + rest;
      AtoiReads(ws[1..], sign, ds, rest);
    }
  }

  /** The number that a string of digits stands for. */
  ghost function Number(ds: Str): nat {
    if ds == [] then 0 else 10 * Number(ds[..|ds| - 1]) + if ds[|ds| - 1] >= 48 then ds[|ds| - 1] as nat - 48 else 0
  }

  lemma {:induction false} ValueReads(ds: Str, rest: Str, acc: nat)
    requires (forall i :: 0 <= i < |ds| ==> 48 <= ds[i] <= 57) && (rest != [] ==> rest[0] < 48 || rest[0] > 57)
    ensures Value(ds + rest, acc) == Value(ds, acc)
    decreases |ds|
  {
    if ds == [] {
      assert ds + rest == rest;
    } else {
      assert (ds + rest)[1..] == ds[1..] + rest;
      ValueReads(ds[1..], rest, 10 * acc + (ds[0] as nat - 48));
    }
  }

  lemma {:induction false} NumberFrom(ds: Str)
    requires forall i :: 0 <= i < |ds| ==> 48 <= ds[i] <= 57
    ensures Value(ds, 0) == Number(ds)
  {
    if ds != [] {
      var most, d := ds[..|ds| - 1], ds[|ds| - 1];
      assert ds == most + [d];
      NumberFrom(most);
      ValueMore(most, d, 0);
    }
  }

  lemma DecimalClean(n: int, d: byte)
    requires !IsDigit(d) && d != 45
    ensures d !in Decimal(n)
  {}
}
