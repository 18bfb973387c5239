/** Byte strings and their unsigned lexicographic order. */
module Bytes {
  newtype byte = x: int | 0 <= x < 256

  type Str = seq<byte>

  /** a comes before b or is equal to it, bytes compared as unsigned. */
  predicate Leq(a: Str, b: Str) {
    if a == [] then true
    else if b == [] then false
    else if a[0] != b[0] then a[0] < b[0]
    else Leq(a[1..], b[1..])
  }

  /** a and b differ first at k, where a is smaller. */
  ghost predicate SmallerAt(a: Str, b: Str, k: nat) {
    k < |a| && k < |b| && a[..k] == b[..k] && a[k] < b[k]
  }

  lemma SmallerTail(a: Str, b: Str, k: nat)
    requires a != [] && b != []
    ensures k > 0 ==> (SmallerAt(a, b, k) <==> a[0] == b[0] && SmallerAt(a[1..], b[1..], k - 1))
    ensures k == 0 ==> (SmallerAt(a, b, k) <==> a[0] < b[0])
  {
    if 0 < k < |a| && k < |b| {
      assert a[..k] == [a[0]] + a[1..][..k - 1] && b[..k] == [b[0]] + b[1..][..k - 1];
      if a[..k] == b[..k] { assert a[..k][0] == b[..k][0] && a[..k][1..] == b[..k][1..]; }
    }
  }

  /** a is a prefix of b, or smaller at the first byte where they differ. */
  lemma {:induction false} LeqMeans(a: Str, b: Str)
    ensures Leq(a, b) <==> a <= b || exists k: nat :: SmallerAt(a, b, k)
  {
    hide SmallerAt;
    if a == [] || b == [] {
      assert forall k: nat :: !SmallerAt(a, b, k) by { NoneSmaller(a, b); }
    } else {
      LeqMeans(a[1..], b[1..]);
      SmallerTail(a, b, 0);
      forall k: nat
        ensures SmallerAt(a, b, k + 1) <==> a[0] == b[0] && SmallerAt(a[1..], b[1..], k) { SmallerTail(a, b, k + 1); }
      if k: nat :| SmallerAt(a, b, k) { SmallerTail(a, b, k); }
      PrefixTail(a, b);
    }
  }

  lemma NoneSmaller(a: Str, b: Str)
    requires a == [] || b == []
    ensures forall k: nat :: !SmallerAt(a, b, k)
  {}

  lemma PrefixTail(a: Str, b: Str)
    requires a != [] && b != []
    ensures a <= b <==> a[0] == b[0] && a[1..] <= b[1..]
  {
    assert a == [a[0]] + a[1..] && b == [b[0]] + b[1..];
  }

  lemma {:induction false} LeqRefl(a: Str)
    ensures Leq(a, a)
  {
    if a != [] { LeqRefl(a[1..]); }
  }

  lemma {:induction false} LeqTrans(a: Str, b: Str, c: Str)
    requires Leq(a, b) && Leq(b, c)
    ensures Leq(a, c)
  {
    if a != [] && b != [] && c != [] && a[0] == b[0] == c[0] { LeqTrans(a[1..], b[1..], c[1..]); }
  }

  lemma {:induction false} LeqAntisym(a: Str, b: Str)
    requires Leq(a, b) && Leq(b, a)
    ensures a == b
  {
    if a != [] && b != [] {
      LeqAntisym(a[1..], b[1..]);
      assert a == [a[0]] + a[1..] && b == [b[0]] + b[1..];
    }
  }

  lemma {:induction false} LeqTotal(a: Str, b: Str)
    ensures Leq(a, b) || Leq(b, a)
  {
    if a != [] && b != [] && a[0] == b[0] { LeqTotal(a[1..], b[1..]); }
  }

  /** Strings that share their first d bytes compare by what follows. */
  lemma {:induction false} LeqCommon(w: Str, a: Str, b: Str)
    requires w <= a && w <= b
    ensures Leq(a, b) <==> Leq(a[|w|..], b[|w|..])
  {
    if w == [] {
      assert a[0..] == a && b[0..] == b;
    } else {
      assert w[1..] <= a[1..] && w[1..] <= b[1..];
      LeqCommon(w[1..], a[1..], b[1..]);
      assert a[1..][|w| - 1..] == a[|w|..] && b[1..][|w| - 1..] == b[|w|..];
    }
  }

  // ---------- sorted lists ----------

  ghost predicate Sorted(s: seq<Str>) {
    forall i, j :: 0 <= i < j < |s| ==> Leq(s[i], s[j]) && s[i] != s[j]
  }

  ghost predicate Least(s: set<Str>, m: Str) {
    m in s && forall x :: x in s ==> Leq(m, x)
  }

  lemma LeastOfTwo(s: set<Str>, a: Str, m: Str)
    requires a in s && Least(s - {a}, m)
    ensures Least(s, if Leq(a, m) then a else m)
  {
    hide Leq;
    LeqTotal(a, m);
    LeqRefl(a);
    forall x | x in s ensures Leq(if Leq(a, m) then a else m, x) {
      if x != a {
        assert x in s - {a};
        if Leq(a, m) { LeqTrans(a, m, x); }
      }
    }
  }

  lemma {:induction false} MinExists(s: set<Str>)
    requires s != {}
    ensures exists m :: m in s && forall x :: x in s ==> Leq(m, x)
  {
    hide Leq;
    var m := LeastOf(s);
    assert m in s && forall x :: x in s ==> Leq(m, x);
  }

  lemma {:induction false} LeastOf(s: set<Str>) returns (m: Str)
    requires s != {}
    ensures Least(s, m)
  {
    hide Leq, Least;
    var a :| a in s;
    if s == {a} {
      OnlyOne(a);
      return a;
    }
    m := LeastOf(s - {a});
    LeastOfTwo(s, a, m);
    m := if Leq(a, m) then a else m;
  }

  lemma OnlyOne(a: Str)
    ensures Least({a}, a)
  {
    hide Leq;
    LeqRefl(a);
  }

  /** The elements of a set in ascending order: how std::map iterates over its keys. */
  function Ascending(s: set<Str>): (r: seq<Str>)
    ensures Sorted(r) && |r| == |s| && forall x :: x in r <==> x in s
  {
    if s == {} then []
    else
      MinExists(s);
      AscendingUnique(s);
      var m :| m in s && forall x :: x in s ==> Leq(m, x);
      var rest := Ascending(s - {m});
      AscendingStep(s, m, rest);
      [m] + rest
  }

  lemma AscendingStep(s: set<Str>, m: Str, rest: seq<Str>)
    requires m in s && (forall x :: x in s ==> Leq(m, x)) && Sorted(rest) && forall x :: x in rest <==> x in s - {m}
    ensures Sorted([m] + rest) && forall x :: x in [m] + rest <==> x in s
  {
    hide Leq;
    assert forall x :: x in [m] + rest <==> x == m || x in rest;
    var r := [m] + rest;
    forall i, j | 0 <= i < j < |r| ensures Leq(r[i], r[j]) && r[i] != r[j] {
      assert r[j] == rest[j - 1] && rest[j - 1] in rest;
    }
  }

  lemma AscendingUnique(s: set<Str>)
    ensures forall m, m' ::
      m in s && m' in s && (forall x :: x in s ==> Leq(m, x)) && (forall x :: x in s ==> Leq(m', x)) ==> m == m'
  {
    forall m, m' | m in s && m' in s && (forall x :: x in s ==> Leq(m, x)) && (forall x :: x in s ==> Leq(m', x))
      ensures m == m'
    {
      LeqAntisym(m, m');
    }
  }
}
