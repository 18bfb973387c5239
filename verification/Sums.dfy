/** Finite sums of reals: over an index range, and over every tag sequence of a given length. */
module Sums {

  /** f(0) + f(1) + ... + f(n-1) */
  ghost function Sum(n: nat, f: int -> real): real {
    if n == 0 then 0.0 else Sum(n - 1, f) + f(n - 1)
  }

  lemma SumNext(n: nat, f: int -> real)
    ensures Sum(0, f) == 0.0 && Sum(n + 1, f) == Sum(n, f) + f(n)
  {}

  /** Multiplication, named so that it only unfolds where it is spoken of. */
  function Times(c: real, x: real): real { c * x }

  lemma TimesLaws(a: real, b: real, c: real)
    ensures Times(a, b) == Times(b, a)
    ensures Times(Times(a, b), c) == Times(a, Times(b, c)) == Times(b, Times(a, c))
    ensures Times(a, b + c) == Times(a, b) + Times(a, c)
    ensures Times(1.0, a) == a && Times(a, 0.0) == 0.0
    ensures a > 0.0 && b > 0.0 ==> Times(a, b) > 0.0
  {}

  lemma TimesCancel(a: real, b: real, c: real)
    requires a != 0.0 && Times(a, b) == Times(a, c)
    ensures b == c
  {}

  lemma {:induction false} SumCong(n: nat, f: int -> real, g: int -> real)
    requires forall i :: 0 <= i < n ==> f(i) == g(i)
    ensures Sum(n, f) == Sum(n, g)
  {
    if n > 0 { SumCong(n - 1, f, g); }
  }

  lemma {:induction false} SumZero(n: nat, f: int -> real)
    requires forall i :: 0 <= i < n ==> f(i) == 0.0
    ensures Sum(n, f) == 0.0
  {
    if n > 0 { SumZero(n - 1, f); }
  }

  lemma {:induction false} SumScale(n: nat, c: real, f: int -> real, g: int -> real)
    requires forall i :: 0 <= i < n ==> g(i) == Times(c, f(i))
    ensures Sum(n, g) == Times(c, Sum(n, f))
  {
    if n > 0 {
      SumScale(n - 1, c, f, g);
      assert c * (Sum(n - 1, f) + f(n - 1)) == c * Sum(n - 1, f) + c * f(n - 1);
    }
  }

  lemma {:induction false} SumAdd(n: nat, f: int -> real, g: int -> real, h: int -> real)
    requires forall i :: 0 <= i < n ==> h(i) == f(i) + g(i)
    ensures Sum(n, h) == Sum(n, f) + Sum(n, g)
  {
    if n > 0 { SumAdd(n - 1, f, g, h); }
  }

  lemma {:induction false} SumPositive(n: nat, f: int -> real)
    requires n > 0 && forall i :: 0 <= i < n ==> f(i) > 0.0
    ensures Sum(n, f) > 0.0
  {
    if n > 1 { SumPositive(n - 1, f); }
  }

  /** Exactly one index of the range carries a non-zero term. */
  lemma {:induction false} SumPick(n: nat, f: int -> real, k: int)
    requires 0 <= k < n
    requires forall i :: 0 <= i < n && i != k ==> f(i) == 0.0
    ensures Sum(n, f) == f(k)
  {
    if k == n - 1 {
      SumZero(n - 1, f);
    } else {
      SumPick(n - 1, f, k);
    }
  }

  lemma {:induction false} SumSwap(n: nat, m: nat, f: (int, int) -> real)
    ensures Sum(n, i => Sum(m, j => f(i, j))) == Sum(m, j => Sum(n, i => f(i, j)))
  {
    if n == 0 {
      SumZero(m, j => Sum(n, i => f(i, j)));
    } else {
      SumSwap(n - 1, m, f);
      SumAdd(m, j => Sum(n - 1, i => f(i, j)), j => f(n - 1, j), j => Sum(n, i => f(i, j)));
    }
  }

  // ---------- tag sequences ----------

  type Tags = seq<int>

  /** Every tag is one of the y tags of the tag set. */
  ghost predicate InRange(y: nat, t: Tags) {
    forall i :: 0 <= i < |t| ==> 0 <= t[i] < y
  }

  /** f, as a function of what follows the tags u. */
  ghost function After(u: Tags, f: Tags -> real): Tags -> real {
    v => f(u + v)
  }

  /** Sum of f over the y^m tag sequences of length m. */
  ghost function SumTags(y: nat, m: nat, f: Tags -> real): real {
    if m == 0 then f([]) else Sum(y, j => SumTags(y, m - 1, After([j], f)))
  }

  lemma {:induction false} TagsCong(y: nat, m: nat, f: Tags -> real, g: Tags -> real)
    requires forall t: Tags :: |t| == m && InRange(y, t) ==> f(t) == g(t)
    ensures SumTags(y, m, f) == SumTags(y, m, g)
  {
    if m > 0 {
      forall j | 0 <= j < y ensures SumTags(y, m - 1, After([j], f)) == SumTags(y, m - 1, After([j], g)) {
        TagsCong(y, m - 1, After([j], f), After([j], g));
      }
      SumCong(y, j => SumTags(y, m - 1, After([j], f)), j => SumTags(y, m - 1, After([j], g)));
    }
  }

  lemma {:induction false} TagsScale(y: nat, m: nat, c: real, f: Tags -> real, g: Tags -> real)
    requires forall t: Tags :: |t| == m && InRange(y, t) ==> g(t) == Times(c, f(t))
    ensures SumTags(y, m, g) == Times(c, SumTags(y, m, f))
  {
    if m > 0 {
      var F, G := j => SumTags(y, m - 1, After([j], f)), j => SumTags(y, m - 1, After([j], g));
      forall j | 0 <= j < y ensures G(j) == Times(c, F(j)) {
        forall t: Tags | |t| == m - 1 && InRange(y, t) ensures After([j], g)(t) == Times(c, After([j], f)(t)) {
          assert g([j] + t) == Times(c, f([j] + t));
        }
        TagsScale(y, m - 1, c, After([j], f), After([j], g));
      }
      SumScale(y, c, F, G);
    }
  }

  lemma {:induction false} TagsAdd(y: nat, m: nat, f: Tags -> real, g: Tags -> real, h: Tags -> real)
    requires forall t: Tags :: |t| == m && InRange(y, t) ==> h(t) == f(t) + g(t)
    ensures SumTags(y, m, h) == SumTags(y, m, f) + SumTags(y, m, g)
  {
    if m > 0 {
      var F, G := j => SumTags(y, m - 1, After([j], f)), j => SumTags(y, m - 1, After([j], g));
      var H := j => SumTags(y, m - 1, After([j], h));
      forall j | 0 <= j < y ensures H(j) == F(j) + G(j) {
        TagsAdd(y, m - 1, After([j], f), After([j], g), After([j], h));
      }
      SumAdd(y, F, G, H);
    }
  }

  lemma {:induction false} TagsPositive(y: nat, m: nat, f: Tags -> real)
    requires y > 0 && forall t: Tags :: |t| == m && InRange(y, t) ==> f(t) > 0.0
    ensures SumTags(y, m, f) > 0.0
  {
    if m == 0 {
      assert InRange(y, []);
    } else {
      forall j | 0 <= j < y ensures SumTags(y, m - 1, After([j], f)) > 0.0 {
        TagsPositive(y, m - 1, After([j], f));
      }
      SumPositive(y, j => SumTags(y, m - 1, After([j], f)));
    }
  }

  /** Sums after u ++ v, written as sums after u and then after v. */
  lemma AfterAfter(y: nat, m: nat, u: Tags, v: Tags, f: Tags -> real)
    ensures SumTags(y, m, After(v, After(u, f))) == SumTags(y, m, After(u + v, f))
  {
    forall t: Tags ensures After(v, After(u, f))(t) == After(u + v, f)(t) { assert u + (v + t) == u + v + t; }
    TagsCong(y, m, After(v, After(u, f)), After(u + v, f));
  }

  /** Cutting every sequence after its first a tags turns the sum into a double sum. */
  lemma {:induction false} TagsSplit(y: nat, a: nat, b: nat, f: Tags -> real)
    ensures SumTags(y, a + b, f) == SumTags(y, a, u => SumTags(y, b, After(u, f)))
    decreases a
  {
    var cut := u => SumTags(y, b, After(u, f));
    if a == 0 {
      forall t: Tags ensures After([], f)(t) == f(t) { assert [] + t == t; }
      TagsCong(y, b, f, After([], f));
    } else {
      var F, G := j => SumTags(y, a + b - 1, After([j], f)), j => SumTags(y, a - 1, After([j], cut));
      forall j | 0 <= j < y ensures F(j) == G(j) {
        var g := After([j], f);
        TagsSplit(y, a - 1, b, g);
        var cut' := u => SumTags(y, b, After(u, g));
        forall u: Tags ensures cut'(u) == After([j], cut)(u) { AfterAfter(y, b, [j], u, f); }
        TagsCong(y, a - 1, cut', After([j], cut));
      }
      SumCong(y, F, G);
    }
  }

  /** A sum over one-tag sequences is a sum over the tags. */
  lemma TagsSingle(y: nat, f: Tags -> real)
    ensures SumTags(y, 1, f) == Sum(y, j => f([j]))
  {
    forall j: int ensures SumTags(y, 0, After([j], f)) == f([j]) { assert [j] + [] == [j]; }
    SumCong(y, j => SumTags(y, 0, After([j], f)), j => f([j]));
  }

  lemma {:induction false} TagsSwap(y: nat, m: nat, n: nat, f: (Tags, int) -> real)
    ensures SumTags(y, m, t => Sum(n, i => f(t, i))) == Sum(n, i => SumTags(y, m, t => f(t, i)))
  {
    if n == 0 {
      TagsScale(y, m, 0.0, t => Sum(n, i => f(t, i)), t => Sum(n, i => f(t, i)));
    } else {
      TagsSwap(y, m, n - 1, f);
      TagsAdd(y, m, t => Sum(n - 1, i => f(t, i)), t => f(t, n - 1), t => Sum(n, i => f(t, i)));
    }
  }

  // ---------- the sequences themselves ----------

  ghost predicate Distinct<T>(s: seq<T>) {
    forall i, j :: 0 <= i < j < |s| ==> s[i] != s[j]
  }

  ghost function Pow(y: nat, m: nat): nat {
    if m == 0 then 1 else y * Pow(y, m - 1)
  }

  /** All y^m tag sequences of length m, listed explicitly. */
  ghost function AllTags(y: nat, m: nat): seq<Tags> {
    if m == 0 then [[]] else Prefixed(y, AllTags(y, m - 1))
  }

  /** Each of the first y tags in front of each sequence of the list. */
  ghost function Prefixed(y: nat, ts: seq<Tags>): seq<Tags> {
    if y == 0 then [] else Prefixed(y - 1, ts) + With(y - 1, ts)
  }

  ghost function With(j: int, ts: seq<Tags>): (r: seq<Tags>)
    ensures |r| == |ts| && forall i :: 0 <= i < |ts| ==> r[i] == [j] + ts[i]
  {
    if ts == [] then [] else With(j, ts[..|ts| - 1]) + [[j] + ts[|ts| - 1]]
  }

  ghost function SumList(ts: seq<Tags>, f: Tags -> real): real {
    if ts == [] then 0.0 else SumList(ts[..|ts| - 1], f) + f(ts[|ts| - 1])
  }

  lemma WithElement(j: int, ts: seq<Tags>, t: Tags)
    ensures t in With(j, ts) <==> |t| > 0 && t[0] == j && t[1..] in ts
  {
    var w := With(j, ts);
    if t in w {
      var i :| 0 <= i < |w| && w[i] == t;
      assert t[1..] == ts[i];
    }
    if |t| > 0 && t[0] == j && t[1..] in ts {
      var i :| 0 <= i < |ts| && ts[i] == t[1..];
      assert w[i] == t;
    }
  }

  lemma {:induction false} PrefixedElement(y: nat, ts: seq<Tags>, t: Tags)
    ensures t in Prefixed(y, ts) <==> |t| > 0 && 0 <= t[0] < y && t[1..] in ts
  {
    hide With;
    if y > 0 {
      PrefixedElement(y - 1, ts, t);
      WithElement(y - 1, ts, t);
    }
  }

  lemma {:induction false} PrefixedDistinct(y: nat, ts: seq<Tags>)
    requires Distinct(ts)
    ensures Distinct(Prefixed(y, ts))
  {
    if y > 0 {
      PrefixedDistinct(y - 1, ts);
      var p, w := Prefixed(y - 1, ts), With(y - 1, ts);
      forall i, j | 0 <= i < j < |w| ensures w[i] != w[j] { assert w[i][1..] == ts[i] && w[j][1..] == ts[j]; }
      forall t | t in p ensures t !in w { PrefixedElement(y - 1, ts, t); }
      DistinctAppend(p, w);
    }
  }

  lemma DistinctAppend<T>(a: seq<T>, b: seq<T>)
    requires Distinct(a) && Distinct(b)
    requires forall x :: x in a ==> x !in b
    ensures Distinct(a + b)
  {
    forall i, j | 0 <= i < j < |a + b| ensures (a + b)[i] != (a + b)[j] {
      if i < |a| && |a| <= j { assert a[i] in a && b[j - |a|] in b; }
    }
  }

  lemma {:induction false} PrefixedLength(y: nat, ts: seq<Tags>)
    ensures |Prefixed(y, ts)| == y * |ts|
  {
    if y > 0 {
      PrefixedLength(y - 1, ts);
      var n, p, w := |ts|, |Prefixed(y - 1, ts)|, |With(y - 1, ts)|;
      assert |Prefixed(y, ts)| == p + w;
      MulStep(y, n);
    }
  }

  lemma MulStep(y: nat, n: nat)
    requires y > 0
    ensures (y - 1) * n + n == y * n
  {}

  lemma InRangeCons(y: nat, t: Tags)
    requires |t| > 0
    ensures InRange(y, t) <==> 0 <= t[0] < y && InRange(y, t[1..])
  {
    if 0 <= t[0] < y && InRange(y, t[1..]) {
      forall i | 0 < i < |t| ensures 0 <= t[i] < y { assert t[i] == t[1..][i - 1]; }
    }
  }

  lemma {:induction false} AllTagsElement(y: nat, m: nat, t: Tags)
    ensures t in AllTags(y, m) <==> |t| == m && InRange(y, t)
  {
    if m > 0 {
      PrefixedElement(y, AllTags(y, m - 1), t);
      if |t| > 0 {
        AllTagsElement(y, m - 1, t[1..]);
        InRangeCons(y, t);
      }
    }
  }

  lemma {:induction false} AllTagsListed(y: nat, m: nat)
    ensures |AllTags(y, m)| == Pow(y, m) && Distinct(AllTags(y, m))
  {
    if m > 0 {
      AllTagsListed(y, m - 1);
      PrefixedDistinct(y, AllTags(y, m - 1));
      PrefixedLength(y, AllTags(y, m - 1));
    }
  }

  /** AllTags lists every tag sequence of the length exactly once, so there are y^m of them. */
  lemma AllTagsSpec(y: nat, m: nat)
    ensures |AllTags(y, m)| == Pow(y, m) && Distinct(AllTags(y, m))
    ensures forall t :: t in AllTags(y, m) <==> |t| == m && InRange(y, t)
  {
    AllTagsListed(y, m);
    forall t ensures t in AllTags(y, m) <==> |t| == m && InRange(y, t) { AllTagsElement(y, m, t); }
  }

  lemma {:induction false} SumListAppend(a: seq<Tags>, b: seq<Tags>, f: Tags -> real)
    ensures SumList(a + b, f) == SumList(a, f) + SumList(b, f)
  {
    if b == [] {
      assert a + b == a;
    } else {
      assert (a + b)[..|a + b| - 1] == a + b[..|b| - 1];
      SumListAppend(a, b[..|b| - 1], f);
    }
  }

  lemma {:induction false} SumListWith(j: int, ts: seq<Tags>, f: Tags -> real)
    ensures SumList(With(j, ts), f) == SumList(ts, After([j], f))
  {
    if ts != [] {
      SumListWith(j, ts[..|ts| - 1], f);
      assert With(j, ts)[..|ts| - 1] == With(j, ts[..|ts| - 1]);
    }
  }

  lemma SumListNone(f: Tags -> real)
    ensures SumList([], f) == 0.0
  {}

  ghost function SumsAfter(ts: seq<Tags>, f: Tags -> real): int -> real {
    j => SumList(ts, After([j], f))
  }

  lemma {:induction false} SumListPrefixed(y: nat, ts: seq<Tags>, f: Tags -> real)
    ensures SumList(Prefixed(y, ts), f) == Sum(y, SumsAfter(ts, f))
  {
    hide Sum, After, SumList, With;
    if y == 0 {
      SumNext(0, SumsAfter(ts, f));
      SumListNone(f);
    } else {
      SumListPrefixed(y - 1, ts, f);
      SumListAppend(Prefixed(y - 1, ts), With(y - 1, ts), f);
      SumListWith(y - 1, ts, f);
      SumNext(y - 1, SumsAfter(ts, f));
    }
  }

  /** SumTags really is the sum over the explicit list of all tag sequences. */
  lemma {:induction false} SumTagsIsSumOverList(y: nat, m: nat, f: Tags -> real)
    ensures SumTags(y, m, f) == SumList(AllTags(y, m), f)
  {
    if m == 0 {
      var one: seq<Tags> := [[]];
      assert one[..0] == [];
    } else {
      var F, G := j => SumTags(y, m - 1, After([j], f)), SumsAfter(AllTags(y, m - 1), f);
      forall j | 0 <= j < y ensures F(j) == G(j) { SumTagsIsSumOverList(y, m - 1, After([j], f)); }
      SumCong(y, F, G);
      SumListPrefixed(y, AllTags(y, m - 1), f);
    }
  }

  // ---------- the order of a list does not matter ----------

  ghost function Dropped<T>(s: seq<T>, k: nat): seq<T>
    requires k < |s|
  {
    s[..k] + s[k + 1..]
  }

  lemma SumListDropped(s: seq<Tags>, f: Tags -> real, k: nat)
    requires k < |s|
    ensures SumList(s, f) == SumList(Dropped(s, k), f) + f(s[k])
  {
    hide SumList;
    var a, x, c := s[..k], [s[k]], s[k + 1..];
    assert s == a + x + c;
    SumListAppend(a + x, c, f);
    SumListAppend(a, x, f);
    SumListAppend(a, c, f);
    SumListOne(s[k], f);
  }

  lemma SumListOne(t: Tags, f: Tags -> real)
    ensures SumList([t], f) == f(t)
  {
    assert [t][..0] == [];
  }

  lemma DroppedElements<T>(s: seq<T>, k: nat)
    requires k < |s| && Distinct(s)
    ensures Distinct(Dropped(s, k)) && forall x :: x in Dropped(s, k) <==> x in s && x != s[k]
  {
    forall x | x in s && x != s[k] ensures x in Dropped(s, k) {
      var i :| 0 <= i < |s| && s[i] == x;
      assert Dropped(s, k)[if i < k then i else i - 1] == x;
    }
  }

  /** Two lists of the same different elements have the same sum. */
  lemma {:induction false} SumListSame(a: seq<Tags>, b: seq<Tags>, f: Tags -> real)
    requires Distinct(a) && Distinct(b) && forall x :: x in a <==> x in b
    ensures SumList(a, f) == SumList(b, f)
    decreases |a|
  {
    hide SumList;
    assert b != [] ==> b[0] in a;
    if a != [] {
      assert a[|a| - 1] in b;
      var k :| 0 <= k < |b| && b[k] == a[|a| - 1];
      DroppedElements(a, |a| - 1);
      DroppedElements(b, k);
      SumListSame(Dropped(a, |a| - 1), Dropped(b, k), f);
      SumListDropped(a, f, |a| - 1);
      SumListDropped(b, f, k);
    }
  }
}
