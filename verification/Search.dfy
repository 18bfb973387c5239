/** Best-first enumeration of tag sequences, as a pure search over suffixes. */
module Search {
  import opened Sums
  import opened Lattice

  ghost predicate IsSuffix(s: Tags, t: Tags) {
    |s| <= |t| && t[|t| - |s|..] == s
  }

  /** Partial sequences: non-empty suffixes of complete ones. */
  ghost predicate Partial(l: Lattice, s: Tags) {
    0 < |s| <= l.n && InRange(l.y, s)
  }

  ghost predicate Covered(f: seq<Tags>, t: Tags) {
    exists a :: 0 <= a < |f| && IsSuffix(f[a], t)
  }

  /** No entry of the frontier is a suffix of another. */
  ghost predicate Apart(f: seq<Tags>) {
    forall a, b :: 0 <= a < |f| && 0 <= b < |f| && a != b ==> !IsSuffix(f[a], f[b])
  }

  /** What holds between two calls of next(): f is the agenda, d what has been produced so far. Every tag sequence is
      either produced or still to come, never both. */
  ghost predicate Inv(l: Lattice, f: seq<Tags>, d: seq<Tags>) {
    && (forall a :: 0 <= a < |f| ==> Partial(l, f[a]))
    && Apart(f)
    && (forall i :: 0 <= i < |d| ==> IsTagging(l, d[i]))
    && Distinct(d)
    && (forall t: Tags {:trigger IsTagging(l, t)} :: IsTagging(l, t) && t !in d ==> Covered(f, t))
    && (forall a, i :: 0 <= a < |f| && 0 <= i < |d| ==> !IsSuffix(f[a], d[i]))
  }

  /** What was produced is in order, and at least as good as what is to come. */
  ghost predicate Ordered(l: Lattice, d: seq<Tags>) {
    && (forall i, t: Tags {:trigger IsTagging(l, t), d[i]} :: 0 <= i < |d| && IsTagging(l, t) && t !in d ==>
          Score(l, d[i]) >= Score(l, t))
    && (forall i, j :: 0 <= i < j < |d| ==> Score(l, d[i]) >= Score(l, d[j]))
  }

  ghost function Without<T>(s: seq<T>, k: int): seq<T>
    requires 0 <= k < |s|
  {
    s[..k] + s[k + 1..]
  }

  /** The children of a suffix: every tag of the token before it, put in front. */
  ghost function Children(k: nat, s: Tags): seq<Tags> {
    if k == 0 then [] else Children(k - 1, s) + [[k - 1] + s]
  }

  lemma {:induction false} ChildrenAt(k: nat, s: Tags)
    ensures |Children(k, s)| == k
    ensures forall i :: 0 <= i < k ==> Children(k, s)[i] == [i] + s
  {
    if k > 0 { ChildrenAt(k - 1, s); }
  }

  /** Initially every tag of the last token is on the agenda. */
  lemma InitInv(l: Lattice)
    requires l.n > 0
    ensures Inv(l, Children(l.y, []), [])
  {
    var f := Children(l.y, []);
    ChildrenAt(l.y, []);
    forall i | 0 <= i < l.y ensures f[i] == [i] { assert [i] + [] == [i]; }
    forall t: Tags | IsTagging(l, t) ensures Covered(f, t) {
      var j := t[l.n - 1];
      assert t[l.n - 1..] == [j];
      assert IsSuffix(f[j], t);
    }
  }

  lemma SuffixCons(k: int, s: Tags, t: Tags)
    ensures IsSuffix([k] + s, t) ==> IsSuffix(s, t)
  {
    if IsSuffix([k] + s, t) {
      assert t[|t| - |s|..] == t[|t| - |s| - 1..][1..];
    }
  }

  lemma SuffixOfCons(k: int, s: Tags, u: Tags)
    ensures IsSuffix(u, [k] + s) ==> u == [k] + s || IsSuffix(u, s)
  {
    if |u| <= |s| {
      assert ([k] + s)[|s| + 1 - |u|..] == s[|s| - |u|..];
    } else {
      assert ([k] + s)[0..] == [k] + s;
    }
  }

  lemma SuffixSame(s: Tags, t: Tags)
    requires |s| == |t|
    ensures IsSuffix(s, t) <==> s == t
  {
    assert t[0..] == t;
  }

  /** A complete sequence that ends in a shorter suffix ends in one of its children. */
  lemma SuffixSplit(l: Lattice, s: Tags, t: Tags)
    requires IsTagging(l, t) && IsSuffix(s, t) && |s| < l.n
    ensures var k := t[l.n - |s| - 1]; 0 <= k < l.y && IsSuffix([k] + s, t)
  {
    var p := l.n - |s| - 1;
    assert t[p..] == [t[p]] + t[p + 1..];
  }

  /** The frontier after the entry at a has been replaced by its children. */
  ghost function Expanded(l: Lattice, f: seq<Tags>, a: int): seq<Tags>
    requires 0 <= a < |f|
  {
    Without(f, a) + Children(l.y, f[a])
  }

  /** Every entry of the new frontier is an old one other than a, or a child of a. */
  lemma ExpandedAt(l: Lattice, f: seq<Tags>, a: int, b: int)
    requires 0 <= a < |f| && 0 <= b < |Expanded(l, f, a)|
    ensures |Expanded(l, f, a)| == |f| - 1 + l.y
    ensures var g := Expanded(l, f, a);
      if b < |f| - 1 then g[b] == f[if b < a then b else b + 1]
      else 0 <= b - (|f| - 1) < l.y && g[b] == [b - (|f| - 1)] + f[a]
  {
    ChildrenAt(l.y, f[a]);
  }

  lemma ExpandApart(l: Lattice, f: seq<Tags>, a: int)
    requires 0 <= a < |f| && Apart(f)
    ensures Apart(Expanded(l, f, a))
  {
    hide Expanded;
    var g := Expanded(l, f, a);
    forall b, c | 0 <= b < |g| && 0 <= c < |g| && b != c ensures !IsSuffix(g[b], g[c]) {
      ExpandedAt(l, f, a, b);
      ExpandedAt(l, f, a, c);
      var kept := |f| - 1;
      if b >= kept && c >= kept {
        SuffixSame(g[b], g[c]);
        assert g[b][0] != g[c][0];
      } else if b >= kept {
        SuffixCons(b - kept, f[a], g[c]);
      } else if c >= kept {
        SuffixOfCons(c - kept, f[a], g[b]);
        SuffixSame([c - kept] + f[a], [c - kept] + f[a]);
        SuffixCons(c - kept, f[a], [c - kept] + f[a]);
      }
    }
  }

  lemma ExpandCovers(l: Lattice, f: seq<Tags>, a: int, t: Tags)
    requires 0 <= a < |f| && |f[a]| < l.n && IsTagging(l, t) && Covered(f, t)
    ensures Covered(Expanded(l, f, a), t)
  {
    hide IsSuffix;
    var b :| 0 <= b < |f| && IsSuffix(f[b], t);
    var g := Expanded(l, f, a);
    ChildrenAt(l.y, f[a]);
    if b == a {
      SuffixSplit(l, f[a], t);
      var k := t[l.n - |f[a]| - 1];
      assert g[|f| - 1 + k] == [k] + f[a];
    } else {
      assert g[if b < a then b else b - 1] == f[b];
    }
  }

  lemma ExpandInv(l: Lattice, f: seq<Tags>, d: seq<Tags>, a: int)
    requires Inv(l, f, d) && 0 <= a < |f| && |f[a]| < l.n
    ensures Inv(l, Expanded(l, f, a), d)
  {
    hide Expanded, Apart, IsSuffix, Covered, Distinct;
    var g := Expanded(l, f, a);
    ExpandApart(l, f, a);
    forall b | 0 <= b < |g| ensures Partial(l, g[b]) { ExpandedAt(l, f, a, b); }
    forall b, i | 0 <= b < |g| && 0 <= i < |d| ensures !IsSuffix(g[b], d[i]) {
      ExpandedAt(l, f, a, b);
      if b >= |f| - 1 { SuffixCons(b - (|f| - 1), f[a], d[i]); }
    }
    forall t: Tags | IsTagging(l, t) && t !in d ensures Covered(g, t) { ExpandCovers(l, f, a, t); }
  }

  lemma EmitCovers(f: seq<Tags>, a: int, t: Tags)
    requires 0 <= a < |f| && Covered(f, t) && |t| == |f[a]| && t != f[a]
    ensures Covered(Without(f, a), t)
  {
    var b :| 0 <= b < |f| && IsSuffix(f[b], t);
    SuffixSame(f[a], t);
    assert Without(f, a)[if b < a then b else b - 1] == f[b];
  }

  /** A complete entry may be produced next. */
  lemma EmitInv(l: Lattice, f: seq<Tags>, d: seq<Tags>, a: int)
    requires Inv(l, f, d) && 0 <= a < |f| && |f[a]| == l.n
    ensures IsTagging(l, f[a]) && f[a] !in d
    ensures Inv(l, Without(f, a), d + [f[a]])
  {
    hide Covered;
    var s, g, e := f[a], Without(f, a), d + [f[a]];
    forall i | 0 <= i < |d| ensures d[i] != s { assert s[0..] == s; assert !IsSuffix(s, d[i]); }
    forall b | 0 <= b < |g| ensures g[b] == f[if b < a then b else b + 1] {}
    forall b | 0 <= b < |g| ensures !IsSuffix(g[b], s) {}
    forall t: Tags | IsTagging(l, t) && t !in e ensures Covered(g, t) {
      assert s in e;
      EmitCovers(f, a, t);
    }
    assert Apart(g);
  }

  /** If it is at least as good as everything to come, the order is kept. */
  lemma EmitOrdered(l: Lattice, d: seq<Tags>, s: Tags)
    requires Ordered(l, d) && IsTagging(l, s) && s !in d
    requires forall t: Tags {:trigger IsTagging(l, t)} :: IsTagging(l, t) && t !in d ==> Score(l, s) >= Score(l, t)
    ensures Ordered(l, d + [s])
  {
    hide Score;
    var e := d + [s];
    forall i, t: Tags {:trigger IsTagging(l, t), e[i]} | 0 <= i < |e| && IsTagging(l, t) && t !in e
      ensures Score(l, e[i]) >= Score(l, t)
    {
      assert forall x :: x in d ==> x in e;
      if i < |d| { assert e[i] == d[i]; }
    }
  }

  /** When the agenda is empty, every tag sequence has been produced exactly once. */
  lemma DoneInv(l: Lattice, d: seq<Tags>)
    requires Inv(l, [], d)
    ensures forall t: Tags :: IsTagging(l, t) <==> t in d
    ensures |d| == Pow(l.y, l.n)
  {
    forall t: Tags | IsTagging(l, t) ensures t in d {
      assert !Covered([], t);
    }
    AllTagsSpec(l.y, l.n);
    forall t ensures t in d <==> t in AllTags(l.y, l.n) {}
    SameLength(d, AllTags(l.y, l.n));
  }

  lemma {:induction false} SetSize<T>(s: seq<T>)
    requires Distinct(s)
    ensures |set x | x in s| == |s|
  {
    if s != [] {
      var u, x := s[..|s| - 1], s[|s| - 1];
      SetSize(u);
      assert (set y | y in s) == (set y | y in u) + {x};
    }
  }

  lemma SameLength<T>(a: seq<T>, b: seq<T>)
    requires Distinct(a) && Distinct(b) && forall x :: x in a <==> x in b
    ensures |a| == |b|
  {
    SetSize(a);
    SetSize(b);
    assert (set x | x in a) == (set x | x in b);
  }

  /** No more than y^n tag sequences are ever produced. */
  lemma CountBound(l: Lattice, f: seq<Tags>, d: seq<Tags>)
    requires Inv(l, f, d)
    ensures |d| <= Pow(l.y, l.n)
  {
    hide Apart, Covered;
    AllTagsSpec(l.y, l.n);
    var all := AllTags(l.y, l.n);
    SetSize(d);
    SetSize(all);
    assert (set x | x in d) <= (set x | x in all);
    SubsetSize((set x | x in d), (set x | x in all));
  }

  lemma {:induction false} SubsetSize<T>(a: set<T>, b: set<T>)
    requires a <= b
    ensures |a| <= |b|
  {
    if a != {} {
      var x :| x in a;
      SubsetSize(a - {x}, b - {x});
    }
  }

  // ---------- termination ----------

  /** Nodes of the search tree below a suffix that lacks d tokens. */
  ghost function Weight(y: nat, d: nat): nat {
    if d == 0 then 1 else 1 + Repeat(y, Weight(y, d - 1))
  }

  ghost function Repeat(k: nat, w: nat): nat {
    if k == 0 then 0 else Repeat(k - 1, w) + w
  }

  ghost function Work(l: Lattice, f: seq<Tags>): nat {
    if f == [] then 0
    else Work(l, f[..|f| - 1]) + Weight(l.y, if |f[|f| - 1]| <= l.n then l.n - |f[|f| - 1]| else 0)
  }

  lemma {:induction false} WorkAppend(l: Lattice, f: seq<Tags>, g: seq<Tags>)
    ensures Work(l, f + g) == Work(l, f) + Work(l, g)
  {
    if g == [] {
      assert f + g == f;
    } else {
      assert (f + g)[..|f + g| - 1] == f + g[..|g| - 1];
      WorkAppend(l, f, g[..|g| - 1]);
    }
  }

  lemma {:induction false} WorkChildren(l: Lattice, k: nat, s: Tags)
    requires |s| < l.n
    ensures Work(l, Children(k, s)) == Repeat(k, Weight(l.y, l.n - |s| - 1))
  {
    if k > 0 {
      WorkChildren(l, k - 1, s);
      WorkAppend(l, Children(k - 1, s), [[k - 1] + s]);
      WorkOne(l, [k - 1] + s);
    }
  }

  lemma WorkOne(l: Lattice, s: Tags)
    requires |s| <= l.n
    ensures Work(l, [s]) == Weight(l.y, l.n - |s|)
  {
    assert [s][..0] == [];
  }

  /** Taking an entry off the frontier, and even putting its children back, shrinks the unexpanded part of the tree. */
  lemma WorkShrinks(l: Lattice, f: seq<Tags>, a: int)
    requires 0 <= a < |f| && |f[a]| <= l.n
    ensures Work(l, Without(f, a)) < Work(l, f)
    ensures |f[a]| < l.n ==> Work(l, Expanded(l, f, a)) < Work(l, f)
  {
    hide Children, Work;
    var s := f[a];
    assert f == f[..a] + ([s] + f[a + 1..]);
    WorkAppend(l, f[..a], [s] + f[a + 1..]);
    WorkAppend(l, [s], f[a + 1..]);
    WorkAppend(l, f[..a], f[a + 1..]);
    WorkOne(l, s);
    if |s| < l.n {
      WorkAppend(l, Without(f, a), Children(l.y, s));
      WorkChildren(l, l.y, s);
    }
  }
}
