/** What insert keeps while it fills one node and, recursively, the nodes below it. */
module ArrayBuild {
  import opened Bytes
  import opened ArrayState

  /** Prefix x lies at or below one of the first n runs of node w. */
  ghost predicate UnderRun(sibs: seq<Sibling>, w: Str, n: nat, x: Str) {
    exists j :: 0 <= j < n && j < |sibs| && 0 < sibs[j].code <= 256 && Extend(w, sibs[j].code) <= x
  }

  /** From s0 on, node w has been placed at b and the subtrees of its first n runs are complete. */
  ghost predicate Built(s0: State, s1: State, keys: seq<Str>, value: int -> int, w: Str, b: nat, sibs: seq<Sibling>,
                        n: nat, size: nat) {
    && Consistent(s1) && Extends(s0, s1) && Placed(s1, keys, value, w, b, sibs, n)
    && Fresh(s0, w)
    && (forall x :: x in s1.begins && x !in s0.begins && x != w ==>
      UnderRun(sibs, w, n, x) && Complete(s1, keys, value, x))
    && (forall x :: x in s1.begins ==> s1.begins[x] < size)
    && size <= |s1.units|
  }

  /** No node at or below prefix w has been placed. */
  ghost predicate Fresh(st: State, w: Str) {
    forall x :: x in st.begins ==> !(w <= x)
  }

  /** From s0 on, exactly the subtree of prefix w has been added, all of it complete. */
  ghost predicate Added(s0: State, s1: State, keys: seq<Str>, value: int -> int, w: Str, b: nat, size: nat) {
    && Consistent(s1) && Extends(s0, s1)
    && w in s1.begins && s1.begins[w] == b
    && (forall x :: x in s1.begins && x !in s0.begins ==> w <= x && Complete(s1, keys, value, x))
    && (forall x :: x in s1.begins ==> s1.begins[x] < size)
    && size <= |s1.units|
  }

  lemma BuiltStart(s0: State, s1: State, s2: State, keys: seq<Str>, value: int -> int, w: Str, b: nat,
                   sibs: seq<Sibling>, size0: nat, size: nat)
    requires Consistent(s0) && GrownFrom(s0, s1) && PlacedAt(s1, s2, w, b, sibs) && Fresh(s0, w)
    requires b >= 1 && b < |s1.used| && !s1.used[b]
    requires RoomAt(s1, b, sibs)
    requires forall x :: x in s0.begins ==> s0.begins[x] < size0
    requires size0 <= size <= |s2.units| && b < size
    ensures Built(s0, s2, keys, value, w, b, sibs, 0, size)
  {
    hide Consistent, Extends, Placed, Complete, IsCode;
    GrownExtends(s0, s1);
    PlaceExtends(s1, s2, keys, value, w, b, sibs);
    ExtendsTrans(s0, s1, s2);
  }

  lemma UnderRunGrows(sibs: seq<Sibling>, w: Str, n: nat, x: Str)
    requires UnderRun(sibs, w, n, x)
    ensures UnderRun(sibs, w, n + 1, x)
  {}

  lemma RunBelow(sibs: seq<Sibling>, w: Str, n: nat, x: Str)
    requires n < |sibs| && 0 < sibs[n].code <= 256 && Extend(w, sibs[n].code) <= x
    ensures UnderRun(sibs, w, n + 1, x)
  {}

  /** Below different runs lie different prefixes. */
  lemma RunsApart(sibs: seq<Sibling>, w: Str, n: nat, x: Str)
    requires n < |sibs| && 0 < sibs[n].code <= 256
    requires forall i, j :: 0 <= i < j < |sibs| ==> sibs[i].code < sibs[j].code
    ensures UnderRun(sibs, w, n, x) ==> !(Extend(w, sibs[n].code) <= x)
    ensures Extend(w, sibs[n].code) <= x ==> w <= x && x != w
  {
    var e := Extend(w, sibs[n].code);
    if UnderRun(sibs, w, n, x) {
      var j :| 0 <= j < n && j < |sibs| && 0 < sibs[j].code <= 256 && Extend(w, sibs[j].code) <= x;
      assert x[|w|] == Extend(w, sibs[j].code)[|w|] && sibs[j].code < sibs[n].code;
      assert e[|w|] != x[|w|];
    }
    if e <= x {
      assert w == e[..|w|] && x[..|e|] == e;
      assert x[..|w|] == w;
    }
  }

  /** Nothing at or below the next run has been placed yet. */
  lemma NextRunFresh(s0: State, s1: State, keys: seq<Str>, value: int -> int, w: Str, b: nat, sibs: seq<Sibling>,
                     n: nat, size: nat)
    requires Built(s0, s1, keys, value, w, b, sibs, n, size) && n < |sibs| && 0 < sibs[n].code <= 256
    requires forall i, j :: 0 <= i < j < |sibs| ==> sibs[i].code < sibs[j].code
    ensures Fresh(s1, Extend(w, sibs[n].code))
  {
    hide Consistent, Extends, Placed, Complete, Extend, UnderRun;
    forall x | x in s1.begins ensures !(Extend(w, sibs[n].code) <= x) { RunsApart(sibs, w, n, x); }
  }

  /** As Built, with the subtree of run n added but its base not yet written. */
  ghost predicate BuiltUpTo(s0: State, s1: State, keys: seq<Str>, value: int -> int, w: Str, b: nat, sibs: seq<Sibling>,
                            n: nat, size: nat) {
    && Consistent(s1) && Extends(s0, s1) && Placed(s1, keys, value, w, b, sibs, n)
    && Fresh(s0, w)
    && (forall x :: x in s1.begins && x !in s0.begins && x != w ==>
      UnderRun(sibs, w, n + 1, x) && Complete(s1, keys, value, x))
    && (forall x :: x in s1.begins ==> s1.begins[x] < size)
    && size <= |s1.units|
  }

  /** The slot of a sibling: in range, owned by the node, and free when the node was begun. */
  lemma SlotFacts(s0: State, s1: State, keys: seq<Str>, value: int -> int, w: Str, b: nat, sibs: seq<Sibling>, n: nat,
                  i: nat)
    requires Consistent(s0) && Consistent(s1) && Extends(s0, s1) && Placed(s1, keys, value, w, b, sibs, n)
    requires Fresh(s0, w)
    requires i < |sibs|
    ensures sibs[i].code <= 256 && w in s1.begins && b == s1.begins[w] && b >= 1
    ensures Owned(s1.units, b + sibs[i].code, b) && b + sibs[i].code < |s1.units|
    ensures Free(s0.units, b + sibs[i].code)
  {
    hide Filled;
    var p := b + sibs[i].code;
    CodeAt(sibs, i);
    assert Owned(s1.units, p, b);
    assert w !in s0.begins by { assert w <= w; }
    assert !Used(s0.used, b);
  }

  lemma BuiltIsUpTo(s0: State, s1: State, keys: seq<Str>, value: int -> int, w: Str, b: nat, sibs: seq<Sibling>, n: nat,
                    size: nat)
    requires Built(s0, s1, keys, value, w, b, sibs, n, size)
    ensures BuiltUpTo(s0, s1, keys, value, w, b, sibs, n, size)
  {
    hide Consistent, Extends, Placed, Complete, UnderRun;
    forall x | x in s1.begins && x !in s0.begins && x != w ensures UnderRun(sibs, w, n + 1, x) {
      UnderRunGrows(sibs, w, n, x);
    }
  }

  /** Writing the right base of the next sibling. */
  lemma BuiltBase(s0: State, s1: State, keys: seq<Str>, value: int -> int, w: Str, b: nat, sibs: seq<Sibling>, n: nat,
                  size: nat, base: int)
    requires Consistent(s0) && BuiltUpTo(s0, s1, keys, value, w, b, sibs, n, size) && n < |sibs| && sibs[n].code <= 256
    requires forall i, j :: 0 <= i < j < |sibs| ==> sibs[i].code < sibs[j].code
    requires b + sibs[n].code < |s1.units|
    requires Filled(WithBase(s1, b + sibs[n].code, base), keys, value, w, sibs[n].code, b + sibs[n].code)
    ensures Built(s0, WithBase(s1, b + sibs[n].code, base), keys, value, w, b, sibs, n + 1, size)
  {
    hide Extends, Placed, Complete, UnderRun, Filled, Owned;
    var p := b + sibs[n].code;
    var s2 := WithBase(s1, p, base);
    SlotFacts(s0, s1, keys, value, w, b, sibs, n, n);
    BaseExtends(s0, s1, p, base);
    BaseFills(s1, keys, value, w, b, sibs, n, base);
    forall x | x in s2.begins && x !in s0.begins && x != w ensures Complete(s2, keys, value, x) {
      BaseKeepsComplete(s1, p, base, b, keys, value, x);
    }
  }

  /** The subtree of the next run has been added: everything from before is still in place. */
  lemma BuiltChild(s0: State, s1: State, s2: State, keys: seq<Str>, value: int -> int, w: Str, b: nat,
                   sibs: seq<Sibling>, n: nat, size1: nat, size2: nat, h: nat)
    requires Consistent(s0) && Built(s0, s1, keys, value, w, b, sibs, n, size1) && n < |sibs| && 0 < sibs[n].code <= 256
    requires Added(s1, s2, keys, value, Extend(w, sibs[n].code), h, size2)
    requires forall i, j :: 0 <= i < j < |sibs| ==> sibs[i].code < sibs[j].code
    ensures BuiltUpTo(s0, s2, keys, value, w, b, sibs, n, size2)
  {
    hide Consistent, Extends, Placed, Complete, UnderRun, Extend;
    ExtendsTrans(s0, s1, s2);
    PlacedStable(s1, s2, keys, value, w, b, sibs, n);
    forall x | x in s2.begins && x !in s0.begins && x != w
      ensures UnderRun(sibs, w, n + 1, x) && Complete(s2, keys, value, x)
    {
      if x in s1.begins {
        UnderRunGrows(sibs, w, n, x);
        CompleteStable(s1, s2, keys, value, x);
      } else {
        RunBelow(sibs, w, n, x);
      }
    }
  }

  /** When all runs are done, the whole subtree of w has been added. */
  lemma BuiltDone(s0: State, s1: State, keys: seq<Str>, value: int -> int, w: Str, b: nat, sibs: seq<Sibling>,
                  size: nat, lo: nat, hi: nat)
    requires Built(s0, s1, keys, value, w, b, sibs, |sibs|, size)
    requires Grouped(keys, sibs, lo, hi, |w|) && Range(keys, w, lo, hi)
    ensures Added(s0, s1, keys, value, w, b, size)
  {
    PlacedDone(s1, keys, value, w, b, sibs, lo, hi);
    hide Consistent, Extends, Complete, Grouped, Range, Extend;
    forall x | x in s1.begins && x !in s0.begins ensures w <= x && Complete(s1, keys, value, x) {
      if x != w {
        var j :| 0 <= j < |sibs| && 0 < sibs[j].code <= 256 && Extend(w, sibs[j].code) <= x;
        ExtendPrefix(w, sibs[j].code, x);
      }
    }
  }

  lemma ExtendPrefix(w: Str, c: nat, x: Str)
    requires 0 < c <= 256 && Extend(w, c) <= x
    ensures w <= x
  {
    var e := Extend(w, c);
    assert w == e[..|w|] && e == x[..|e|];
    assert x[..|w|] == w;
  }
}
