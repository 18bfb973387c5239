/** What a finished double array holds, and what walking it finds. */
module ArraySearch {
  import opened Bytes
  import opened ArrayState
  import opened ArrayBuild

  /** The keys and their values, packed: every node is complete, lies inside the array, and the root is at 1. */
  ghost predicate Packed(units: seq<Unit>, begins: map<Str, nat>, keys: seq<Str>, value: int -> int) {
    && |units| > 0 && units[0].base == 1 && |keys| > 0
    && [] in begins && begins[[]] == 1
    && (forall x :: x in begins ==> InRange(units, begins[x]) && Complete(State(units, [], begins), keys, value, x))
    && (forall x, i :: First(keys, x, i) ==> value(i) >= 0)
  }

  /** All slots of a node at b exist. */
  ghost predicate InRange(units: seq<Unit>, b: nat) {
    b >= 1 && b + 256 < |units|
  }

  ghost predicate HasPrefix(keys: seq<Str>, w: Str) {
    exists i :: 0 <= i < |keys| && w <= keys[i]
  }

  lemma {:induction false} FirstExists(keys: seq<Str>, w: Str, n: nat)
    requires n <= |keys| && w in keys[..n]
    ensures exists i :: First(keys, w, i)
  {
    if w in keys[..n - 1] {
      FirstExists(keys, w, n - 1);
    } else {
      assert First(keys, w, n - 1);
    }
  }

  /** The value stored for a string: that of its first occurrence, or -1 if it is no key. */
  ghost function Lookup(keys: seq<Str>, value: int -> int, w: Str): (r: int)
    ensures w in keys ==> exists i :: First(keys, w, i) && r == value(i)
    ensures w !in keys ==> r == -1
  {
    if w in keys then
      assert w in keys[..|keys|];
      FirstExists(keys, w, |keys|);
      var i :| First(keys, w, i);
      value(i)
    else -1
  }

  lemma LookupSome(keys: seq<Str>, value: int -> int, w: Str) returns (i: int)
    requires w in keys
    ensures First(keys, w, i) && Lookup(keys, value, w) == value(i)
  {
    var v := Lookup(keys, value, w);
    i :| First(keys, w, i) && v == value(i);
  }

  lemma LookupFirst(keys: seq<Str>, value: int -> int, w: Str, i: int)
    requires First(keys, w, i)
    ensures w in keys && Lookup(keys, value, w) == value(i)
  {
    var j := LookupSome(keys, value, w);
    assert keys[i] == keys[j];
  }

  /** What traverse reports about w: no key has that prefix, some has but none equals it, or the value. */
  ghost function Report(keys: seq<Str>, value: int -> int, w: Str): int {
    if !HasPrefix(keys, w) then -2 else Lookup(keys, value, w)
  }

  /** The position traverse uses for prefix w: the slot that leads to its node. */
  ghost predicate NodeAt(units: seq<Unit>, begins: map<Str, nat>, keys: seq<Str>, w: Str, pos: nat) {
    && w in begins && HasPrefix(keys, w) && pos < |units| && units[pos].base == begins[w]
    && if w == [] then pos == 0
       else w[..|w| - 1] in begins && pos == begins[w[..|w| - 1]] + w[|w| - 1] as nat + 1
  }

  /** Following one byte from a node. */
  lemma Follow(units: seq<Unit>, begins: map<Str, nat>, keys: seq<Str>, value: int -> int, w: Str, ch: byte)
    requires Packed(units, begins, keys, value) && w in begins
    ensures begins[w] + ch as nat + 1 < |units|
    ensures units[begins[w] + ch as nat + 1].check == begins[w] <==> HasPrefix(keys, w + [ch])
    ensures HasPrefix(keys, w + [ch]) ==>
      NodeAt(units, begins, keys, w + [ch], begins[w] + ch as nat + 1)
  {
    var b, c := begins[w], ch as nat + 1;
    var st := State(units, [], begins);
    assert InRange(units, b) && Complete(st, keys, value, w);
    assert Owned(units, b + c, b) <==> HasCode(keys, w, c);
    ByteIsCode(keys, w, ch);
    assert Extend(w, c) == w + [ch];
    assert (w + [ch])[..|w|] == w;
    if HasCode(keys, w, c) { assert Filled(st, keys, value, w, c, b + c); }
  }

  lemma ByteIsCode(keys: seq<Str>, w: Str, ch: byte)
    ensures HasPrefix(keys, w + [ch]) <==> HasCode(keys, w, ch as nat + 1)
  {
    if HasPrefix(keys, w + [ch]) {
      var i :| 0 <= i < |keys| && w + [ch] <= keys[i];
      assert keys[i][|w|] == (w + [ch])[|w|] && w == (w + [ch])[..|w|] == keys[i][..|w|];
      assert Continues(keys[i], w, ch as nat + 1);
    }
    if HasCode(keys, w, ch as nat + 1) {
      var i :| 0 <= i < |keys| && Continues(keys[i], w, ch as nat + 1);
      assert w + [ch] <= keys[i];
    }
  }

  /** Is there a value at the end of the walk? */
  lemma AtEnd(units: seq<Unit>, begins: map<Str, nat>, keys: seq<Str>, value: int -> int, w: Str)
    requires Packed(units, begins, keys, value) && w in begins
    ensures begins[w] < |units|
    ensures units[begins[w]].check == begins[w] && units[begins[w]].base < 0 <==> w in keys
    ensures w in keys ==> -units[begins[w]].base - 1 == Lookup(keys, value, w) >= 0
  {
    var b := begins[w];
    var st := State(units, [], begins);
    assert InRange(units, b) && Complete(st, keys, value, w);
    assert Owned(units, b + 0, b) <==> HasCode(keys, w, 0);
    if HasCode(keys, w, 0) {
      var k :| 0 <= k < |keys| && Continues(keys[k], w, 0);
      assert keys[k] == w;
      assert Filled(st, keys, value, w, 0, b + 0);
      var i :| First(keys, w, i) && units[b].base == -value(i) - 1;
      LookupFirst(keys, value, w, i);
    }
    if w in keys {
      var k :| 0 <= k < |keys| && keys[k] == w;
      assert Continues(keys[k], w, 0);
    }
  }

  lemma RootAt(units: seq<Unit>, begins: map<Str, nat>, keys: seq<Str>, value: int -> int)
    requires Packed(units, begins, keys, value)
    ensures NodeAt(units, begins, keys, [], 0)
  {
    assert [] <= keys[0];
  }

  lemma PrefixOfPrefix(keys: seq<Str>, w: Str, x: Str)
    requires w <= x && HasPrefix(keys, x)
    ensures HasPrefix(keys, w)
  {
    var i :| 0 <= i < |keys| && x <= keys[i];
    assert w == x[..|w|] == keys[i][..|w|];
  }

  lemma KeyHasPrefix(keys: seq<Str>, w: Str)
    requires w in keys
    ensures HasPrefix(keys, w)
  {
    var i :| 0 <= i < |keys| && keys[i] == w;
  }

  /** If no key goes on with the next byte, none goes on with what follows either. */
  lemma DeadEnd(keys: seq<Str>, w: Str, q: Str, i: nat, n: nat)
    requires i < n <= |q| && !HasPrefix(keys, w + q[..i] + [q[i]])
    ensures !HasPrefix(keys, w + q[..n]) && w + q[..n] !in keys
  {
    assert w + q[..i] + [q[i]] == (w + q[..n])[..|w| + i + 1];
    if HasPrefix(keys, w + q[..n]) { PrefixOfPrefix(keys, w + q[..i] + [q[i]], w + q[..n]); }
    if w + q[..n] in keys { KeyHasPrefix(keys, w + q[..n]); }
  }

  /** Walking over q from the node of prefix w reports r, after n bytes, at pos: as far as some key goes. */
  ghost predicate Walked(units: seq<Unit>, begins: map<Str, nat>, keys: seq<Str>, value: int -> int, w: Str, q: Str,
                         r: int, pos: nat, n: nat) {
    && r == Report(keys, value, w + q) && n <= |q| && (r != -2 <==> n == |q|)
    && NodeAt(units, begins, keys, w + q[..n], pos)
    && (n < |q| ==> !HasPrefix(keys, w + q[..n + 1]))
  }

  /** A walk can be interrupted: going on over k2 from where k1 ended gives the same report, position and length as one
      walk over both. */
  lemma Resumable(units: seq<Unit>, begins: map<Str, nat>, keys: seq<Str>, value: int -> int, w: Str, k1: Str, k2: Str,
                  r2: int, pos2: nat, n2: nat, r: int, pos: nat, n: nat)
    requires Walked(units, begins, keys, value, w + k1, k2, r2, pos2, n2)
    requires Walked(units, begins, keys, value, w, k1 + k2, r, pos, n)
    ensures r == r2 && pos == pos2 && n == |k1| + n2
  {
    hide HasPrefix, Report;
    var m := |k1| + n2;
    assert w + (k1 + k2) == w + k1 + k2;
    assert w + (k1 + k2)[..m] == w + k1 + k2[..n2];
    if n2 < |k2| { assert w + (k1 + k2)[..m + 1] == w + k1 + k2[..n2 + 1]; }
    SameStop(keys, w, k1 + k2, n, m);
  }

  /** If the walk over k1 already failed, so does the walk over both, at the same place. */
  lemma FailsForGood(units: seq<Unit>, begins: map<Str, nat>, keys: seq<Str>, value: int -> int, w: Str, k1: Str,
                     k2: Str, pos1: nat, n1: nat, r: int, pos: nat, n: nat)
    requires Walked(units, begins, keys, value, w, k1, -2, pos1, n1)
    requires Walked(units, begins, keys, value, w, k1 + k2, r, pos, n)
    ensures r == -2 && pos == pos1 && n == n1
  {
    hide HasPrefix, Report;
    assert (k1 + k2)[..n1 + 1] == k1[..n1 + 1] && (k1 + k2)[..n1] == k1[..n1];
    SameStop(keys, w, k1 + k2, n, n1);
  }

  /** There is one length at which the keys stop going along. */
  lemma SameStop(keys: seq<Str>, w: Str, q: Str, a: nat, b: nat)
    requires a <= |q| && HasPrefix(keys, w + q[..a]) && (a < |q| ==> !HasPrefix(keys, w + q[..a + 1]))
    requires b <= |q| && HasPrefix(keys, w + q[..b]) && (b < |q| ==> !HasPrefix(keys, w + q[..b + 1]))
    ensures a == b
  {
    if a < b { ShorterPrefix(keys, w, q, a + 1, b); }
    if b < a { ShorterPrefix(keys, w, q, b + 1, a); }
  }

  lemma ShorterPrefix(keys: seq<Str>, w: Str, q: Str, a: nat, b: nat)
    requires a <= b <= |q| && HasPrefix(keys, w + q[..b])
    ensures HasPrefix(keys, w + q[..a])
  {
    assert w + q[..a] == (w + q[..b])[..|w| + a];
    PrefixOfPrefix(keys, w + q[..a], w + q[..b]);
  }

  /** What the three kinds of report mean. */
  lemma ReportMeans(units: seq<Unit>, begins: map<Str, nat>, keys: seq<Str>, value: int -> int, w: Str)
    requires Packed(units, begins, keys, value)
    ensures Report(keys, value, w) == -2 <==> !HasPrefix(keys, w)
    ensures Report(keys, value, w) == -1 <==> HasPrefix(keys, w) && w !in keys
    ensures Report(keys, value, w) >= 0 <==> w in keys
  {
    if w in keys {
      KeyHasPrefix(keys, w);
      var i := LookupSome(keys, value, w);
    }
  }

  // ---------- common prefixes ----------

  datatype Hit = Hit(value: int, length: nat)

  /** The keys among the first n of w, w + q[..1], w + q[..2], ..., with their values and the length of q used. */
  ghost function Hits(keys: seq<Str>, value: int -> int, w: Str, q: Str, n: nat): seq<Hit>
    requires n <= |q| + 1
  {
    if n == 0 then []
    else
      var before := Hits(keys, value, w, q, n - 1);
      if w + q[..n - 1] in keys then before + [Hit(Lookup(keys, value, w + q[..n - 1]), n - 1)] else before
  }

  /** Every prefix that is a key is reported once, in increasing order of length, and nothing else is. */
  lemma {:induction false} HitsExact(keys: seq<Str>, value: int -> int, w: Str, q: Str, n: nat)
    requires n <= |q| + 1
    ensures forall h :: h in Hits(keys, value, w, q, n) <==>
      h.length < n && w + q[..h.length] in keys && h.value == Lookup(keys, value, w + q[..h.length])
    ensures forall i, j :: 0 <= i < j < |Hits(keys, value, w, q, n)| ==>
      Hits(keys, value, w, q, n)[i].length < Hits(keys, value, w, q, n)[j].length
  {
    if n > 0 {
      HitsExact(keys, value, w, q, n - 1);
      var before := Hits(keys, value, w, q, n - 1);
      forall i | 0 <= i < |before| ensures before[i].length < n - 1 { assert before[i] in before; }
    }
  }

  lemma {:induction false} NoMoreHits(keys: seq<Str>, value: int -> int, w: Str, q: Str, i: nat, n: nat)
    requires i < |q| && i + 1 <= n <= |q| + 1 && !HasPrefix(keys, w + q[..i] + [q[i]])
    ensures Hits(keys, value, w, q, n) == Hits(keys, value, w, q, i + 1)
  {
    if n > i + 1 {
      NoMoreHits(keys, value, w, q, i, n - 1);
      DeadEnd(keys, w, q, i, n - 1);
    }
  }

  // ---------- from insert to searches ----------

  /** Once insert has added the root's subtree to an empty array, the keys are packed; so they are in any part of the
      array that reaches 257 slots past its last use. */
  lemma Finish(s0: State, s1: State, keys: seq<Str>, value: int -> int, ok: int -> bool, size: nat, units: seq<Unit>)
    requires Added(s0, s1, keys, value, [], 1, size) && s0.begins == map[] && |keys| > 0
    requires Buildable(keys, ok, 0, |keys|) && forall i :: 0 <= i < |keys| && ok(i) ==> value(i) >= 0
    requires |units| >= size + 257
    requires forall p :: 0 <= p < |units| && p < |s1.units| ==> units[p] == s1.units[p]
    requires forall p :: |s1.units| <= p < |units| ==> units[p] == Unit(0, 0)
    ensures Packed(units, s1.begins, keys, value)
  {
    hide Complete, Leq;
    forall x | x in s1.begins
      ensures InRange(units, s1.begins[x]) && Complete(State(units, [], s1.begins), keys, value, x) {
      Truncate(s1, keys, value, size, units, x);
    }
    forall x, i | First(keys, x, i) ensures value(i) >= 0 { assert IsNew(keys, i); }
    assert units[0] == Unit(1, 0);
  }

  /** Slot p is that of code c of the placed prefix w, and some key goes on that way. */
  ghost predicate OwnsSlot(units: seq<Unit>, begins: map<Str, nat>, keys: seq<Str>, w: Str, c: nat, p: nat) {
    && w in begins && c <= 256 && p == begins[w] + c && Owned(units, p, begins[w]) && HasCode(keys, w, c)
  }

  ghost predicate SomeOwner(units: seq<Unit>, begins: map<Str, nat>, keys: seq<Str>, p: nat) {
    exists w, c :: OwnsSlot(units, begins, keys, w, c, p)
  }

  /** Every occupied slot belongs to exactly one prefix and code, which some key has. */
  ghost predicate SlotsOwned(units: seq<Unit>, begins: map<Str, nat>, keys: seq<Str>) {
    && (forall p :: 0 <= p < |units| && units[p].check != 0 ==> SomeOwner(units, begins, keys, p))
    && (forall p: nat, w, c, w', c' ::
          OwnsSlot(units, begins, keys, w, c, p) && OwnsSlot(units, begins, keys, w', c', p) ==> w == w' && c == c')
  }

  /** In the finished array no slot is occupied that no key needs. */
  lemma FinishOwned(s0: State, s1: State, keys: seq<Str>, value: int -> int, size: nat, units: seq<Unit>)
    requires Added(s0, s1, keys, value, [], 1, size) && s0.begins == map[] && |units| >= size + 257
    requires forall p :: 0 <= p < |units| && p < |s1.units| ==> units[p] == s1.units[p]
    requires forall p :: |s1.units| <= p < |units| ==> units[p] == Unit(0, 0)
    ensures SlotsOwned(units, s1.begins, keys)
  {
    hide HasCode, Filled, Extends;
    forall p | 0 <= p < |units| && units[p].check != 0 ensures SomeOwner(units, s1.begins, keys, p) {
      var b := units[p].check;
      assert s1.units[p] == units[p] && Used(s1.used, b) && BeginsAt(s1.begins, b);
      var w :| w in s1.begins && s1.begins[w] == b;
      assert Complete(s1, keys, value, w) && Owned(s1.units, b + (p - b), b);
      assert OwnsSlot(units, s1.begins, keys, w, p - b, p);
    }
  }

  lemma Truncate(st: State, keys: seq<Str>, value: int -> int, size: nat, units: seq<Unit>, x: Str)
    requires Complete(st, keys, value, x) && st.begins[x] >= 1 && st.begins[x] < size && |units| >= size + 257
    requires forall p :: 0 <= p < |units| && p < |st.units| ==> units[p] == st.units[p]
    requires forall p :: |st.units| <= p < |units| ==> units[p] == Unit(0, 0)
    ensures InRange(units, st.begins[x]) && Complete(State(units, [], st.begins), keys, value, x)
  {
    hide HasCode, IsLeafBase, Extend;
    var st', b := State(units, [], st.begins), st.begins[x];
    forall c | 0 <= c <= 256
      ensures Owned(units, b + c, b) <==> HasCode(keys, x, c)
      ensures HasCode(keys, x, c) ==> Filled(st', keys, value, x, c, b + c)
    {
      assert Owned(units, b + c, b) <==> Owned(st.units, b + c, b);
      if HasCode(keys, x, c) { assert Filled(st, keys, value, x, c, b + c); }
    }
  }
}
