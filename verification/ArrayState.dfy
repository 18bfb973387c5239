/** The invariant of the double array while keys are packed into it, over values. */
module ArrayState {
  import opened Bytes

  datatype Unit = Unit(base: int, check: nat)

  /** The arrays, and where the node of each prefix starts. */
  datatype State = State(units: seq<Unit>, used: seq<bool>, begins: map<Str, nat>)

  /** Code of a key at depth d: 0 at its end, its byte plus 1 before. */
  ghost function Code(k: Str, d: nat): nat
    requires d <= |k|
  {
    if |k| == d then 0 else k[d] as nat + 1
  }

  /** The key continues the prefix w with code c. */
  ghost predicate Continues(k: Str, w: Str, c: nat) {
    w <= k && Code(k, |w|) == c
  }

  ghost predicate HasCode(keys: seq<Str>, w: Str, c: nat) {
    exists i :: 0 <= i < |keys| && Continues(keys[i], w, c)
  }

  /** Prefix w extended by the byte of code c. */
  ghost function Extend(w: Str, c: nat): Str
    requires 0 < c <= 256
  {
    w + [(c - 1) as byte]
  }

  ghost predicate Used(used: seq<bool>, b: nat) {
    b < |used| && used[b]
  }

  ghost predicate Free(units: seq<Unit>, p: nat) {
    p != 0 && (p >= |units| || units[p].check == 0)
  }

  ghost predicate Owned(units: seq<Unit>, p: nat, b: nat) {
    p < |units| && units[p].check == b
  }

  /** Some placed prefix begins at b. */
  ghost predicate BeginsAt(begins: map<Str, nat>, b: nat) {
    exists w :: w in begins && begins[w] == b
  }

  /** Begins are positive, in use and pairwise different; whatever is in use is the begin of a prefix, and every
      occupied slot lies within the codes of such a begin. */
  ghost predicate Consistent(st: State) {
    && |st.units| == |st.used| && |st.units| > 0 && st.units[0] == Unit(1, 0)
    && (forall p :: 0 <= p < |st.units| && st.units[p].check != 0 ==>
          Used(st.used, st.units[p].check) && st.units[p].check <= p <= st.units[p].check + 256)
    && (forall b :: Used(st.used, b) ==> BeginsAt(st.begins, b))
    && (forall w :: w in st.begins ==> st.begins[w] >= 1 && Used(st.used, st.begins[w]))
    && (forall w, w' :: w in st.begins && w' in st.begins && st.begins[w] == st.begins[w'] ==> w == w')
  }

  /** From s0 to s1 nothing placed earlier was disturbed, and what is new belongs to new begins. */
  ghost predicate Extends(s0: State, s1: State) {
    && |s0.units| <= |s1.units|
    && (forall p :: 0 <= p < |s0.units| && !Free(s0.units, p) ==> s1.units[p] == s0.units[p])
    && (forall p :: 0 <= p < |s1.units| && Free(s0.units, p) && s1.units[p].check != 0 ==>
      !Used(s0.used, s1.units[p].check))
    && (forall b :: Used(s0.used, b) ==> Used(s1.used, b))
    && (forall w :: w in s0.begins ==> w in s1.begins && s1.begins[w] == s0.begins[w])
    && (forall w :: w in s1.begins && w !in s0.begins ==> !Used(s0.used, s1.begins[w]))
  }

  lemma ExtendsTrans(s0: State, s1: State, s2: State)
    requires Extends(s0, s1) && Extends(s1, s2)
    ensures Extends(s0, s2)
  {
    forall p | 0 <= p < |s2.units| && Free(s0.units, p) && s2.units[p].check != 0
      ensures !Used(s0.used, s2.units[p].check)
    {
      if Free(s1.units, p) {
      } else {
        assert s2.units[p] == s1.units[p];
      }
    }
  }

  /** What the leaf of a key stores, v being the value of the key's first occurrence. */
  ghost predicate IsLeafBase(keys: seq<Str>, value: int -> int, w: Str, base: int) {
    exists i :: First(keys, w, i) && base == -value(i) - 1
  }

  /** i is the first occurrence of w among the keys. */
  ghost predicate First(keys: seq<Str>, w: Str, i: int) {
    0 <= i < |keys| && keys[i] == w && forall j :: 0 <= j < i ==> keys[j] != w
  }

  /** The base of slot p is right for code c of prefix w. */
  ghost predicate Filled(st: State, keys: seq<Str>, value: int -> int, w: Str, c: nat, p: nat)
    requires c <= 256
  {
    && p < |st.units|
    && if c == 0 then IsLeafBase(keys, value, w, st.units[p].base)
       else Extend(w, c) in st.begins && st.units[p].base == st.begins[Extend(w, c)]
  }

  /** The node of prefix w is complete: exactly the codes that occur own a slot, and each slot leads on correctly. */
  ghost predicate Complete(st: State, keys: seq<Str>, value: int -> int, w: Str) {
    && w in st.begins
    && forall c :: 0 <= c <= 256 ==>
         && (Owned(st.units, st.begins[w] + c, st.begins[w]) <==> HasCode(keys, w, c))
         && (HasCode(keys, w, c) ==> Filled(st, keys, value, w, c, st.begins[w] + c))
  }

  lemma OwnedStable(s0: State, s1: State, p: nat, b: nat)
    requires Consistent(s0) && Extends(s0, s1) && b >= 1 && Used(s0.used, b)
    ensures Owned(s1.units, p, b) <==> Owned(s0.units, p, b)
    ensures Owned(s0.units, p, b) ==> s1.units[p] == s0.units[p]
  {
    if p < |s0.units| && s0.units[p].check != 0 { assert !Free(s0.units, p); }
  }

  /** Complete nodes stay complete. */
  lemma CompleteStable(s0: State, s1: State, keys: seq<Str>, value: int -> int, w: Str)
    requires Consistent(s0) && Extends(s0, s1) && Complete(s0, keys, value, w)
    ensures Complete(s1, keys, value, w)
  {
    hide Owned, Extend, IsLeafBase, HasCode, Extends, Consistent;
    var b := BeginOf(s0, s1, w);
    forall c | 0 <= c <= 256
      ensures Owned(s1.units, b + c, b) <==> HasCode(keys, w, c)
      ensures HasCode(keys, w, c) ==> Filled(s1, keys, value, w, c, b + c)
    {
      OwnedStable(s0, s1, b + c, b);
      if HasCode(keys, w, c) { OwnedIn(s1, b + c, b); if c > 0 { KeptBegin(s0, s1, Extend(w, c)); } }
    }
  }

  lemma BeginOf(s0: State, s1: State, w: Str) returns (b: nat)
    requires Consistent(s0) && Extends(s0, s1) && w in s0.begins
    ensures b >= 1 && Used(s0.used, b) && s0.begins[w] == b && w in s1.begins && s1.begins[w] == b
  {
    b := s0.begins[w];
  }

  lemma OwnedIn(s: State, p: nat, b: nat)
    requires Owned(s.units, p, b)
    ensures p < |s.units|
  {}

  lemma KeptBegin(s0: State, s1: State, w: Str)
    requires Extends(s0, s1) && w in s0.begins
    ensures w in s1.begins && s1.begins[w] == s0.begins[w]
  {}

  // ---------- one node ----------

  /** node_t: the keys left .. right - 1 that continue a prefix of length depth - 1 with this code. */
  datatype Sibling = Sibling(code: nat, depth: nat, left: nat, right: nat)

  /** The siblings cut the keys lo .. hi - 1 into runs of equal code at depth d, in strictly ascending order of code. */
  ghost predicate Grouped(keys: seq<Str>, sibs: seq<Sibling>, lo: nat, hi: nat, d: nat) {
    && lo < hi <= |keys| && |sibs| > 0
    && sibs[0].left == lo && sibs[|sibs| - 1].right == hi
    && (forall i :: 0 <= i < |sibs| ==>
          sibs[i].left < sibs[i].right <= hi && lo <= sibs[i].left && sibs[i].depth == d + 1 && sibs[i].code <= 256)
    && (forall i :: 0 <= i < |sibs| - 1 ==> sibs[i].right == sibs[i + 1].left)
    && (forall i, k :: 0 <= i < |sibs| && sibs[i].left <= k < sibs[i].right ==>
          d <= |keys[k]| && Code(keys[k], d) == sibs[i].code)
    && (forall i, j :: 0 <= i < j < |sibs| ==> sibs[i].code < sibs[j].code)
  }

  ghost predicate IsCode(sibs: seq<Sibling>, c: nat) {
    exists i :: 0 <= i < |sibs| && sibs[i].code == c
  }

  /** The keys lo .. hi - 1 are exactly those with prefix w. */
  ghost predicate Range(keys: seq<Str>, w: Str, lo: nat, hi: nat) {
    lo <= hi <= |keys| && forall k :: 0 <= k < |keys| ==> (lo <= k < hi <==> w <= keys[k])
  }

  /** Every key of the range lies in one of the runs. */
  lemma {:induction false} RunOf(keys: seq<Str>, sibs: seq<Sibling>, lo: nat, hi: nat, d: nat, k: nat, n: nat)
    returns (i: nat)
    requires Grouped(keys, sibs, lo, hi, d) && 0 < n <= |sibs| && lo <= k < sibs[n - 1].right
    ensures i < n && sibs[i].left <= k < sibs[i].right
  {
    if sibs[n - 1].left <= k {
      i := n - 1;
    } else {
      i := RunOf(keys, sibs, lo, hi, d, k, n - 1);
    }
  }

  lemma CodesMatch(keys: seq<Str>, sibs: seq<Sibling>, w: Str, lo: nat, hi: nat, c: nat)
    requires Grouped(keys, sibs, lo, hi, |w|) && Range(keys, w, lo, hi)
    ensures HasCode(keys, w, c) <==> IsCode(sibs, c)
  {
    if HasCode(keys, w, c) {
      var k :| 0 <= k < |keys| && Continues(keys[k], w, c);
      var i := RunOf(keys, sibs, lo, hi, |w|, k, |sibs|);
      assert sibs[i].code == c;
    }
    if IsCode(sibs, c) {
      var i :| 0 <= i < |sibs| && sibs[i].code == c;
      assert Continues(keys[sibs[i].left], w, c);
    }
  }

  /** The keys of one run are exactly those with the prefix extended by the run's code. */
  lemma RunRange(keys: seq<Str>, sibs: seq<Sibling>, w: Str, lo: nat, hi: nat, i: nat)
    requires Grouped(keys, sibs, lo, hi, |w|) && Range(keys, w, lo, hi) && i < |sibs| && sibs[i].code > 0
    ensures Range(keys, Extend(w, sibs[i].code), sibs[i].left, sibs[i].right)
  {
    var x := Extend(w, sibs[i].code);
    forall k | 0 <= k < |keys| ensures sibs[i].left <= k < sibs[i].right <==> x <= keys[k] {
      if x <= keys[k] {
        assert w <= keys[k];
        var j := RunOf(keys, sibs, lo, hi, |w|, k, |sibs|);
        assert keys[k][|w|] == x[|w|];
      }
      if sibs[i].left <= k < sibs[i].right {
        assert w <= keys[k] && keys[k][|w|] == x[|w|];
      }
    }
  }

  /** Node w sits at b with exactly the slots of its siblings, the first n of which have their base. */
  ghost predicate Placed(st: State, keys: seq<Str>, value: int -> int, w: Str, b: nat, sibs: seq<Sibling>, n: nat) {
    && w in st.begins && st.begins[w] == b
    && (forall c :: 0 <= c <= 256 ==> (Owned(st.units, b + c, b) <==> IsCode(sibs, c)))
    && (forall i :: 0 <= i < |sibs| ==> sibs[i].code <= 256)
    && (forall i :: 0 <= i < n && i < |sibs| ==> Filled(st, keys, value, w, sibs[i].code, b + sibs[i].code))
  }

  lemma PlacedStable(s0: State, s1: State, keys: seq<Str>, value: int -> int, w: Str, b: nat, sibs: seq<Sibling>,
                     n: nat)
    requires Consistent(s0) && Extends(s0, s1) && Placed(s0, keys, value, w, b, sibs, n)
    ensures Placed(s1, keys, value, w, b, sibs, n)
  {
    hide Owned, Extend, IsLeafBase, Extends, Consistent, IsCode;
    var b' := BeginOf(s0, s1, w);
    forall c | 0 <= c <= 256 ensures Owned(s1.units, b + c, b) <==> IsCode(sibs, c) { OwnedStable(s0, s1, b + c, b); }
    forall i | 0 <= i < n && i < |sibs| ensures Filled(s1, keys, value, w, sibs[i].code, b + sibs[i].code) {
      var c := sibs[i].code;
      CodeAt(sibs, i);
      OwnedStable(s0, s1, b + c, b);
      OwnedIn(s1, b + c, b);
      if c > 0 { KeptBegin(s0, s1, Extend(w, c)); }
    }
  }

  lemma CodeAt(sibs: seq<Sibling>, i: nat)
    requires i < |sibs|
    ensures IsCode(sibs, sibs[i].code)
  {}

  lemma PlacedDone(st: State, keys: seq<Str>, value: int -> int, w: Str, b: nat, sibs: seq<Sibling>, lo: nat, hi: nat)
    requires Placed(st, keys, value, w, b, sibs, |sibs|)
    requires Grouped(keys, sibs, lo, hi, |w|) && Range(keys, w, lo, hi)
    ensures Complete(st, keys, value, w)
  {
    hide Grouped, Range, HasCode, Owned, Filled;
    forall c | 0 <= c <= 256
      ensures Owned(st.units, b + c, b) <==> HasCode(keys, w, c)
      ensures HasCode(keys, w, c) ==> Filled(st, keys, value, w, c, b + c)
    {
      CodesMatch(keys, sibs, w, lo, hi, c);
    }
  }

  // ---------- the three kinds of step ----------

  /** resize: the arrays grow by empty slots. */
  ghost predicate GrownFrom(s0: State, s1: State) {
    && |s0.units| <= |s1.units| && |s0.used| <= |s1.used| && |s1.units| == |s1.used| && s1.begins == s0.begins
    && (forall p :: 0 <= p < |s1.units| ==> s1.units[p] == if p < |s0.units| then s0.units[p] else Unit(0, 0))
    && (forall p :: 0 <= p < |s1.used| ==> s1.used[p] == (p < |s0.used| && s0.used[p]))
  }

  lemma GrownRefl(s: State)
    requires |s.units| == |s.used|
    ensures GrownFrom(s, s)
  {}

  /** From index bound on, nothing is in use. */
  ghost predicate Empty(units: seq<Unit>, used: seq<bool>, bound: nat) {
    && (forall p :: bound <= p < |units| ==> units[p].check == 0)
    && (forall b :: bound <= b < |used| ==> !used[b])
  }

  lemma NothingBehind(s: State)
    requires |s.units| == |s.used|
    ensures Empty(s.units, s.used, |s.units|)
  {}

  /** New slots are empty. */
  lemma GrownEmpty(s0: State, s1: State, bound: nat)
    requires GrownFrom(s0, s1)
    ensures Empty(s0.units, s0.used, bound) ==> Empty(s1.units, s1.used, bound)
  {}

  /** The begin b is in use, or one of the siblings' slots from b on. */
  ghost predicate Blocked(units: seq<Unit>, used: seq<bool>, sibs: seq<Sibling>, b: int) {
    || (0 <= b < |used| && used[b])
    || exists i :: 0 <= i < |sibs| && 0 <= b + sibs[i].code < |units| && units[b + sibs[i].code].check != 0
  }

  lemma GrownBlocked(s0: State, s1: State, sibs: seq<Sibling>, b: int)
    requires GrownFrom(s0, s1) && Blocked(s0.units, s0.used, sibs, b)
    ensures Blocked(s1.units, s1.used, sibs, b)
  {
    if !(0 <= b < |s0.used| && s0.used[b]) {
      var i :| 0 <= i < |sibs| && 0 <= b + sibs[i].code < |s0.units| && s0.units[b + sibs[i].code].check != 0;
      assert s1.units[b + sibs[i].code] == s0.units[b + sibs[i].code];
    }
  }

  /** For every begin that puts the first sibling behind slot a and before slot b something is in the way. */
  ghost predicate AllBlocked(units: seq<Unit>, used: seq<bool>, sibs: seq<Sibling>, a: int, b: int) {
    forall n :: |sibs| > 0 && 0 <= n && a < n + sibs[0].code < b ==> Blocked(units, used, sibs, n)
  }

  lemma NoneBlocked(units: seq<Unit>, used: seq<bool>, sibs: seq<Sibling>, a: int)
    ensures AllBlocked(units, used, sibs, a, a + 1)
  {}

  lemma OneMoreBlocked(units: seq<Unit>, used: seq<bool>, sibs: seq<Sibling>, a: int, b: int)
    requires |sibs| > 0 && AllBlocked(units, used, sibs, a, b) && Blocked(units, used, sibs, b - sibs[0].code)
    ensures AllBlocked(units, used, sibs, a, b + 1)
  {}

  /** What is in the way stays there when the arrays grow. */
  lemma GrownAllBlocked(s0: State, s1: State, sibs: seq<Sibling>, a: int, b: int)
    requires GrownFrom(s0, s1) && AllBlocked(s0.units, s0.used, sibs, a, b)
    ensures AllBlocked(s1.units, s1.used, sibs, a, b)
  {
    hide Blocked, GrownFrom;
    forall n | |sibs| > 0 && 0 <= n && a < n + sibs[0].code < b ensures Blocked(s1.units, s1.used, sibs, n) {
      GrownBlocked(s0, s1, sibs, n);
    }
  }

  lemma GrownKeeps(s0: State, s1: State, p: nat)
    requires GrownFrom(s0, s1) && p < |s0.units|
    ensures p < |s1.units| && s1.units[p] == s0.units[p]
  {}

  lemma GrownTrans(s0: State, s1: State, s2: State)
    requires GrownFrom(s0, s1) && GrownFrom(s1, s2)
    ensures GrownFrom(s0, s2)
  {}

  lemma GrownExtends(s0: State, s1: State)
    requires Consistent(s0) && GrownFrom(s0, s1)
    ensures Consistent(s1) && Extends(s0, s1)
  {}

  /** Node w is placed at b: its slots, all free before, get b as their check. */
  ghost predicate PlacedAt(s0: State, s1: State, w: Str, b: nat, sibs: seq<Sibling>) {
    && |s1.units| == |s0.units| && b < |s0.used| && s1.used == s0.used[b := true] && s1.begins == s0.begins[w := b]
    && (forall p :: 0 <= p < |s1.units| ==>
          s1.units[p] == if p >= b && IsCode(sibs, p - b) then s0.units[p].(check := b) else s0.units[p])
  }

  lemma PlaceExtends(s0: State, s1: State, keys: seq<Str>, value: int -> int, w: Str, b: nat, sibs: seq<Sibling>)
    requires Consistent(s0) && PlacedAt(s0, s1, w, b, sibs)
    requires b >= 1 && !s0.used[b] && w !in s0.begins && RoomAt(s0, b, sibs)
    ensures Consistent(s1) && Extends(s0, s1)
    ensures Placed(s1, keys, value, w, b, sibs, 0)
  {
    hide IsCode, BeginsAt;
    FreeSlots(s0, b, sibs);
    PlaceOwns(s0, s1, w, b, sibs);
    forall x | Used(s1.used, x) ensures BeginsAt(s1.begins, x) { PlaceBegins(s0, w, b, x); }
  }

  /** The new begin is that of w, and the others stay what they were. */
  lemma PlaceBegins(s0: State, w: Str, b: nat, x: nat)
    requires w !in s0.begins && (x == b || BeginsAt(s0.begins, x))
    ensures BeginsAt(s0.begins[w := b], x)
  {
    var begins := s0.begins[w := b];
    if x == b {
      assert w in begins && begins[w] == x;
    } else {
      var v :| v in s0.begins && s0.begins[v] == x;
      assert v in begins && begins[v] == x;
    }
  }

  /** All slots of the siblings exist and are free. */
  ghost predicate RoomAt(st: State, b: nat, sibs: seq<Sibling>) {
    forall i :: 0 <= i < |sibs| ==>
      sibs[i].code <= 256 && b + sibs[i].code < |st.units| && st.units[b + sibs[i].code].check == 0
  }

  lemma FreeSlots(st: State, b: nat, sibs: seq<Sibling>)
    requires RoomAt(st, b, sibs)
    ensures forall c: nat :: IsCode(sibs, c) ==> c <= 256 && b + c < |st.units| && st.units[b + c].check == 0
    ensures forall p: nat :: p >= b && IsCode(sibs, p - b) ==> p < |st.units| && st.units[p].check == 0
    ensures forall i :: 0 <= i < |sibs| ==> sibs[i].code <= 256
  {
    forall p: nat | p >= b && IsCode(sibs, p - b) ensures p < |st.units| && st.units[p].check == 0 {
      var i :| 0 <= i < |sibs| && sibs[i].code == p - b;
    }
  }

  lemma PlaceOwns(s0: State, s1: State, w: Str, b: nat, sibs: seq<Sibling>)
    requires Consistent(s0) && PlacedAt(s0, s1, w, b, sibs) && b >= 1 && !s0.used[b]
    requires forall c: nat :: IsCode(sibs, c) ==> b + c < |s0.units|
    ensures forall c: nat :: Owned(s1.units, b + c, b) <==> IsCode(sibs, c)
  {
    hide IsCode;
    forall c: nat ensures Owned(s1.units, b + c, b) <==> IsCode(sibs, c) {
      assert b + c < |s0.units| ==> s0.units[b + c].check != b;
    }
  }

  /** The base of one slot is written. */
  ghost function WithBase(st: State, p: nat, base: int): State
    requires p < |st.units|
  {
    st.(units := st.units[p := st.units[p].(base := base)])
  }

  lemma BaseExtends(s0: State, s1: State, p: nat, base: int)
    requires Consistent(s1) && Extends(s0, s1) && p < |s1.units| && Free(s0.units, p)
    ensures Consistent(WithBase(s1, p, base)) && Extends(s0, WithBase(s1, p, base))
  {}

  lemma BaseKeepsComplete(st: State, p: nat, base: int, b: nat, keys: seq<Str>, value: int -> int, w: Str)
    requires p < |st.units| && Owned(st.units, p, b) && Complete(st, keys, value, w) && st.begins[w] != b
    ensures Complete(WithBase(st, p, base), keys, value, w)
  {
    hide IsLeafBase, Extend, HasCode;
    var s1 := WithBase(st, p, base);
    forall c | 0 <= c <= 256
      ensures Owned(s1.units, s1.begins[w] + c, s1.begins[w]) <==> HasCode(keys, w, c)
      ensures HasCode(keys, w, c) ==> Filled(s1, keys, value, w, c, s1.begins[w] + c)
    {
      assert Owned(s1.units, s1.begins[w] + c, s1.begins[w]) <==> Owned(st.units, st.begins[w] + c, st.begins[w]);
    }
  }

  /** Writing the right base fills the next sibling. */
  lemma BaseFills(st: State, keys: seq<Str>, value: int -> int, w: Str, b: nat, sibs: seq<Sibling>, n: nat, base: int)
    requires Placed(st, keys, value, w, b, sibs, n) && n < |sibs|
    requires forall i, j :: 0 <= i < j < |sibs| ==> sibs[i].code < sibs[j].code
    requires b + sibs[n].code < |st.units|
    requires Filled(WithBase(st, b + sibs[n].code, base), keys, value, w, sibs[n].code, b + sibs[n].code)
    ensures Placed(WithBase(st, b + sibs[n].code, base), keys, value, w, b, sibs, n + 1)
  {
    hide IsLeafBase, Extend, IsCode;
    var s1 := WithBase(st, b + sibs[n].code, base);
    forall c | 0 <= c <= 256 ensures Owned(s1.units, b + c, b) <==> IsCode(sibs, c) {
      assert Owned(s1.units, b + c, b) <==> Owned(st.units, b + c, b);
    }
    forall i | 0 <= i < n + 1 ensures Filled(s1, keys, value, w, sibs[i].code, b + sibs[i].code) {
      if i < n { assert Filled(st, keys, value, w, sibs[i].code, b + sibs[i].code); }
    }
  }

  // ---------- how large the entries get ----------

  /** Checks and bases lie below the used size, and encoded values are at most cap. */
  ghost predicate Small(units: seq<Unit>, size: nat, cap: nat) {
    forall p :: 0 <= p < |units| ==> units[p].check <= size && -1 - cap <= units[p].base <= size + 1
  }

  lemma GrownSmall(s0: State, s1: State, size: nat, cap: nat)
    requires GrownFrom(s0, s1) && Small(s0.units, size, cap)
    ensures Small(s1.units, size, cap)
  {}

  lemma PlacedSmall(s0: State, s1: State, w: Str, b: nat, sibs: seq<Sibling>, size0: nat, size: nat, cap: nat)
    requires PlacedAt(s0, s1, w, b, sibs) && Small(s0.units, size0, cap) && size0 <= size && b <= size
    ensures Small(s1.units, size, cap)
  {}

  lemma BaseSmall(units: seq<Unit>, p: nat, base: int, size: nat, cap: nat)
    requires p < |units| && Small(units, size, cap) && -1 - cap <= base <= size
    ensures Small(units[p := units[p].(base := base)], size, cap)
  {}

  // ---------- which inputs can be packed ----------

  ghost predicate IsNew(keys: seq<Str>, k: nat)
    requires k < |keys|
  {
    k == 0 || keys[k - 1] != keys[k]
  }

  /** The keys ascend, and the first of equal keys always has an acceptable value. */
  ghost predicate Buildable(keys: seq<Str>, ok: int -> bool, lo: nat, hi: nat)
    requires hi <= |keys|
  {
    && (forall k {:trigger keys[k]} :: lo < k < hi ==> Leq(keys[k - 1], keys[k]))
    && (forall k :: lo <= k < hi && IsNew(keys, k) ==> ok(k))
  }

  lemma CodeOrder(w: Str, a: Str, b: Str)
    requires w <= a && w <= b
    ensures Code(a, |w|) < Code(b, |w|) ==> Leq(a, b) && a != b
    ensures Code(a, |w|) > Code(b, |w|) ==> !Leq(a, b)
  {
    LeqCommon(w, a, b);
    if |a| > |w| { assert a[|w|..][0] == a[|w|]; }
    if |b| > |w| { assert b[|w|..][0] == b[|w|]; }
  }

  lemma RunCode(keys: seq<Str>, sibs: seq<Sibling>, w: Str, lo: nat, hi: nat, i: nat, k: nat)
    requires Grouped(keys, sibs, lo, hi, |w|) && Range(keys, w, lo, hi) && i < |sibs|
    requires sibs[i].left <= k < sibs[i].right
    ensures k < |keys| && w <= keys[k] && Code(keys[k], |w|) == sibs[i].code
  {}

  lemma RunsAscend(keys: seq<Str>, sibs: seq<Sibling>, lo: nat, hi: nat, d: nat, j: nat, i: nat)
    requires Grouped(keys, sibs, lo, hi, d) && j < i < |sibs|
    ensures sibs[j].code < sibs[i].code
  {}

  /** Neighbouring keys are in order: within a run by assumption, across runs by their codes. */
  lemma OrderAcross(keys: seq<Str>, ok: int -> bool, sibs: seq<Sibling>, w: Str, lo: nat, hi: nat, k: nat)
    requires Grouped(keys, sibs, lo, hi, |w|) && Range(keys, w, lo, hi) && lo < k < hi <= |keys|
    requires AllRuns(keys, ok, sibs, |sibs|)
    ensures Leq(keys[k - 1], keys[k])
  {
    hide Leq, Grouped, Range, IsNew, Code;
    SomeRun(keys, sibs, lo, hi, |w|);
    var i := RunOf(keys, sibs, lo, hi, |w|, k, |sibs|);
    assert RunOk(keys, ok, sibs[i]);
    if k == sibs[i].left {
      var j := RunOf(keys, sibs, lo, hi, |w|, k - 1, |sibs|);
      RunsOrdered(keys, sibs, lo, hi, |w|, j, i);
      RunsAscend(keys, sibs, lo, hi, |w|, j, i);
      RunCode(keys, sibs, w, lo, hi, j, k - 1);
      RunCode(keys, sibs, w, lo, hi, i, k);
      CodeOrder(w, keys[k - 1], keys[k]);
    }
  }

  lemma RunInside(keys: seq<Str>, sibs: seq<Sibling>, lo: nat, hi: nat, d: nat, i: nat)
    requires Grouped(keys, sibs, lo, hi, d) && i < |sibs|
    ensures lo <= sibs[i].left < sibs[i].right <= hi <= |keys|
  {}

  /** A range can be packed if and only if each of its runs can. */
  lemma BuildableByRun(keys: seq<Str>, ok: int -> bool, sibs: seq<Sibling>, w: Str, lo: nat, hi: nat)
    requires Grouped(keys, sibs, lo, hi, |w|) && Range(keys, w, lo, hi)
    ensures Buildable(keys, ok, lo, hi) <==> AllRuns(keys, ok, sibs, |sibs|)
  {
    hide Leq, Grouped, Range, IsNew;
    SomeRun(keys, sibs, lo, hi, |w|);
    if Buildable(keys, ok, lo, hi) {
      forall i | 0 <= i < |sibs| ensures RunOk(keys, ok, sibs[i]) { RunInside(keys, sibs, lo, hi, |w|, i); }
    }
    if AllRuns(keys, ok, sibs, |sibs|) {
      RunsCover(keys, ok, sibs, w, lo, hi);
    }
  }

  ghost predicate RunOk(keys: seq<Str>, ok: int -> bool, s: Sibling) {
    s.right <= |keys| && Buildable(keys, ok, s.left, s.right)
  }

  ghost predicate AllRuns(keys: seq<Str>, ok: int -> bool, sibs: seq<Sibling>, n: nat) {
    forall i :: 0 <= i < n && i < |sibs| ==> RunOk(keys, ok, sibs[i])
  }

  lemma RunsCover(keys: seq<Str>, ok: int -> bool, sibs: seq<Sibling>, w: Str, lo: nat, hi: nat)
    requires Grouped(keys, sibs, lo, hi, |w|) && Range(keys, w, lo, hi) && AllRuns(keys, ok, sibs, |sibs|)
    ensures Buildable(keys, ok, lo, hi)
  {
    hide Leq, Range, IsNew, Grouped;
    SomeRun(keys, sibs, lo, hi, |w|);
    forall k {:trigger keys[k]} | lo < k < hi
      ensures Leq(keys[k - 1], keys[k]) { OrderAcross(keys, ok, sibs, w, lo, hi, k); }
    forall k | lo <= k < hi && IsNew(keys, k) ensures ok(k) {
      var i := RunOf(keys, sibs, lo, hi, |w|, k, |sibs|);
      assert RunOk(keys, ok, sibs[i]);
    }
  }

  lemma SomeRun(keys: seq<Str>, sibs: seq<Sibling>, lo: nat, hi: nat, d: nat)
    requires Grouped(keys, sibs, lo, hi, d)
    ensures |sibs| > 0 && sibs[0].left == lo && sibs[|sibs| - 1].right == hi <= |keys|
  {}

  /** A run whose codes, one level down, do not ascend cannot be packed. */
  lemma DescentFails(keys: seq<Str>, ok: int -> bool, x: Str, lo: nat, hi: nat, k: nat)
    requires lo < k < hi <= |keys| && x <= keys[k - 1] && x <= keys[k] && Code(keys[k - 1], |x|) > Code(keys[k], |x|)
    ensures !Buildable(keys, ok, lo, hi)
  {
    CodeOrder(x, keys[k - 1], keys[k]);
  }

  /** Runs further right start later. */
  lemma {:induction false} RunsOrdered(keys: seq<Str>, sibs: seq<Sibling>, lo: nat, hi: nat, d: nat, j: nat, i: nat)
    requires Grouped(keys, sibs, lo, hi, d) && j < |sibs| && i < |sibs|
    ensures i < j ==> sibs[i].right <= sibs[j].left
    decreases j
  {
    if i < j { RunsOrdered(keys, sibs, lo, hi, d, j - 1, i); }
  }

  lemma FirstRun(keys: seq<Str>, sibs: seq<Sibling>, lo: nat, hi: nat, d: nat, i: nat)
    requires Grouped(keys, sibs, lo, hi, d) && i < |sibs|
    ensures sibs[i].code == 0 ==> i == 0
  {}

  /** The run of code 0 consists of copies of w; its first key decides. */
  lemma LeafRun(keys: seq<Str>, ok: int -> bool, sibs: seq<Sibling>, w: Str, lo: nat, hi: nat, i: nat)
    requires Grouped(keys, sibs, lo, hi, |w|) && Range(keys, w, lo, hi) && i < |sibs| && sibs[i].code == 0
    ensures First(keys, w, sibs[i].left)
    ensures Buildable(keys, ok, sibs[i].left, sibs[i].right) <==> ok(sibs[i].left)
  {
    FirstRun(keys, sibs, lo, hi, |w|, i);
    var left, right := sibs[i].left, sibs[i].right;
    forall k | left <= k < right ensures keys[k] == w { assert w <= keys[k] && Code(keys[k], |w|) == 0; }
    forall j | 0 <= j < left ensures keys[j] != w { assert !(w <= keys[j]); }
    assert IsNew(keys, left);
    LeqRefl(w);
  }

  // ---------- building the runs ----------

  /** The runs found so far, the last one ending just before key i. */
  ghost function Closed(sibs: seq<Sibling>, i: nat): seq<Sibling>
    requires |sibs| > 0
  {
    sibs[|sibs| - 1 := sibs[|sibs| - 1].(right := i)]
  }

  lemma FirstRunStarts(keys: seq<Str>, lo: nat, d: nat, s: Sibling)
    requires lo < |keys| && d <= |keys[lo]| && s.code == Code(keys[lo], d) && s.depth == d + 1 && s.left == lo
    ensures Grouped(keys, Closed([s], lo + 1), lo, lo + 1, d)
  {}

  lemma RunGoesOn(keys: seq<Str>, sibs: seq<Sibling>, lo: nat, i: nat, d: nat)
    requires |sibs| > 0 && Grouped(keys, Closed(sibs, i), lo, i, d) && i < |keys|
    requires d <= |keys[i]| && Code(keys[i], d) == sibs[|sibs| - 1].code
    ensures Grouped(keys, Closed(sibs, i + 1), lo, i + 1, d)
  {
    var c, e := Closed(sibs, i), Closed(sibs, i + 1);
    forall j | 0 <= j < |e| - 1 ensures e[j] == c[j] {}
  }

  lemma RunStarts(keys: seq<Str>, sibs: seq<Sibling>, lo: nat, i: nat, d: nat, s: Sibling)
    requires |sibs| > 0 && Grouped(keys, Closed(sibs, i), lo, i, d) && i < |keys|
    requires d <= |keys[i]| && s.code == Code(keys[i], d) && s.code > sibs[|sibs| - 1].code
    requires s.depth == d + 1 && s.left == i
    ensures Grouped(keys, Closed(Closed(sibs, i) + [s], i + 1), lo, i + 1, d)
  {
    var c, e := Closed(sibs, i), Closed(Closed(sibs, i) + [s], i + 1);
    forall j | 0 <= j < |e| - 1 ensures e[j] == c[j] {}
    forall a, b | 0 <= a < b < |e| ensures e[a].code < e[b].code {
      if b == |e| - 1 && a < |c| - 1 { assert c[a].code < c[|c| - 1].code; }
    }
    forall a, k | 0 <= a < |e| && e[a].left <= k < e[a].right
      ensures d <= |keys[k]| && Code(keys[k], d) == e[a].code
    {
      if a < |c| { assert e[a] == c[a]; } else { assert k == i; }
    }
    hide Code;
  }
}
