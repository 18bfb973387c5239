/** darts.h: a trie packed into two arrays, and the searches that walk them. */
module DoubleArray {
  import opened Bytes
  import opened ArrayState
  import opened ArrayBuild
  import opened ArraySearch
  import opened Text

  /** The optional value table given to build. */
  datatype Values = NoValues | Values(v: seq<int>)

  class DoubleArray {
    var units: seq<Unit>  // array_; its length is alloc_size_
    var used: seq<bool>
    var size: nat
    var keys: seq<Str>
    var values: Values
    var progress: nat
    var nextCheckPos: nat
    var error: int
    ghost var begins: map<Str, nat>

    constructor ()
      ensures units == [] && used == [] && size == 0 && error == 0 && begins == map[]
    {
      units, used, size, keys, values := [], [], 0, [], NoValues;
      progress, nextCheckPos, error, begins := 0, 0, 0, map[];
    }

    ghost function St(): State
      reads `units, `used, `begins
    {
      State(units, used, begins)
    }

    /** The value stored for the key at index i. */
    ghost function Value(): int -> int
      reads `values
    {
      var vs := values;
      i => if vs.Values? && 0 <= i < |vs.v| then vs.v[i] else i
    }

    /** build accepts a value if its encoding -value - 1 is negative. */
    ghost function Accepts(): int -> bool
      reads `values
    {
      var vs := values;
      i => vs.Values? && 0 <= i < |vs.v| ==> vs.v[i] >= 0
    }

    /** _resize: copy, and fill up with empty slots. */
    method Resize(n: nat)
      requires n >= |units| == |used|
      modifies `units, `used
      ensures |units| == n && GrownFrom(old(St()), St())
    {
      units := units + seq(n - |units|, _ => Unit(0, 0));
      used := used + seq(n - |used|, _ => false);
    }

    /** The new size is the old one times the factor, which is at least 1.05. */
    static ghost predicate Scaled(n0: nat, n: nat, factor: real) {
      n == (n0 as real * if factor < 1.05 then 1.05 else factor).Floor
    }

    /** The resize by max(1.05, key_size / progress); any factor of at least 1.05 while progress is 0. */
    method Grow()
      requires 8192 <= |units| == |used|
      modifies `units, `used
      ensures |units| >= old(|units|) + 256 && GrownFrom(old(St()), St())
      ensures progress > 0 ==> Scaled(old(|units|), |units|, |keys| as real / progress as real)
    {
      var factor: real := *;
      if progress > 0 { factor := |keys| as real / progress as real; }
      if factor < 1.05 { factor := 1.05; }
      var n := (|units| as real * factor).Floor;
      FactorGrows(|units|, factor, n);
      Resize(n);
    }

    static lemma FactorGrows(a: nat, factor: real, n: int)
      requires a >= 8192 && factor >= 1.05 && n == (a as real * factor).Floor
      ensures n >= a + 256
    {
      assert a as real * factor >= a as real * 1.05;
      assert a as real * 1.05 >= a as real + 256.0;
    }

    ghost predicate LongEnough(lo: nat, hi: nat, d: nat)
      reads `keys
    {
      lo < hi <= |keys| && forall k :: lo <= k < hi ==> d <= |keys[k]|
    }

    ghost predicate TooShort(lo: nat, hi: nat, d: nat)
      reads `keys
    {
      lo <= hi <= |keys| && forall k :: lo <= k < hi ==> |keys[k]| < d
    }

    /** The keys lo .. hi - 1 come in descending order of code somewhere. */
    ghost predicate Unordered(lo: nat, hi: nat, d: nat)
      requires LongEnough(lo, hi, d)
      reads `keys
    {
      exists k {:trigger keys[k]} :: lo < k < hi && Code(keys[k - 1], d) > Code(keys[k], d)
    }

    /** darts.h fetch: the runs of equal code among the keys of parent, or error -3 if their codes do not ascend. */
    method Fetch(parent: Sibling) returns (n: nat, siblings: seq<Sibling>)
      requires LongEnough(parent.left, parent.right, parent.depth) || TooShort(parent.left, parent.right, parent.depth)
      modifies `error
      ensures old(error) < 0 ==> n == 0 && error == old(error)
      ensures old(error) >= 0 && TooShort(parent.left, parent.right, parent.depth) ==> n == 0 && error == old(error)
      ensures old(error) >= 0 && LongEnough(parent.left, parent.right, parent.depth) ==>
        if error == old(error) then n == |siblings| && Grouped(keys, siblings, parent.left, parent.right, parent.depth)
        else error == -3 && n == 0 && Unordered(parent.left, parent.right, parent.depth)
    {
      hide Grouped;
      siblings := [];
      if error < 0 { return 0, siblings; }
      ghost var d, lo := parent.depth, parent.left;
      var prev: nat := 0;
      var i := parent.left;
      while i < parent.right
        invariant parent.left <= i <= parent.right && error == old(error)
        invariant TooShort(lo, parent.right, d) ==> siblings == []
        invariant LongEnough(lo, parent.right, d) ==> (siblings == [] <==> i == lo)
        invariant siblings != [] ==>
          Grouped(keys, Closed(siblings, i), lo, i, d) && prev == siblings[|siblings| - 1].code
        invariant siblings == [] ==> prev == 0
        invariant i > lo && siblings != [] ==> |keys[i - 1]| >= d && prev == Code(keys[i - 1], d)
      {
        if |keys[i]| < parent.depth {
          i := i + 1;
          continue;
        }
        var cur: nat := 0;
        if |keys[i]| != parent.depth {
          cur := keys[i][parent.depth] as nat + 1;
        }
        if prev > cur {
          error := -3;
          assert Code(keys[i - 1], d) > Code(keys[i], d);
          return 0, siblings;
        }
        if cur != prev || siblings == [] {
          var node := Sibling(cur, parent.depth + 1, i, 0);
          if siblings != [] {
            RunStarts(keys, siblings, lo, i, d, node);
            siblings := siblings[|siblings| - 1 := siblings[|siblings| - 1].(right := i)];
          } else {
            FirstRunStarts(keys, lo, d, node);
            assert siblings + [node] == [node];
          }
          siblings := siblings + [node];
        } else {
          RunGoesOn(keys, siblings, lo, i, d);
        }
        prev := cur;
        i := i + 1;
      }
      if siblings != [] {
        siblings := siblings[|siblings| - 1 := siblings[|siblings| - 1].(right := parent.right)];
      }
      n := |siblings|;
    }

    /** The sibling codes are usable and ascend. */
    ghost predicate Codes(siblings: seq<Sibling>) {
      && |siblings| > 0 && (forall i :: 0 <= i < |siblings| ==> siblings[i].code <= 256)
      && (forall i, j :: 0 <= i < j < |siblings| ==> siblings[i].code < siblings[j].code)
    }

    /** No slot for these siblings, from begin b on, is in use. */
    ghost predicate Fits(siblings: seq<Sibling>, b: nat)
      reads `units, `used
    {
      && b >= 1 && b < |used| && !used[b]
      && forall i :: 0 <= i < |siblings| ==> b + siblings[i].code < |units| && units[b + siblings[i].code].check == 0
    }

    /** All values are at most cap; without a table of values the indices are. */
    ghost predicate Capped(cap: nat)
      reads `keys, `values
    {
      forall k :: 0 <= k < |keys| ==> Value()(k) <= cap
    }

    /** The entries are small if the values are. */
    ghost predicate AllSmall(cap: nat)
      reads `units, `size, `keys, `values
    {
      Capped(cap) ==> Small(units, size, cap)
    }

    /** The inner loop of the slot search, which leaves by `goto next` at the first occupied slot. */
    method SlotsFree(siblings: seq<Sibling>, begin: nat) returns (free: bool)
      requires Codes(siblings) && forall i :: 0 <= i < |siblings| ==> begin + siblings[i].code < |units|
      ensures free <==> forall i :: 1 <= i < |siblings| ==> units[begin + siblings[i].code].check == 0
    {
      for i := 1 to |siblings|
        invariant forall j :: 1 <= j < i ==> units[begin + siblings[j].code].check == 0
      {
        if units[begin + siblings[i].code].check != 0 { return false; }
      }
      return true;
    }

    lemma CodeBounds(siblings: seq<Sibling>)
      requires Codes(siblings)
      ensures |siblings| > 0 && siblings[|siblings| - 1].code <= 256
      ensures forall i :: 0 <= i < |siblings| ==> siblings[0].code <= siblings[i].code <= siblings[|siblings| - 1].code
    {}

    lemma Occupied(p: nat, bound: nat)
      requires Empty(units, used, bound) && p < |units| == |used| && (units[p].check != 0 || used[p])
      ensures p < bound && !Empty(units, used, 0)
    {}

    lemma NotFree(siblings: seq<Sibling>, p: nat)
      requires |siblings| > 0 && p < |units| && units[p].check != 0 && p >= siblings[0].code
      ensures Blocked(units, used, siblings, p - siblings[0].code)
    {}

    lemma NotUnused(siblings: seq<Sibling>, b: nat)
      requires b < |used| && used[b]
      ensures Blocked(units, used, siblings, b)
    {}

    lemma SlotsAhead(siblings: seq<Sibling>, b: nat, bound: nat, free: bool)
      requires Codes(siblings) && Empty(units, used, bound) && 1 <= b < |used| == |units| && !used[b]
      requires b + siblings[|siblings| - 1].code < |units| && units[b + siblings[0].code].check == 0
      requires free <==> forall i :: 1 <= i < |siblings| ==> units[b + siblings[i].code].check == 0
      ensures free ==> Fits(siblings, b)
      ensures !free ==> b < bound && !Empty(units, used, 0) && Blocked(units, used, siblings, b)
    {
      if !free {
        var i :| 1 <= i < |siblings| && units[b + siblings[i].code].check != 0;
      }
    }

    /** One turn of the slot search: is slot pos occupied, and if not, can the first sibling go there? Far enough out
        it always can. */
    method TryAt(pos: nat, siblings: seq<Sibling>, ghost bound: nat) returns (occupied: bool, found: bool)
      requires Codes(siblings) && 8192 <= |units| == |used| && pos > siblings[0].code && Empty(units, used, bound)
      modifies `units, `used
      ensures GrownFrom(old(St()), St()) && Empty(units, used, bound)
      ensures pos < |units| && (occupied <==> units[pos].check != 0)
      ensures found ==> !occupied && Fits(siblings, pos - siblings[0].code)
      ensures !found ==> pos < bound + 257 && Blocked(units, used, siblings, pos - siblings[0].code)
      ensures old(Empty(units, used, 0)) ==> found
    {
      hide GrownFrom, Empty, Fits, Codes, Blocked, Scaled;
      CodeBounds(siblings);
      ghost var s0 := St();
      GrownRefl(s0);
      if |units| <= pos { Resize(pos + 1); }
      ghost var s1 := St();
      GrownSizes(s0, s1);
      GrownEmpty(s0, s1, bound);
      GrownEmpty(s0, s1, 0);
      if units[pos].check != 0 {
        Occupied(pos, bound);
        NotFree(siblings, pos);
        return true, false;
      }
      var begin := pos - siblings[0].code;
      GrownRefl(s1);
      if |units| <= begin + siblings[|siblings| - 1].code { Grow(); }
      GrownSizes(s1, St());
      GrownKeeps(s1, St(), pos);
      GrownEmpty(s1, St(), bound);
      GrownEmpty(s1, St(), 0);
      GrownTrans(s0, s1, St());
      if used[begin] {
        Occupied(begin, bound);
        NotUnused(siblings, begin);
        return false, false;
      }
      found := SlotsFree(siblings, begin);
      SlotsAhead(siblings, begin, bound, found);
      return false, found;
    }

    /** The search begins behind this slot. */
    static ghost function SearchStart(siblings: seq<Sibling>, next: nat): nat
      requires |siblings| > 0
    {
      if siblings[0].code + 1 > next then siblings[0].code else next - 1
    }

    /** The search for a begin whose slots are all free. It ends because the arrays are empty from some point on. */
    method FindSlot(siblings: seq<Sibling>) returns (begin: nat)
      requires Codes(siblings) && 8192 <= |units| == |used|
      modifies `units, `used, `nextCheckPos
      ensures GrownFrom(old(St()), St()) && Fits(siblings, begin)
      ensures old(Empty(units, used, 0)) && old(nextCheckPos) == 0 ==> begin == 1
      ensures begin + siblings[0].code > SearchStart(siblings, old(nextCheckPos))
      ensures AllBlocked(units, used, siblings, SearchStart(siblings, old(nextCheckPos)), begin + siblings[0].code)
    {
      hide GrownFrom, Empty, Fits, Codes, Blocked, AllBlocked;
      CodeBounds(siblings);
      GrownRefl(St());
      NothingBehind(St());
      var first := false;
      var found := false;
      var nonzero := 0;
      var pos := (if siblings[0].code + 1 > nextCheckPos then siblings[0].code + 1 else nextCheckPos) - 1;
      ghost var bound := |units|;
      ghost var start := pos;
      if |units| <= pos { Resize(pos + 1); }
      GrownEmpty(old(St()), St(), bound);
      GrownEmpty(old(St()), St(), 0);
      GrownSizes(old(St()), St());
      NoneBlocked(units, used, siblings, start);
      while !found
        invariant GrownFrom(old(St()), St()) && 8192 <= |units| == |used| && Empty(units, used, bound)
        invariant siblings[0].code <= start <= pos
        invariant found ==> Fits(siblings, pos - siblings[0].code) && first
        invariant first ==> nextCheckPos <= pos
        invariant start == SearchStart(siblings, old(nextCheckPos)) && (found ==> pos > start)
        invariant AllBlocked(units, used, siblings, start, if found then pos else pos + 1)
        invariant old(Empty(units, used, 0)) ==>
          if found then pos == start + 1 else Empty(units, used, 0) && pos == start
        decreases !found, if bound + 300 > pos then bound + 300 - pos else 0
      {
        hide SearchStart;
        pos := pos + 1;
        ghost var before := St();
        var occupied;
        occupied, found := TryAt(pos, siblings, bound);
        GrownTrans(old(St()), before, St());
        GrownSizes(before, St());
        GrownAllBlocked(before, St(), siblings, start, pos);
        if !found { OneMoreBlocked(units, used, siblings, start, pos); }
        if occupied {
          nonzero := nonzero + 1;
        } else if !first {
          nextCheckPos := pos;
          first := true;
        }
      }
      if nonzero as real / (pos - nextCheckPos + 1) as real >= 0.95 {
        nextCheckPos := pos;
      }
      begin := pos - siblings[0].code;
    }

    /** The loop that marks the slots of a node: the begin becomes their check. */
    method Place(siblings: seq<Sibling>, begin: nat, ghost w: Str)
      requires |units| == |used| && Codes(siblings) && Fits(siblings, begin)
      modifies `units, `used, `begins
      ensures PlacedAt(old(St()), St(), w, begin, siblings)
    {
      used := used[begin := true];
      begins := begins[w := begin];
      var i := 0;
      while i < |siblings|
        invariant i <= |siblings| && |units| == |old(units)|
        invariant used == old(used)[begin := true] && begins == old(begins)[w := begin]
        invariant forall p :: 0 <= p < |units| ==>
          units[p] ==
            if p >= begin && IsCode(siblings[..i], p - begin) then old(units)[p].(check := begin) else old(units)[p]
      {
        var p := begin + siblings[i].code;
        units := units[p := units[p].(check := begin)];
        assert siblings[..i + 1] == siblings[..i] + [siblings[i]];
        forall c ensures IsCode(siblings[..i + 1], c) <==> IsCode(siblings[..i], c) || c == siblings[i].code {
          if IsCode(siblings[..i], c) {
            var j :| 0 <= j < i && siblings[..i][j].code == c;
            assert siblings[..i + 1][j].code == c;
          }
          if c == siblings[i].code { assert siblings[..i + 1][i].code == c; }
        }
        i := i + 1;
      }
      assert siblings[..i] == siblings;
    }

    /** What insert needs of its arguments: the siblings are the runs of all keys with prefix w, none of it placed yet,
        and no key is longer than w by more than room. */
    ghost predicate Insertable(siblings: seq<Sibling>, w: Str, lo: nat, hi: nat, room: nat)
      reads `units, `used, `begins, `keys, `size
    {
      && Grouped(keys, siblings, lo, hi, |w|) && Range(keys, w, lo, hi) && Within(w, room)
      && Consistent(St()) && Fresh(St(), w)
      && (forall x :: x in begins ==> begins[x] < size) && size <= |units|
    }

    /** No key with prefix w is longer than w by more than room. */
    ghost predicate Within(w: Str, room: nat)
      reads `keys
    {
      forall k :: 0 <= k < |keys| && w <= keys[k] ==> |keys[k]| <= |w| + room
    }

    lemma GroupedCodes(siblings: seq<Sibling>, lo: nat, hi: nat, d: nat)
      requires Grouped(keys, siblings, lo, hi, d)
      ensures Codes(siblings)
      ensures forall i :: 0 <= i < |siblings| ==> siblings[i].left < siblings[i].right <= |keys|
    {}

    lemma GroupedSome(siblings: seq<Sibling>, lo: nat, hi: nat, d: nat)
      ensures Grouped(keys, siblings, lo, hi, d) ==> |siblings| > 0
    {}

    /** The keys of a run reach beyond w, unless its code is 0. */
    lemma RunLengths(siblings: seq<Sibling>, w: Str, lo: nat, hi: nat, i: nat, room: nat)
      requires Grouped(keys, siblings, lo, hi, |w|) && Range(keys, w, lo, hi) && i < |siblings| && Within(w, room)
      ensures siblings[i].depth == |w| + 1
      ensures siblings[i].code == 0 ==> TooShort(siblings[i].left, siblings[i].right, |w| + 1)
      ensures siblings[i].code > 0 ==> LongEnough(siblings[i].left, siblings[i].right, |w| + 1)
      ensures siblings[i].code > 0 ==> room > 0 && Within(Extend(w, siblings[i].code), room - 1)
    {
      var s := siblings[i];
      forall k | s.left <= k < s.right
        ensures k < |keys| && |w| <= |keys[k]| <= |w| + room && (s.code == 0 <==> |keys[k]| == |w|)
      {
        RunCode(keys, siblings, w, lo, hi, i, k);
      }
      if s.code > 0 {
        assert s.left < s.right;
        assert |w| < |keys[s.left]| <= |w| + room;
        forall k | 0 <= k < |keys| && Extend(w, s.code) <= keys[k]
          ensures |keys[k]| <= |Extend(w, s.code)| + (room - 1) {
          ExtendPrefix(w, s.code, keys[k]);
        }
      }
    }

    /** If fetch found the run's codes out of order, the run cannot be packed. */
    lemma OutOfOrder(siblings: seq<Sibling>, w: Str, lo: nat, hi: nat, i: nat)
      requires Grouped(keys, siblings, lo, hi, |w|) && Range(keys, w, lo, hi) && i < |siblings| && siblings[i].code > 0
      requires LongEnough(siblings[i].left, siblings[i].right, |w| + 1)
      requires Unordered(siblings[i].left, siblings[i].right, |w| + 1)
      ensures !RunOk(keys, Accepts(), siblings[i])
    {
      GroupedCodes(siblings, lo, hi, |w|);
      hide Grouped;
      var s := siblings[i];
      RunInside(keys, siblings, lo, hi, |w|, i);
      RunRange(keys, siblings, w, lo, hi, i);
      var k {:trigger keys[k]} :| s.left < k < s.right && Code(keys[k - 1], |w| + 1) > Code(keys[k], |w| + 1);
      DescentFails(keys, Accepts(), Extend(w, s.code), s.left, s.right, k);
    }

    /** darts.h insert: place the node of prefix w and everything below it. */
    method Insert(siblings: seq<Sibling>, ghost w: Str, ghost lo: nat, ghost hi: nat, ghost room: nat, ghost cap: nat)
      returns (begin: nat)
      requires 8192 <= |units| == |used| && (values.Values? ==> |values.v| == |keys|)
      requires error >= 0 ==> error == 0 && Insertable(siblings, w, lo, hi, room) && AllSmall(cap)
      modifies `units, `used, `begins, `size, `nextCheckPos, `progress, `error
      ensures |old(units)| <= |units| == |used|
      ensures old(error) < 0 ==> error == old(error) && St() == old(St())
      ensures old(error) == 0 ==> hi <= |keys| && error <= 0 && (error == 0 <==> Buildable(keys, Accepts(), lo, hi))
      ensures error == 0 ==> Added(old(St()), St(), keys, Value(), w, begin, size) && AllSmall(cap)
      ensures error == 0 && old(Empty(units, used, 0)) && old(nextCheckPos) == 0 ==> begin == 1
      decreases room, 1
    {
      hide Consistent, Grouped, Range, Buildable, Added, Built, AllRuns, Codes, Fresh, Within, Small, Capped;
      if error < 0 { return 0; }
      ghost var s0 := St();
      GroupedCodes(siblings, lo, hi, |w|);
      begin := FindSlot(siblings);
      SmallGrown(s0, cap);
      PlaceNode(siblings, begin, s0, w, cap);
      NoRuns(siblings);
      var i := 0;
      while i < |siblings|
        invariant i <= |siblings| && 8192 <= |units| == |used| && |s0.units| <= |units| && error <= 0
        invariant forall j :: 0 <= j < |siblings| ==> begin + siblings[j].code < |units|
        invariant error == 0 <==> AllRuns(keys, Accepts(), siblings, i)
        invariant error == 0 ==> Built(s0, St(), keys, Value(), w, begin, siblings, i, size) && AllSmall(cap)
        decreases |siblings| - i
      {
        var stop := FillSibling(siblings, i, begin, s0, w, lo, hi, room, cap);
        OneMoreRun(siblings, i);
        i := i + 1;
        if stop {
          MoreRunsFail(siblings, i);
          BuildableByRun(keys, Accepts(), siblings, w, lo, hi);
          SomeRun(keys, siblings, lo, hi, |w|);
          return 0;
        }
      }
      BuildableByRun(keys, Accepts(), siblings, w, lo, hi);
      SomeRun(keys, siblings, lo, hi, |w|);
      if error == 0 { BuiltDone(s0, St(), keys, Value(), w, begin, siblings, size, lo, hi); }
    }

    lemma SmallGrown(s0: State, cap: nat)
      requires GrownFrom(s0, St()) && (Capped(cap) ==> Small(s0.units, size, cap))
      ensures AllSmall(cap)
    {
      hide GrownFrom, Small;
      if Capped(cap) { GrownSmall(s0, St(), size, cap); }
    }

    lemma NoRuns(siblings: seq<Sibling>)
      ensures AllRuns(keys, Accepts(), siblings, 0)
    {}

    lemma OneMoreRun(siblings: seq<Sibling>, i: nat)
      requires i < |siblings|
      ensures AllRuns(keys, Accepts(), siblings, i + 1) <==>
              AllRuns(keys, Accepts(), siblings, i) && RunOk(keys, Accepts(), siblings[i])
    {}

    lemma MoreRunsFail(siblings: seq<Sibling>, i: nat)
      requires i <= |siblings| && !AllRuns(keys, Accepts(), siblings, i)
      ensures !AllRuns(keys, Accepts(), siblings, |siblings|)
    {}

    lemma PlacedSizes(s1: State, s2: State, w: Str, begin: nat, siblings: seq<Sibling>)
      requires PlacedAt(s1, s2, w, begin, siblings)
      ensures |s2.units| == |s1.units| && |s2.used| == |s1.used| && begin < |s1.used|
    {}

    lemma GrownSizes(s0: State, s1: State)
      requires GrownFrom(s0, s1)
      ensures |s0.units| <= |s1.units| == |s1.used|
    {}

    /** The base of a leaf: the value of the key's first occurrence, encoded as a negative number. */
    lemma LeafFilled(siblings: seq<Sibling>, w: Str, lo: nat, hi: nat, i: nat, begin: nat, s0: State, s1: State, v: int)
      requires Grouped(keys, siblings, lo, hi, |w|) && Range(keys, w, lo, hi) && i < |siblings| && siblings[i].code == 0
      requires Consistent(s0) && begin < |s1.units| && Built(s0, s1, keys, Value(), w, begin, siblings, i, size)
      requires siblings[i].left < |keys| && (values.Values? ==> |values.v| == |keys|)
      requires v == if values.Values? then values.v[siblings[i].left] else siblings[i].left
      ensures Built(s0, WithBase(s1, begin, -v - 1), keys, Value(), w, begin, siblings, i + 1, size)
      ensures RunOk(keys, Accepts(), siblings[i]) <==> !(values.Values? && v < 0)
    {
      hide Built, BuiltUpTo, Consistent, Range, Buildable;
      RunInside(keys, siblings, lo, hi, |w|, i);
      LeafRun(keys, Accepts(), siblings, w, lo, hi, i);
      BuiltIsUpTo(s0, s1, keys, Value(), w, begin, siblings, i, size);
      assert Value()(siblings[i].left) == v;
      GroupedCodes(siblings, lo, hi, |w|);
      hide Grouped, First;
      assert Filled(WithBase(s1, begin, -v - 1), keys, Value(), w, 0, begin);
      BuiltBase(s0, s1, keys, Value(), w, begin, siblings, i, size, -v - 1);
    }

    /** Before the recursive call nothing at or below the child's prefix has been placed. */
    lemma ChildInsertable(siblings: seq<Sibling>, w: Str, lo: nat, hi: nat, i: nat, begin: nat, s0: State, room: nat,
                          below: seq<Sibling>)
      requires Codes(siblings) && i < |siblings| && siblings[i].code > 0
      requires error == 0 ==> Built(s0, St(), keys, Value(), w, begin, siblings, i, size)
      requires error == 0 ==> Grouped(keys, below, siblings[i].left, siblings[i].right, |w| + 1)
      requires Range(keys, Extend(w, siblings[i].code), siblings[i].left, siblings[i].right)
      requires room > 0 && Within(Extend(w, siblings[i].code), room - 1)
      ensures error == 0 ==>
        Insertable(below, Extend(w, siblings[i].code), siblings[i].left, siblings[i].right, room - 1)
    {
      hide Grouped, Range, Within, Fresh, Placed, Extends, UnderRun, Complete, Consistent;
      if error == 0 { NextRunFresh(s0, St(), keys, Value(), w, begin, siblings, i, size); }
    }

    /** After the recursive call the child's begin is the right base. */
    lemma ChildFilled(siblings: seq<Sibling>, w: Str, lo: nat, hi: nat, i: nat, begin: nat, s0: State, s1: State,
                      s2: State, size1: nat, h: nat)
      requires Codes(siblings) && i < |siblings| && siblings[i].code > 0 && begin + siblings[i].code < |s2.units|
      requires Consistent(s0) && Built(s0, s1, keys, Value(), w, begin, siblings, i, size1)
      requires Added(s1, s2, keys, Value(), Extend(w, siblings[i].code), h, size)
      ensures Built(s0, WithBase(s2, begin + siblings[i].code, h), keys, Value(), w, begin, siblings, i + 1, size)
    {
      hide Built, BuiltUpTo, Consistent, Complete, Extends;
      var p := begin + siblings[i].code;
      BuiltChild(s0, s1, s2, keys, Value(), w, begin, siblings, i, size1, size, h);
      assert Filled(WithBase(s2, p, h), keys, Value(), w, siblings[i].code, p);
      BuiltBase(s0, s2, keys, Value(), w, begin, siblings, i, size, h);
    }

    lemma LeafSmall(i: nat, p: nat, v: int, cap: nat)
      requires i < |keys| && (values.Values? ==> |values.v| == |keys|) && p < |units| && AllSmall(cap)
      requires v == (if values.Values? then values.v[i] else i) && v >= 0
      ensures Capped(cap) ==> Small(units[p := units[p].(base := -v - 1)], size, cap)
    {
      if Capped(cap) {
        assert Value()(i) == v;
        BaseSmall(units, p, -v - 1, size, cap);
      }
    }

    lemma AddedInside(s1: State, s2: State, x: Str, h: nat)
      requires Added(s1, s2, keys, Value(), x, h, size)
      ensures h < size
    {}

    /** Mark the slots found for the node. */
    method PlaceNode(siblings: seq<Sibling>, begin: nat, ghost s0: State, ghost w: Str, ghost cap: nat)
      requires AllSmall(cap)
      requires 8192 <= |units| == |used| && Codes(siblings) && Fits(siblings, begin)
      requires Consistent(s0) && GrownFrom(s0, St()) && Fresh(s0, w)
      requires (forall x :: x in s0.begins ==> s0.begins[x] < size) && size <= |s0.units|
      modifies `units, `used, `begins, `size
      ensures |units| == |old(units)| == |used|
      ensures forall j :: 0 <= j < |siblings| ==> begin + siblings[j].code < |units|
      ensures Built(s0, St(), keys, Value(), w, begin, siblings, 0, size) && AllSmall(cap)
    {
      hide Consistent, Built, Fresh, PlacedAt, GrownFrom, Small, Capped;
      ghost var s1 := St();
      ghost var size0 := size;
      Place(siblings, begin, w);
      PlacedSizes(s1, St(), w, begin, siblings);
      GrownSizes(s0, s1);
      var next := begin + siblings[|siblings| - 1].code + 1;
      if next > size { size := next; }
      if Capped(cap) { PlacedSmall(s1, St(), w, begin, siblings, size0, size, cap); }
      BuiltStart(s0, s1, St(), keys, Value(), w, begin, siblings, size0, size);
    }

    /** The body of the loop over the siblings: a leaf, or the node below. */
    method FillSibling(siblings: seq<Sibling>, i: nat, begin: nat, ghost s0: State, ghost w: Str, ghost lo: nat,
                       ghost hi: nat, ghost room: nat, ghost cap: nat) returns (stop: bool)
      requires 8192 <= |units| == |used| && (values.Values? ==> |values.v| == |keys|)
      requires Grouped(keys, siblings, lo, hi, |w|) && Range(keys, w, lo, hi) && Within(w, room)
      requires i < |siblings| && begin + siblings[i].code < |units| && Consistent(s0) && error <= 0
      requires error == 0 ==> Built(s0, St(), keys, Value(), w, begin, siblings, i, size) && AllSmall(cap)
      modifies `units, `used, `begins, `size, `nextCheckPos, `progress, `error
      ensures |old(units)| <= |units| == |used| && error <= 0
      ensures old(error) < 0 ==> error < 0
      ensures old(error) == 0 ==> (error == 0 <==> RunOk(keys, Accepts(), siblings[i]))
      ensures error == 0 ==> Built(s0, St(), keys, Value(), w, begin, siblings, i + 1, size) && AllSmall(cap)
      ensures stop ==> error < 0
      decreases room, 0
    {
      hide Consistent, Grouped, Range, Buildable, Added, Built, BuiltUpTo, Codes, Fresh, Within, LongEnough, TooShort;
      hide Unordered, Small, Capped;
      var s := siblings[i];
      var p := begin + s.code;
      GroupedCodes(siblings, lo, hi, |w|);
      RunLengths(siblings, w, lo, hi, i, room);
      var n, below := Fetch(s);
      GroupedSome(below, s.left, s.right, s.depth);
      if n == 0 {
        var v := if values.Values? then values.v[s.left] else s.left;
        ghost var s1 := St();
        if error == 0 && (values.Values? ==> v >= 0) { LeafSmall(s.left, p, v, cap); }
        units := units[p := units[p].(base := -v - 1)];
        if old(error) == 0 {
          if s.code == 0 {
            LeafFilled(siblings, w, lo, hi, i, begin, s0, s1, v);
          } else {
            OutOfOrder(siblings, w, lo, hi, i);
          }
        }
        if values.Values? && -v - 1 >= 0 {
          error := -2;
          return true;
        }
        progress := progress + 1;
        return false;
      } else {
        ghost var x := Extend(w, s.code);
        ghost var s1 := St();
        ghost var size1 := size;
        RunRange(keys, siblings, w, lo, hi, i);
        ChildInsertable(siblings, w, lo, hi, i, begin, s0, room, below);
        var h := Insert(below, x, s.left, s.right, room - 1, cap);
        ghost var s2 := St();
        if error == 0 { ChildFilled(siblings, w, lo, hi, i, begin, s0, s1, s2, size1, h); }
        if error == 0 {
          AddedInside(s1, s2, x, h);
          if Capped(cap) { BaseSmall(units, p, h, size, cap); }
        }
        units := units[p := units[p].(base := h)];
        return false;
      }
    }

    /** The keys ks with values vs can be packed: they ascend, and the first of equal keys has a value of at least 0. */
    static ghost predicate Acceptable(ks: seq<Str>, vs: Values) {
      && (forall k {:trigger ks[k]} :: 0 < k < |ks| ==> Leq(ks[k - 1], ks[k]))
      && (vs.Values? ==> forall k :: 0 <= k < |ks| && k < |vs.v| && IsNew(ks, k) ==> vs.v[k] >= 0)
    }

    /** The part of the array that is saved to a file: its first size slots. */
    ghost function Image(): seq<Unit>
      reads `units, `size
      requires size <= |units|
    {
      units[..size]
    }

    /** The array as a whole and its image both hold the keys. */
    ghost predicate Ready()
      reads `units, `size, `begins, `keys, `values
    {
      && size <= |units| && Packed(units, begins, keys, Value()) && Packed(Image(), begins, keys, Value())
      && SlotsOwned(units, begins, keys) && SlotsOwned(Image(), begins, keys)
    }

    /** clear: the arrays are given up; an error of an earlier build stays. */
    method Clear()
      modifies `units, `used, `size, `begins
      ensures units == [] && used == [] && size == 0 && begins == map[]
    {
      units, used, size, begins := [], [], 0, map[];
    }

    /** build, on a new or cleared object; on another one the source would copy from the freed used_. An error of an
        earlier build is never reset. */
    method Build(ks: seq<Str>, vs: Values, ghost cap: nat) returns (r: int)
      requires vs.Values? ==> |vs.v| == |ks|
      requires units == [] && used == [] && size == 0 && begins == map[] && error <= 0
      modifies this
      ensures ks == [] ==> r == 0 && units == [] && size == 0
      ensures ks != [] && old(error) < 0 ==> r == old(error)
      ensures ks != [] && old(error) == 0 ==> r == error <= 0 && (r == 0 <==> Acceptable(ks, vs))
      ensures ks != [] ==> keys == ks && values == vs
      ensures ks != [] && r == 0 ==> Ready() && AllSmall(cap)
    {
      hide Consistent, GrownFrom, Acceptable, Insertable, Grouped, Buildable, Added, Packed, Leq, Small, Capped;
      hide LongEnough, TooShort, Unordered;
      if ks == [] { return 0; }
      Start(ks, vs, cap);
      ghost var s0 := St();
      ghost var room := LongestKey(ks);
      RootKeys();
      var n, siblings := Fetch(Sibling(0, 0, 0, |ks|));
      RootInsertable(siblings, room);
      if error < 0 && old(error) == 0 { RootUnordered(); }
      var root := Insert(siblings, [], 0, |ks|, room, cap);
      ghost var s1 := St();
      ghost var size1 := size;
      Pad(cap);
      AcceptableIsBuildable();
      if error == 0 { RootFinish(s0, s1, root, size1); }
      r := error;
    }

    /** The empty arrays, with the base of the root. */
    method Start(ks: seq<Str>, vs: Values, ghost cap: nat)
      requires units == [] && used == [] && size == 0 && begins == map[]
      modifies `units, `used, `keys, `values, `progress, `nextCheckPos
      ensures keys == ks && values == vs && nextCheckPos == 0 && |units| == |used| == 8192
      ensures Consistent(St()) && Empty(units, used, 0) && AllSmall(cap)
    {
      hide Consistent, Capped, Small;
      keys, values, progress := ks, vs, 0;
      Resize(8192);
      units := units[0 := units[0].(base := 1)];
      nextCheckPos := 0;
      EmptyStart();
      EmptySmall(cap);
    }

    /** 257 slots more than were used, so that walks stay inside; used_ is deleted. */
    method Pad(ghost cap: nat)
      requires |units| == |used|
      modifies `units, `used, `size
      ensures size == old(size) + 257 <= |units| && Longer(old(units), units) && used == []
      ensures error == 0 && old(AllSmall(cap)) ==> AllSmall(cap)
    {
      hide Longer, Capped, Small;
      ghost var s1, size1 := St(), size;
      size := size + 257;
      if size >= |units| { Resize(size); }
      GrownLonger(s1);
      LongerSmall(s1.units, size1, cap);
      used := [];
    }

    lemma EmptyStart()
      requires |units| == 8192 && |used| == 8192 && begins == map[] && units[0] == Unit(1, 0)
      requires forall p :: 0 < p < 8192 ==> units[p] == Unit(0, 0)
      requires forall p :: 0 <= p < 8192 ==> !used[p]
      ensures Consistent(St()) && Empty(units, used, 0)
    {}

    lemma EmptySmall(cap: nat)
      requires |units| > 0 && units[0] == Unit(1, 0) && forall p :: 0 < p < |units| ==> units[p] == Unit(0, 0)
      ensures AllSmall(cap)
    {}

    lemma LongerSmall(before: seq<Unit>, size0: nat, cap: nat)
      ensures Longer(before, units) && size0 <= size && (Capped(cap) ==> Small(before, size0, cap)) ==> AllSmall(cap)
    {}

    static lemma {:induction false} LongestKey(ks: seq<Str>) returns (n: nat)
      ensures forall k :: 0 <= k < |ks| ==> |ks[k]| <= n
    {
      n := 0;
      if ks != [] {
        var m := LongestKey(ks[1..]);
        n := if m > |ks[0]| then m else |ks[0]|;
        forall k | 0 <= k < |ks| ensures |ks[k]| <= n { if k > 0 { assert ks[k] == ks[1..][k - 1]; } }
      }
    }

    lemma RootKeys()
      requires keys != []
      ensures LongEnough(0, |keys|, 0)
    {}

    lemma RootInsertable(siblings: seq<Sibling>, room: nat)
      requires forall k :: 0 <= k < |keys| ==> |keys[k]| <= room
      requires Consistent(St()) && begins == map[] && size == 0
      ensures Grouped(keys, siblings, 0, |keys|, 0) ==> Insertable(siblings, [], 0, |keys|, room)
    {
      hide Consistent, Grouped;
    }

    /** Keys whose first codes descend are not acceptable. */
    lemma RootUnordered()
      requires LongEnough(0, |keys|, 0) && Unordered(0, |keys|, 0)
      ensures !Acceptable(keys, values)
    {
      var k {:trigger keys[k]} :| 0 < k < |keys| && Code(keys[k - 1], 0) > Code(keys[k], 0);
      CodeOrder([], keys[k - 1], keys[k]);
    }

    lemma AcceptableIsBuildable()
      requires values.Values? ==> |values.v| == |keys|
      ensures Acceptable(keys, values) <==> Buildable(keys, Accepts(), 0, |keys|)
    {
      hide Leq;
    }

    /** b is a with empty slots appended. */
    static ghost predicate Longer(a: seq<Unit>, b: seq<Unit>) {
      |a| <= |b| && forall p :: 0 <= p < |b| ==> b[p] == if p < |a| then a[p] else Unit(0, 0)
    }

    lemma GrownLonger(s1: State)
      ensures GrownFrom(s1, St()) || s1.units == units ==> Longer(s1.units, units)
    {}

    lemma RootFinish(s0: State, s1: State, root: nat, size1: nat)
      requires keys != [] && (values.Values? ==> |values.v| == |keys|) && Buildable(keys, Accepts(), 0, |keys|)
      requires s0.begins == map[] && begins == s1.begins && root == 1 && size == size1 + 257 && size <= |units|
      requires Added(s0, s1, keys, Value(), [], root, size1) && Longer(s1.units, units)
      ensures Ready()
    {
      hide Added, Buildable, Packed, SlotsOwned;
      FinishOwned(s0, s1, keys, Value(), size1, units);
      FinishOwned(s0, s1, keys, Value(), size1, Image());
      Finish(s0, s1, keys, Value(), Accepts(), size1, units);
      Finish(s0, s1, keys, Value(), Accepts(), size1, Image());
    }

    // ---------- searching ----------

    /** set_array: search an image made by another object. */
    method SetArray(image: seq<Unit>, n: nat, ghost at: map<Str, nat>)
      modifies `units, `used, `size, `begins
      ensures units == image && size == n && begins == at && used == []
    {
      units, used, size, begins := image, [], n, at;
    }

    /** exactMatchSearch from the position of prefix w: the value stored for w + key, or -1. */
    method ExactMatchSearch(str: Str, len: nat, nodePos: nat, ghost w: Str, ghost ks: seq<Str>, ghost value: int -> int)
      returns (r: int)
      requires Packed(units, begins, ks, value) && NodeAt(units, begins, ks, w, nodePos) && len <= |str|
      ensures r == Lookup(ks, value, w + Query(str, len))
      ensures r == -1 <==> w + Query(str, len) !in ks
    {
      hide Packed, HasPrefix;
      var key := Query(str, len);
      var b := units[nodePos].base;
      assert w + key[..0] == w;
      for i := 0 to |key|
        invariant w + key[..i] in begins && b == begins[w + key[..i]]
      {
        Follow(units, begins, ks, value, w + key[..i], key[i]);
        var p := b + key[i] as nat + 1;
        if b == units[p].check {
          b := units[p].base;
          assert w + key[..i] + [key[i]] == w + key[..i + 1];
        } else {
          DeadEnd(ks, w, key, i, |key|);
          assert key[..|key|] == key;
          return -1;
        }
      }
      assert key[..|key|] == key;
      AtEnd(units, begins, ks, value, w + key);
      var n := units[b].base;
      r := if b == units[b].check && n < 0 then -n - 1 else -1;
    }

    /** commonPrefixSearch: all keys that are w followed by a prefix of key, shortest first; at most resultLen are
        stored. */
    method CommonPrefixSearch(str: Str, len: nat, resultLen: nat, nodePos: nat, ghost w: Str, ghost ks: seq<Str>,
                              ghost value: int -> int)
      returns (num: nat, result: seq<Hit>)
      requires Packed(units, begins, ks, value) && NodeAt(units, begins, ks, w, nodePos) && len <= |str|
      ensures var key := Query(str, len); var hits := Hits(ks, value, w, key, |key| + 1);
        num == |hits| && result == hits[..if num < resultLen then num else resultLen]
    {
      hide Packed, HasPrefix;
      var key := Query(str, len);
      var b := units[nodePos].base;
      num, result := 0, [];
      assert w + key[..0] == w;
      for i := 0 to |key|
        invariant w + key[..i] in begins && b == begins[w + key[..i]]
        invariant Reported(num, result, resultLen, Hits(ks, value, w, key, i))
      {
        AtEnd(units, begins, ks, value, w + key[..i]);
        var n := units[b].base;
        if b == units[b].check && n < 0 {
          if num < resultLen { result := result + [Hit(-n - 1, i)]; }
          num := num + 1;
        }
        Follow(units, begins, ks, value, w + key[..i], key[i]);
        var p := b + key[i] as nat + 1;
        if b == units[p].check {
          b := units[p].base;
          assert w + key[..i] + [key[i]] == w + key[..i + 1];
        } else {
          NoMoreHits(ks, value, w, key, i, |key| + 1);
          return;
        }
      }
      AtEnd(units, begins, ks, value, w + key[..|key|]);
      var n := units[b].base;
      if b == units[b].check && n < 0 {
        if num < resultLen { result := result + [Hit(-n - 1, |key|)]; }
        num := num + 1;
      }
    }

    static ghost predicate Reported(num: nat, result: seq<Hit>, resultLen: nat, hits: seq<Hit>) {
      num == |hits| && result == hits[..if num < resultLen then num else resultLen]
    }

    /** traverse: go on from the position of prefix w over the key from keyPos on; both positions move as far as some
        key goes. */
    method Traverse(str: Str, nodePos: nat, keyPos: nat, len: nat, ghost w: Str, ghost ks: seq<Str>,
                    ghost value: int -> int)
      returns (r: int, nodePos': nat, keyPos': nat)
      requires Packed(units, begins, ks, value) && NodeAt(units, begins, ks, w, nodePos) && len <= |str|
      ensures keyPos <= keyPos'
      ensures Walked(units, begins, ks, value, w, From(Query(str, len), keyPos), r, nodePos', keyPos' - keyPos)
    {
      hide Packed, HasPrefix;
      var key := Query(str, len);
      ghost var q := From(key, keyPos);
      nodePos', keyPos' := nodePos, keyPos;
      var b := units[nodePos].base;
      assert w + q[..0] == w;
      while keyPos' < |key|
        invariant keyPos <= keyPos' <= keyPos + |q| && NodeAt(units, begins, ks, w + q[..keyPos' - keyPos], nodePos')
        invariant b == begins[w + q[..keyPos' - keyPos]]
      {
        ghost var n := keyPos' - keyPos;
        ghost var x := w + q[..n];
        Follow(units, begins, ks, value, x, key[keyPos']);
        assert x + [key[keyPos']] == w + q[..n + 1];
        var p := b + key[keyPos'] as nat + 1;
        if b == units[p].check {
          nodePos' := p;
          b := units[p].base;
        } else {
          DeadEnd(ks, w, q, n, |q|);
          assert q[..|q|] == q;
          return -2, nodePos', keyPos';
        }
        keyPos' := keyPos' + 1;
      }
      assert q[..keyPos' - keyPos] == q;
      AtEnd(units, begins, ks, value, w + q);
      var n := units[b].base;
      r := if b == units[b].check && n < 0 then -n - 1 else -1;
      NodeReport(units, begins, ks, value, w + q, nodePos');
    }
  }

  /** What is searched for: a length of 0 means all up to the NUL. */
  function Query(str: Str, len: nat): (q: Str)
    requires len <= |str|
    ensures len > 0 ==> q == str[..len]
    ensures len == 0 ==> q <= str && 0 !in q && (q == str || str[|q|] == 0)
  {
    if len == 0 then str[..IndexOf(str, [0])] else str[..len]
  }

  /** What is left of the key from a position on. */
  ghost function From(key: Str, pos: nat): Str {
    if pos <= |key| then key[pos..] else []
  }

  lemma NodeReport(units: seq<Unit>, begins: map<Str, nat>, keys: seq<Str>, value: int -> int, x: Str, pos: nat)
    requires Packed(units, begins, keys, value) && NodeAt(units, begins, keys, x, pos)
    ensures Report(keys, value, x) == Lookup(keys, value, x) >= -1
  {
    ReportMeans(units, begins, keys, value, x);
  }
}
