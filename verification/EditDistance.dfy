/** gtest.cc edit_distance: filling the table of costs and reading the script off it. */
module EditDistance {
  import opened EditScript

  function Reversed<T>(s: seq<T>): seq<T> {
    if s == [] then [] else [s[|s| - 1]] + Reversed(s[..|s| - 1])
  }

  /** One cell of both tables is filled in. */
  ghost predicate Filled(costs: array2<real>, bestMove: array2<Edit>, left: seq<nat>, right: seq<nat>, i: int, j: int)
    requires 0 <= i <= |left| && 0 <= j <= |right| && Sized(costs, bestMove, left, right)
    reads costs, bestMove
  {
    costs[i, j] == Table(left, right, i, j) && (i > 0 || j > 0 ==> bestMove[i, j] == Move(left, right, i, j))
  }

  ghost predicate Sized(costs: array2<real>, bestMove: array2<Edit>, left: seq<nat>, right: seq<nat>) {
    costs.Length0 == bestMove.Length0 == |left| + 1 && costs.Length1 == bestMove.Length1 == |right| + 1
  }

  /** The rows above i are filled in, and so are the first j cells of row i, the first row and the first column. */
  ghost predicate FilledUpTo(costs: array2<real>, bestMove: array2<Edit>, left: seq<nat>, right: seq<nat>, i: int,
                             j: int)
    requires Sized(costs, bestMove, left, right)
    reads costs, bestMove
  {
    forall a, b :: 0 <= a <= |left| && 0 <= b <= |right| && (a < i || (a == i && b < j) || a == 0 || b == 0) ==>
      Filled(costs, bestMove, left, right, a, b)
  }

  /** The two loops for an empty right and an empty left side. */
  method FillEdges(costs: array2<real>, bestMove: array2<Edit>, left: seq<nat>, right: seq<nat>)
    requires Sized(costs, bestMove, left, right)
    modifies costs, bestMove
    ensures FilledUpTo(costs, bestMove, left, right, 1, 1)
  {
    var l := 0;
    while l < costs.Length0
      invariant l <= costs.Length0
      invariant forall a :: 0 <= a < l ==> costs[a, 0] == a as real && bestMove[a, 0] == Remove
    {
      costs[l, 0] := l as real;
      bestMove[l, 0] := Remove;
      l := l + 1;
    }
    var r := 1;
    while r < costs.Length1
      invariant 1 <= r <= costs.Length1
      invariant forall a :: 0 <= a < costs.Length0 ==> costs[a, 0] == a as real && bestMove[a, 0] == Remove
      invariant forall b :: 1 <= b < r ==> costs[0, b] == b as real && bestMove[0, b] == Add
    {
      costs[0, r] := r as real;
      bestMove[0, r] := Add;
      r := r + 1;
    }
  }

  /** The body of the main loop: a match, or the choice among three. */
  method FillCell(costs: array2<real>, bestMove: array2<Edit>, left: seq<nat>, right: seq<nat>, l: nat, r: nat)
    requires Sized(costs, bestMove, left, right) && l < |left| && r < |right|
    requires FilledUpTo(costs, bestMove, left, right, l + 1, r + 1)
    modifies costs, bestMove
    ensures FilledUpTo(costs, bestMove, left, right, l + 1, r + 2)
  {
    hide Choice;
    assert Filled(costs, bestMove, left, right, l, r) && Filled(costs, bestMove, left, right, l, r + 1)
        && Filled(costs, bestMove, left, right, l + 1, r);
    if left[l] == right[r] {
      costs[l + 1, r + 1] := costs[l, r];
      bestMove[l + 1, r + 1] := Match;
    } else {
      var add := costs[l + 1, r];
      var remove := costs[l, r + 1];
      var replace := costs[l, r];
      var e := Choose(add, remove, replace);
      costs[l + 1, r + 1] := (if e == Add then add + 1.0 else if e == Remove then remove + 1.0 else replace + 1.00001);
      bestMove[l + 1, r + 1] := e;
      CellChosen(left, right, l + 1, r + 1);
    }
    hide Table, Move;
    assert Filled(costs, bestMove, left, right, l + 1, r + 1);
    forall a, b | 0 <= a <= |left| && 0 <= b <= |right| && (a < l + 1 || (a == l + 1 && b < r + 1) || a == 0 || b == 0)
      ensures Filled(costs, bestMove, left, right, a, b)
    {
      assert old(Filled(costs, bestMove, left, right, a, b));
    }
  }

  /** The three-way comparison. */
  method Choose(add: real, remove: real, replace: real) returns (e: Edit)
    ensures e == Choice(add, remove, replace)
  {
    if add < remove && add < replace {
      e := Add;
    } else if remove < add && remove < replace {
      e := Remove;
    } else {
      e := Replace;
    }
  }

  lemma CellChosen(left: seq<nat>, right: seq<nat>, i: nat, j: nat)
    requires 0 < i <= |left| && 0 < j <= |right| && left[i - 1] != right[j - 1]
    ensures var a, r, d := Table(left, right, i, j - 1), Table(left, right, i - 1, j), Table(left, right, i - 1, j - 1);
      var e := Choice(a, r, d);
      Table(left, right, i, j) == (if e == Add then a + 1.0 else if e == Remove then r + 1.0 else d + 1.00001)
  {}

  method FillTable(costs: array2<real>, bestMove: array2<Edit>, left: seq<nat>, right: seq<nat>)
    requires Sized(costs, bestMove, left, right)
    modifies costs, bestMove
    ensures FilledUpTo(costs, bestMove, left, right, |left| + 1, 0)
  {
    hide Filled;
    FillEdges(costs, bestMove, left, right);
    for l := 0 to |left|
      invariant FilledUpTo(costs, bestMove, left, right, l + 1, 0)
    {
      for r := 0 to |right|
        invariant FilledUpTo(costs, bestMove, left, right, l + 1, r + 1)
      {
        FillCell(costs, bestMove, left, right, l, r);
      }
    }
  }

  /** CalculateOptimalEdits on line ids: the script that the table's best moves describe. */
  method OptimalEditsOfIds(left: seq<nat>, right: seq<nat>) returns (bestPath: Script)
    ensures bestPath == Path(left, right, |left|, |right|)
  {
    hide FilledUpTo, Path;
    var costs := new real[|left| + 1, |right| + 1];
    var bestMove := new Edit[|left| + 1, |right| + 1];
    FillTable(costs, bestMove, left, right);
    bestPath := Reconstruct(costs, bestMove, left, right);
  }

  /** The path is read off from its end, and reversed. */
  method Reconstruct(costs: array2<real>, bestMove: array2<Edit>, left: seq<nat>, right: seq<nat>)
    returns (bestPath: Script)
    requires Sized(costs, bestMove, left, right) && FilledUpTo(costs, bestMove, left, right, |left| + 1, 0)
    ensures bestPath == Path(left, right, |left|, |right|)
  {
    hide FilledUpTo, Path, Move, Reversed;
    bestPath := [];
    var l: nat, r: nat := |left|, |right|;
    NothingLeft(left, right);
    while l > 0 || r > 0
      invariant l <= |left| && r <= |right|
      invariant Path(left, right, |left|, |right|) == Path(left, right, l, r) + Reversed(bestPath)
      decreases l + r
    {
      MoveStored(costs, bestMove, left, right, l, r);
      LastMove(left, right, l, r, bestPath);
      var move := bestMove[l, r];
      bestPath := bestPath + [move];
      l, r := if move == Add then l else l - 1, if move == Remove then r else r - 1;
    }
    bestPath := Reversed(bestPath);
  }

  lemma NothingLeft(left: seq<nat>, right: seq<nat>)
    ensures Path(left, right, 0, 0) == [] && Reversed<Edit>([]) == []
  {}

  /** The path ends in the stored move. */
  lemma LastMove(left: seq<nat>, right: seq<nat>, i: nat, j: nat, tail: Script)
    requires i <= |left| && j <= |right| && (i > 0 || j > 0)
    ensures var m := Move(left, right, i, j);
      && (m == Add || i > 0) && (m == Remove || j > 0)
      && Path(left, right, i, j) + Reversed(tail) ==
           Path(left, right, if m == Add then i else i - 1, if m == Remove then j else j - 1) + Reversed(tail + [m])
  {
    hide Move, Path, Reversed;
    MoveStays(left, right, i, j);
    PathEnds(left, right, i, j);
    ReversedMore(tail, Move(left, right, i, j));
  }

  lemma PathEnds(left: seq<nat>, right: seq<nat>, i: nat, j: nat)
    requires i <= |left| && j <= |right| && (i > 0 || j > 0)
    requires var m := Move(left, right, i, j); (m == Add || i > 0) && (m == Remove || j > 0)
    ensures var m := Move(left, right, i, j);
      Path(left, right, i, j) ==
        Path(left, right, if m == Add then i else i - 1, if m == Remove then j else j - 1) + [m]
  {
    hide Move;
  }

  lemma ReversedMore<T>(s: seq<T>, x: T)
    ensures Reversed(s + [x]) == [x] + Reversed(s)
  {
    assert (s + [x])[..|s|] == s;
  }

  lemma MoveStored(costs: array2<real>, bestMove: array2<Edit>, left: seq<nat>, right: seq<nat>, i: nat, j: nat)
    requires Sized(costs, bestMove, left, right) && FilledUpTo(costs, bestMove, left, right, |left| + 1, 0)
    requires i <= |left| && j <= |right| && (i > 0 || j > 0)
    ensures bestMove[i, j] == Move(left, right, i, j)
  {
    assert Filled(costs, bestMove, left, right, i, j);
  }

  lemma MoveStays<T>(left: seq<T>, right: seq<T>, i: nat, j: nat)
    requires i <= |left| && j <= |right| && (i > 0 || j > 0)
    ensures Move(left, right, i, j) == Add || i > 0
    ensures Move(left, right, i, j) == Remove || j > 0
  {}

  // ---------- strings ----------

  /** class InternalStrings: equal strings get equal ids, different ones different ids. */
  class InternalStrings {
    var ids: map<string, nat>

    ghost predicate Valid()
      reads this
    {
      && (forall s :: s in ids ==> ids[s] < |ids|)
      && (forall s, t :: s in ids && t in ids && ids[s] == ids[t] ==> s == t)
    }

    constructor ()
      ensures Valid() && ids == map[]
    {
      ids := map[];
    }

    method GetId(str: string) returns (id: nat)
      requires Valid()
      modifies this
      ensures Valid() && str in ids && id == ids[str] && Kept(old(ids), ids)
    {
      if str in ids { return ids[str]; }
      id := |ids|;
      ids := ids[str := id];
    }

    /** One id per line. */
    method GetIds(lines: seq<string>) returns (r: seq<nat>)
      requires Valid()
      modifies this
      ensures Valid() && IdsOf(ids, lines, r) && Kept(old(ids), ids)
    {
      hide IdsOf, Kept, Valid;
      r := [];
      NoIds(ids);
      for i := 0 to |lines|
        invariant Valid() && IdsOf(ids, lines[..i], r) && Kept(old(ids), ids)
      {
        ghost var before := ids;
        var id := GetId(lines[i]);
        assert lines[..i + 1] == lines[..i] + [lines[i]];
        OneMoreId(old(ids), before, ids, lines[..i], r, lines[i], id);
        r := r + [id];
      }
      assert lines[..|lines|] == lines;
    }
  }

  /** Ids that were given stay. */
  ghost predicate Kept(before: map<string, nat>, after: map<string, nat>) {
    forall s :: s in before ==> s in after && after[s] == before[s]
  }

  lemma NoIds(ids: map<string, nat>)
    ensures IdsOf(ids, [], []) && Kept(ids, ids)
  {}

  lemma OneMoreId(ids0: map<string, nat>, ids1: map<string, nat>, ids2: map<string, nat>, lines: seq<string>,
                  r: seq<nat>, line: string, id: nat)
    requires Kept(ids0, ids1) && Kept(ids1, ids2) && IdsOf(ids1, lines, r) && line in ids2 && ids2[line] == id
    ensures Kept(ids0, ids2) && IdsOf(ids2, lines + [line], r + [id])
  {}

  ghost predicate IdsOf(ids: map<string, nat>, lines: seq<string>, r: seq<nat>) {
    |r| == |lines| && forall i :: 0 <= i < |lines| ==> lines[i] in ids && r[i] == ids[lines[i]]
  }

  /** The same lines are equal in both pairs. */
  ghost predicate Alike<T, U>(left: seq<T>, right: seq<T>, l: seq<U>, r: seq<U>) {
    && |l| == |left| && |r| == |right|
    && forall a, b :: 0 <= a < |left| && 0 <= b < |right| ==> (left[a] == right[b] <==> l[a] == r[b])
  }

  /** Lines that are equal in the same places have the same table and the same moves. */
  lemma {:induction false} SameTable<T, U>(left: seq<T>, right: seq<T>, l: seq<U>, r: seq<U>, i: nat, j: nat)
    requires Alike(left, right, l, r) && i <= |left| && j <= |right|
    ensures Table(left, right, i, j) == Table(l, r, i, j) && Move(left, right, i, j) == Move(l, r, i, j)
    decreases i + j
  {
    hide Choice;
    if i > 0 && j > 0 {
      SameTable(left, right, l, r, i - 1, j - 1);
      SameTable(left, right, l, r, i - 1, j);
      SameTable(left, right, l, r, i, j - 1);
    }
  }

  /** So they have the same path. */
  lemma {:induction false} SamePath<T, U>(left: seq<T>, right: seq<T>, l: seq<U>, r: seq<U>, i: nat, j: nat)
    requires Alike(left, right, l, r) && i <= |left| && j <= |right|
    ensures Path(left, right, i, j) == Path(l, r, i, j)
    decreases i + j
  {
    hide Table, Move, Alike;
    if i > 0 || j > 0 {
      AlikeSizes(left, right, l, r);
      SameTable(left, right, l, r, i, j);
      MoveStays(left, right, i, j);
      var m := Move(left, right, i, j);
      SamePath(left, right, l, r, if m == Add then i else i - 1, if m == Remove then j else j - 1);
    }
  }

  lemma AlikeSizes<T, U>(left: seq<T>, right: seq<T>, l: seq<U>, r: seq<U>)
    requires Alike(left, right, l, r)
    ensures |l| == |left| && |r| == |right|
  {}

  /** CalculateOptimalEdits on lines: a script that turns left into right, as cheap as the table says. */
  method CalculateOptimalEdits(left: seq<string>, right: seq<string>) returns (edits: Script)
    ensures edits == Path(left, right, |left|, |right|)
    ensures Replays(edits, left, right, |left|, |right|) && Cost(edits) == Table(left, right, |left|, |right|)
    ensures Cheapest(edits, left, right) <==> MovesWell(left, right, |left|, |right|)
    ensures NeverMisses(left, right) ==> Cheapest(edits, left, right)
  {
    hide Replays, Cost, Table, Path, NeverMisses, Optimal, MovesWell, Cheapest;
    var table := new InternalStrings();
    var l := table.GetIds(left);
    var r := table.GetIds(right);
    SamePath(left, right, l, r, |left|, |right|);
    edits := OptimalEditsOfIds(l, r);
    PathReplays(left, right, |left|, |right|);
    OptimalIffNeverMisses(left, right);
    OptimalIffMovesWell(left, right, |left|, |right|);
    if Optimal(left, right, |left|, |right|) { CheapestIfOptimal(edits, left, right); }
    if Cheapest(edits, left, right) { OptimalIfCheapest(edits, left, right); }
  }
}
