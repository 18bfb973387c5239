/** gtest.cc edit_distance: edit scripts, their table of costs, and when that table is optimal. */
module EditScript {

  datatype Edit = Match | Add | Remove | Replace

  type Script = seq<Edit>

  /** The cost of one edit: replacing is a little dearer than adding or removing. */
  ghost function EditCost(e: Edit): real {
    match e
    case Match => 0.0
    case Add => 1.0
    case Remove => 1.0
    case Replace => 1.00001
  }

  ghost function Cost(s: Script): real {
    if s == [] then 0.0 else Cost(s[..|s| - 1]) + EditCost(s[|s| - 1])
  }

  /** Replaying s over the first i lines of left gives the first j lines of right; matches are real matches. */
  ghost predicate Replays<T>(s: Script, left: seq<T>, right: seq<T>, i: nat, j: nat)
    requires i <= |left| && j <= |right|
    decreases |s|
  {
    if s == [] then i == 0 && j == 0
    else
      var most := s[..|s| - 1];
      match s[|s| - 1]
      case Match => i > 0 && j > 0 && left[i - 1] == right[j - 1] && Replays(most, left, right, i - 1, j - 1)
      case Add => j > 0 && Replays(most, left, right, i, j - 1)
      case Remove => i > 0 && Replays(most, left, right, i - 1, j)
      case Replace => i > 0 && j > 0 && Replays(most, left, right, i - 1, j - 1)
  }

  lemma ReplaysMore<T>(s: Script, e: Edit, left: seq<T>, right: seq<T>, i: nat, j: nat)
    requires i <= |left| && j <= |right|
    ensures (s + [e])[..|s|] == s && Cost(s + [e]) == Cost(s) + EditCost(e)
    ensures e == Add && j < |right| ==> (Replays(s + [e], left, right, i, j + 1) <==> Replays(s, left, right, i, j))
    ensures e == Remove && i < |left| ==> (Replays(s + [e], left, right, i + 1, j) <==> Replays(s, left, right, i, j))
    ensures e == Replace && i < |left| && j < |right| ==>
      (Replays(s + [e], left, right, i + 1, j + 1) <==> Replays(s, left, right, i, j))
    ensures e == Match && i < |left| && j < |right| ==>
      (Replays(s + [e], left, right, i + 1, j + 1) <==> left[i] == right[j] && Replays(s, left, right, i, j))
  {
    assert (s + [e])[..|s|] == s;
  }

  // ---------- the table ----------

  /** The move that the table stores for a pair of prefixes with different last lines. */
  ghost function Choice(add: real, remove: real, replace: real): Edit {
    if add < remove && add < replace then Add
    else if remove < add && remove < replace then Remove
    else Replace
  }

  /** costs[i][j]. */
  ghost function Table<T>(left: seq<T>, right: seq<T>, i: nat, j: nat): real
    requires i <= |left| && j <= |right|
    decreases i + j
  {
    if j == 0 then i as real
    else if i == 0 then j as real
    else if left[i - 1] == right[j - 1] then Table(left, right, i - 1, j - 1)
    else
      var add, remove := Table(left, right, i, j - 1), Table(left, right, i - 1, j);
      var replace := Table(left, right, i - 1, j - 1);
      match Choice(add, remove, replace)
      case Add => add + 1.0
      case Remove => remove + 1.0
      case _ => replace + 1.00001
  }

  /** best_move[i][j]. */
  ghost function Move<T>(left: seq<T>, right: seq<T>, i: nat, j: nat): Edit
    requires i <= |left| && j <= |right|
  {
    if j == 0 then Remove
    else if i == 0 then Add
    else if left[i - 1] == right[j - 1] then Match
    else Choice(Table(left, right, i, j - 1), Table(left, right, i - 1, j), Table(left, right, i - 1, j - 1))
  }

  /** The path that the stored moves describe. */
  ghost function Path<T>(left: seq<T>, right: seq<T>, i: nat, j: nat): Script
    requires i <= |left| && j <= |right|
    decreases i + j
  {
    if i == 0 && j == 0 then []
    else
      var m := Move(left, right, i, j);
      Path(left, right, if m == Add then i else i - 1, if m == Remove then j else j - 1) + [m]
  }

  lemma NoEdits<T>(left: seq<T>, right: seq<T>)
    ensures Replays([], left, right, 0, 0) && Cost([]) == 0.0
  {}

  lemma ChoiceOf(add: real, remove: real, replace: real)
    ensures Choice(add, remove, replace) != Match
  {}

  /** The path is a script for the two prefixes, and its cost is the one in the table. */
  lemma {:induction false} PathReplays<T>(left: seq<T>, right: seq<T>, i: nat, j: nat)
    requires i <= |left| && j <= |right|
    ensures Replays(Path(left, right, i, j), left, right, i, j)
    ensures Cost(Path(left, right, i, j)) == Table(left, right, i, j)
    decreases i + j
  {
    hide Replays, Cost, Choice;
    if i == 0 && j == 0 {
      NoEdits(left, right);
    } else {
      var m := Move(left, right, i, j);
      var i', j' := if m == Add then i else i - 1, if m == Remove then j else j - 1;
      if i > 0 && j > 0 {
        ChoiceOf(Table(left, right, i, j - 1), Table(left, right, i - 1, j), Table(left, right, i - 1, j - 1));
      }
      PathReplays(left, right, i', j');
      ReplaysMore(Path(left, right, i', j'), m, left, right, i', j');
    }
  }

  // ---------- optimality ----------

  /** At this pair of prefixes replacing is chosen although adding or removing would be cheaper. */
  ghost predicate Misses<T>(left: seq<T>, right: seq<T>, i: nat, j: nat)
    requires 0 < i <= |left| && 0 < j <= |right|
  {
    var add, remove := Table(left, right, i, j - 1), Table(left, right, i - 1, j);
    var replace := Table(left, right, i - 1, j - 1);
    && left[i - 1] != right[j - 1]
    && Choice(add, remove, replace) == Replace
    && (add + 1.0 < replace + 1.00001 || remove + 1.0 < replace + 1.00001)
  }

  ghost predicate NeverMisses<T>(left: seq<T>, right: seq<T>) {
    forall i, j :: 0 < i <= |left| && 0 < j <= |right| ==> !Misses(left, right, i, j)
  }

  /** No script for the two prefixes is cheaper than the table says. */
  ghost predicate Optimal<T>(left: seq<T>, right: seq<T>, i: nat, j: nat)
    requires i <= |left| && j <= |right|
  {
    forall s :: Replays(s, left, right, i, j) ==> Cost(s) >= Table(left, right, i, j)
  }

  /** A cell that does not miss holds the least of its three alternatives, unless the lines match. */
  lemma TableStep<T>(left: seq<T>, right: seq<T>, i: nat, j: nat)
    requires 0 < i <= |left| && 0 < j <= |right| && !Misses(left, right, i, j)
    ensures var t, d := Table(left, right, i, j), Table(left, right, i - 1, j - 1);
      var a, r := Table(left, right, i, j - 1), Table(left, right, i - 1, j);
      if left[i - 1] == right[j - 1] then t == d
      else t <= a + 1.0 && t <= r + 1.0 && t <= d + 1.00001 && (t == a + 1.0 || t == r + 1.0 || t == d + 1.00001)
  {}

  lemma TableEdge<T>(left: seq<T>, right: seq<T>, i: nat, j: nat)
    requires i <= |left| && j <= |right|
    ensures i == 0 ==> Table(left, right, i, j) == j as real
    ensures j == 0 ==> Table(left, right, i, j) == i as real
  {}

  /** One line more on either side changes the cost by at most 1. */
  lemma {:induction false} Neighbours<T>(left: seq<T>, right: seq<T>, i: nat, j: nat)
    requires NeverMisses(left, right) && i <= |left| && j <= |right|
    ensures i > 0 ==> -1.0 <= Table(left, right, i, j) - Table(left, right, i - 1, j) <= 1.0
    ensures j > 0 ==> -1.0 <= Table(left, right, i, j) - Table(left, right, i, j - 1) <= 1.0
    decreases i + j
  {
    hide NeverMisses, Table, Misses;
    TableEdge(left, right, i, j);
    if i > 0 { TableEdge(left, right, i - 1, j); }
    if j > 0 { TableEdge(left, right, i, j - 1); }
    if i > 0 && j > 0 {
      Neighbours(left, right, i - 1, j);
      Neighbours(left, right, i, j - 1);
      NotMissed(left, right, i, j);
      TableStep(left, right, i, j);
    }
  }

  lemma NotMissed<T>(left: seq<T>, right: seq<T>, i: nat, j: nat)
    requires NeverMisses(left, right) && 0 < i <= |left| && 0 < j <= |right|
    ensures !Misses(left, right, i, j)
  {}

  lemma {:induction false} NoCheaper<T>(left: seq<T>, right: seq<T>, s: Script, i: nat, j: nat)
    requires NeverMisses(left, right) && i <= |left| && j <= |right| && Replays(s, left, right, i, j)
    ensures Cost(s) >= Table(left, right, i, j)
    decreases |s|
  {
    hide NeverMisses;
    if s != [] {
      var most, e := s[..|s| - 1], s[|s| - 1];
      var i', j' := if e == Add then i else i - 1, if e == Remove then j else j - 1;
      NoCheaper(left, right, most, i', j');
      Neighbours(left, right, i, j);
      if i > 0 && j > 0 {
        NotMissed(left, right, i, j);
        Neighbours(left, right, i - 1, j);
      }
    }
  }

  /** Where the table misses, there is a cheaper script. */
  lemma MissIsNotOptimal<T>(left: seq<T>, right: seq<T>, i: nat, j: nat)
    requires 0 < i <= |left| && 0 < j <= |right| && Misses(left, right, i, j)
    ensures !Optimal(left, right, i, j)
  {
    hide Replays, Cost, Path;
    PathReplays(left, right, i, j - 1);
    PathReplays(left, right, i - 1, j);
    var a, r := Path(left, right, i, j - 1), Path(left, right, i - 1, j);
    ReplaysMore(a, Add, left, right, i, j - 1);
    ReplaysMore(r, Remove, left, right, i - 1, j);
    assert Replays(a + [Add], left, right, i, j) && Replays(r + [Remove], left, right, i, j);
  }

  /** The edits are optimal for all pairs of prefixes if and only if the table never misses. */
  lemma OptimalIffNeverMisses<T>(left: seq<T>, right: seq<T>)
    ensures (forall i, j :: 0 <= i <= |left| && 0 <= j <= |right| ==> Optimal(left, right, i, j)) <==>
      NeverMisses(left, right)
  {
    if NeverMisses(left, right) {
      forall i, j | 0 <= i <= |left| && 0 <= j <= |right| ensures Optimal(left, right, i, j) {
        forall s | Replays(s, left, right, i, j)
          ensures Cost(s) >= Table(left, right, i, j) { NoCheaper(left, right, s, i, j); }
      }
    } else {
      var i, j :| 0 < i <= |left| && 0 < j <= |right| && Misses(left, right, i, j);
      MissIsNotOptimal(left, right, i, j);
    }
  }

  // ---------- when one table entry is optimal ----------

  ghost function Min(a: real, b: real): real {
    if a <= b then a else b
  }

  /** The cost of the cheapest script for the two prefixes. */
  ghost function Least<T>(left: seq<T>, right: seq<T>, i: nat, j: nat): real
    requires i <= |left| && j <= |right|
    decreases i + j
  {
    if j == 0 then i as real
    else if i == 0 then j as real
    else
      var both := if left[i - 1] == right[j - 1] then 0.0 else 1.00001;
      Min(Least(left, right, i - 1, j - 1) + both,
          Min(Least(left, right, i, j - 1) + 1.0, Least(left, right, i - 1, j) + 1.0))
  }

  /** Some script for the two prefixes costs that much. */
  ghost predicate Reached<T>(left: seq<T>, right: seq<T>, i: nat, j: nat, cost: real)
    requires i <= |left| && j <= |right|
  {
    exists s :: Replays(s, left, right, i, j) && Cost(s) == cost
  }

  lemma ReachedMore<T>(e: Edit, left: seq<T>, right: seq<T>, i: nat, j: nat, cost: real)
    requires i <= |left| && j <= |right| && Reached(left, right, i, j, cost)
    ensures e == Add && j < |right| ==> Reached(left, right, i, j + 1, cost + 1.0)
    ensures e == Remove && i < |left| ==> Reached(left, right, i + 1, j, cost + 1.0)
    ensures e == Replace && i < |left| && j < |right| ==> Reached(left, right, i + 1, j + 1, cost + 1.00001)
    ensures e == Match && i < |left| && j < |right| && left[i] == right[j] ==> Reached(left, right, i + 1, j + 1, cost)
  {
    hide Replays, Cost;
    var s :| Replays(s, left, right, i, j) && Cost(s) == cost;
    ReplaysMore(s, e, left, right, i, j);
  }

  /** The cheapest script ends in one of three ways. */
  lemma LeastEnds<T>(left: seq<T>, right: seq<T>, i: nat, j: nat)
    requires i <= |left| && j <= |right| && i + j > 0
    ensures
      || (j > 0 && Least(left, right, i, j) == Least(left, right, i, j - 1) + 1.0)
      || (i > 0 && Least(left, right, i, j) == Least(left, right, i - 1, j) + 1.0)
      || (i > 0 && j > 0 && Least(left, right, i, j) == Least(left, right, i - 1, j - 1) +
                                                     EditCost(if left[i - 1] == right[j - 1] then Match else Replace))
  {}

  lemma {:induction false} LeastReached<T>(left: seq<T>, right: seq<T>, i: nat, j: nat)
    requires i <= |left| && j <= |right|
    ensures Reached(left, right, i, j, Least(left, right, i, j))
    decreases i + j
  {
    hide Reached, Least;
    if i == 0 && j == 0 {
      ReachedNone(left, right);
    } else {
      LeastEnds(left, right, i, j);
      if j > 0 && Least(left, right, i, j) == Least(left, right, i, j - 1) + 1.0 {
        LeastReached(left, right, i, j - 1);
        ReachedMore(Add, left, right, i, j - 1, Least(left, right, i, j - 1));
      } else if i > 0 && Least(left, right, i, j) == Least(left, right, i - 1, j) + 1.0 {
        LeastReached(left, right, i - 1, j);
        ReachedMore(Remove, left, right, i - 1, j, Least(left, right, i - 1, j));
      } else {
        LeastReached(left, right, i - 1, j - 1);
        ReachedMore(if left[i - 1] == right[j - 1] then Match else Replace, left, right, i - 1, j - 1,
                    Least(left, right, i - 1, j - 1));
      }
    }
  }

  lemma ReachedNone<T>(left: seq<T>, right: seq<T>)
    ensures Reached(left, right, 0, 0, Least(left, right, 0, 0))
  {
    NoEdits(left, right);
  }

  /** No script is cheaper than the least. */
  lemma {:induction false} LeastBelow<T>(left: seq<T>, right: seq<T>, s: Script, i: nat, j: nat)
    requires i <= |left| && j <= |right| && Replays(s, left, right, i, j)
    ensures Least(left, right, i, j) <= Cost(s)
    decreases |s|
  {
    if s != [] {
      var e := s[|s| - 1];
      LeastBelow(left, right, s[..|s| - 1], if e == Add then i else i - 1, if e == Remove then j else j - 1);
    }
  }

  /** Every move of the path is the last edit of some cheapest script for the prefixes it ends at. */
  ghost predicate MovesWell<T>(left: seq<T>, right: seq<T>, i: nat, j: nat)
    requires i <= |left| && j <= |right|
    decreases i + j
  {
    i + j > 0 ==>
      var m := Move(left, right, i, j);
      var i', j' := if m == Add then i else i - 1, if m == Remove then j else j - 1;
      Least(left, right, i, j) == Least(left, right, i', j') + EditCost(m) && MovesWell(left, right, i', j')
  }

  lemma {:induction false} MovesWellIsLeast<T>(left: seq<T>, right: seq<T>, i: nat, j: nat)
    requires i <= |left| && j <= |right|
    ensures Least(left, right, i, j) <= Table(left, right, i, j)
    ensures MovesWell(left, right, i, j) <==> Table(left, right, i, j) == Least(left, right, i, j)
    decreases i + j
  {
    if i > 0 || j > 0 {
      var m := Move(left, right, i, j);
      MovesWellIsLeast(left, right, if m == Add then i else i - 1, if m == Remove then j else j - 1);
    }
  }

  /** The edits for two inputs are optimal if and only if each of them is the last edit of some cheapest script. */
  lemma OptimalIffMovesWell<T>(left: seq<T>, right: seq<T>, i: nat, j: nat)
    requires i <= |left| && j <= |right|
    ensures Optimal(left, right, i, j) <==> MovesWell(left, right, i, j)
  {
    hide Replays, Cost, Table, Least, MovesWell;
    LeastReached(left, right, i, j);
    MovesWellIsLeast(left, right, i, j);
    forall s | Replays(s, left, right, i, j)
      ensures Least(left, right, i, j) <= Cost(s) { LeastBelow(left, right, s, i, j); }
  }

  /** No script turns left into right at a lower cost than edits. */
  ghost predicate Cheapest<T>(edits: Script, left: seq<T>, right: seq<T>) {
    forall s :: Replays(s, left, right, |left|, |right|) ==> Cost(edits) <= Cost(s)
  }

  lemma CheapestIfOptimal<T>(edits: Script, left: seq<T>, right: seq<T>)
    requires Cost(edits) == Table(left, right, |left|, |right|) && Optimal(left, right, |left|, |right|)
    ensures Cheapest(edits, left, right)
  {
    hide Replays, Table, Cost;
  }

  lemma OptimalIfCheapest<T>(edits: Script, left: seq<T>, right: seq<T>)
    requires Cost(edits) == Table(left, right, |left|, |right|) && Cheapest(edits, left, right)
    ensures Optimal(left, right, |left|, |right|)
  {
    hide Replays, Table, Cost;
  }

  /** From "aba" to "bab" two edits are enough; the table says three replacements. */
  lemma NotAlwaysOptimal()
    ensures var left, right := "aba", "bab";
      && Path(left, right, 3, 3) == [Replace, Replace, Replace]
      && Replays([Remove, Match, Match, Add], left, right, 3, 3)
      && Cost([Remove, Match, Match, Add]) < Table(left, right, 3, 3)
  {
    var left, right := "aba", "bab";
    assert Table(left, right, 1, 1) == 1.00001 && Table(left, right, 1, 2) == 1.0 && Table(left, right, 2, 1) == 1.0;
    assert Table(left, right, 2, 2) == 2.00002;
    assert Table(left, right, 1, 3) == 2.0 && Table(left, right, 3, 1) == 2.0;
    assert Table(left, right, 2, 3) == 1.0 && Table(left, right, 3, 2) == 1.0;
    assert Path(left, right, 1, 1) == [Replace];
    assert Path(left, right, 2, 2) == [Replace] + [Replace];
    var s0: Script := [];
    ReplaysMore(s0, Remove, left, right, 0, 0);
    ReplaysMore([Remove], Match, left, right, 1, 0);
    ReplaysMore([Remove, Match], Match, left, right, 2, 1);
    ReplaysMore([Remove, Match, Match], Add, left, right, 3, 2);
    assert [] + [Remove] == [Remove] && [Remove] + [Match] == [Remove, Match];
    assert [Remove, Match] + [Match] == [Remove, Match, Match] &&
      [Remove, Match, Match] + [Add] == [Remove, Match, Match, Add];
  }
}
