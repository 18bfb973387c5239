/** Sequences of tokens in the order in which nested std::maps list them. */
module TokenOrder {
  import opened Bytes

  type Path = seq<Str>

  /** a comes strictly before b: it is a proper prefix, or smaller at the first token where they differ. */
  ghost predicate Less(a: Path, b: Path) {
    if b == [] then false
    else if a == [] then true
    else if a[0] != b[0] then Leq(a[0], b[0])
    else Less(a[1..], b[1..])
  }

  lemma {:induction false} LessThanLonger(p: Path, rest: Path)
    requires rest != []
    ensures Less(p, p + rest)
  {
    if p != [] {
      assert (p + rest)[1..] == p[1..] + rest;
      LessThanLonger(p[1..], rest);
    }
  }

  lemma {:induction false} LessByToken(p: Path, a: Path, b: Path)
    requires p <= a && p <= b && |a| > |p| && |b| > |p| && a[|p|] != b[|p|] && Leq(a[|p|], b[|p|])
    ensures Less(a, b)
  {
    if p != [] {
      assert p[1..] <= a[1..] && p[1..] <= b[1..];
      LessByToken(p[1..], a[1..], b[1..]);
    }
  }

  /** Nothing comes before itself, and of two different sequences only one comes first. */
  lemma {:induction false} LessStrict(a: Path, b: Path)
    ensures !(Less(a, b) && Less(b, a)) && !Less(a, a)
    ensures a != b ==> Less(a, b) || Less(b, a)
    decreases |a|
  {
    if a != [] {
      LessStrict(a[1..], a[1..]);
      if b != [] {
        LeqTotal(a[0], b[0]);
        if a[0] == b[0] {
          LessStrict(a[1..], b[1..]);
          assert a == [a[0]] + a[1..] && b == [b[0]] + b[1..];
        } else if Leq(a[0], b[0]) && Leq(b[0], a[0]) {
          LeqAntisym(a[0], b[0]);
        }
      }
    }
  }

  ghost predicate InOrder(ps: seq<Path>) {
    forall i, j :: 0 <= i < j < |ps| ==> Less(ps[i], ps[j])
  }

  /** The keys below p, each once and in order. */
  ghost predicate Lists(ps: seq<Path>, keys: set<Path>, p: Path) {
    InOrder(ps) && forall k :: k in ps <==> k in keys && p <= k
  }

  /** The keys that are p, or continue it with one of the first i tokens. */
  ghost predicate ListsUpTo(ps: seq<Path>, keys: set<Path>, p: Path, tokens: seq<Str>, i: nat)
    requires i <= |tokens|
  {
    InOrder(ps) && forall k :: k in ps <==> k in keys && p <= k && (k == p || k[|p|] in tokens[..i])
  }

  /** At most one sequence lists the keys below p. */
  lemma {:induction false} ListsOnce(ps: seq<Path>, qs: seq<Path>)
    requires InOrder(ps) && InOrder(qs) && forall k :: k in ps <==> k in qs
    ensures ps == qs
  {
    assert qs != [] ==> qs[0] in ps;
    if ps != [] {
      assert ps[0] in qs;
      if qs[0] != ps[0] {
        var j :| 0 < j < |qs| && qs[j] == ps[0];
        assert qs[0] in ps;
        var i :| 0 < i < |ps| && ps[i] == qs[0];
        LessStrict(ps[0], qs[0]);
      }
      forall k ensures k in ps[1..] <==> k in qs[1..] { TailOf(ps, k); TailOf(qs, k); }
      ListsOnce(ps[1..], qs[1..]);
      assert ps == [ps[0]] + ps[1..] && qs == [qs[0]] + qs[1..];
    }
  }

  lemma TailOf(ps: seq<Path>, k: Path)
    requires ps != [] && InOrder(ps)
    ensures k in ps[1..] <==> k in ps && k != ps[0]
  {
    if k in ps[1..] {
      var i :| 0 < i < |ps| && ps[i] == k;
      LessStrict(ps[0], k);
    }
  }

  /** The subtree behind the next token continues the list. */
  lemma ListsMore(ps: seq<Path>, qs: seq<Path>, keys: set<Path>, p: Path, tokens: seq<Str>, i: nat)
    requires i < |tokens| && Sorted(tokens) && ListsUpTo(ps, keys, p, tokens, i) && Lists(qs, keys, p + [tokens[i]])
    ensures ListsUpTo(ps + qs, keys, p, tokens, i + 1)
  {
    hide Less, Leq;
    var t := tokens[i];
    forall a, b | 0 <= a < b < |ps + qs| ensures Less((ps + qs)[a], (ps + qs)[b]) {
      assert a < |ps| ==> ps[a] in ps;
      assert b >= |ps| ==> qs[b - |ps|] in qs;
      if a < |ps| <= b { Across(ps[a], qs[b - |ps|], p, tokens, i); }
    }
    forall k ensures k in ps + qs <==> k in keys && p <= k && (k == p || k[|p|] in tokens[..i + 1]) {
      assert tokens[..i + 1] == tokens[..i] + [t];
      NextToken(p, t, k);
    }
  }

  lemma Across(a: Path, b: Path, p: Path, tokens: seq<Str>, i: nat)
    requires i < |tokens| && Sorted(tokens) && p <= a && (a == p || a[|p|] in tokens[..i]) && p + [tokens[i]] <= b
    ensures Less(a, b)
  {
    NextToken(p, tokens[i], b);
    if a == p {
      assert b == p + b[|p|..];
      LessThanLonger(p, b[|p|..]);
    } else {
      LessByToken(p, a, b);
    }
  }

  lemma NextToken(p: Path, t: Str, k: Path)
    ensures p + [t] <= k <==> p <= k && k != p && k[|p|] == t
  {
    if p + [t] <= k { assert k[|p|] == (p + [t])[|p|] && p == (p + [t])[..|p|] == k[..|p|]; }
    if p <= k && k != p && k[|p|] == t { assert k[..|p| + 1] == p + [t]; }
  }

  /** The keys below p in their order. */
  ghost function Listing(keys: set<Path>, p: Path): (ps: seq<Path>)
    ensures (exists qs :: Lists(qs, keys, p)) ==> Lists(ps, keys, p)
  {
    if exists qs :: Lists(qs, keys, p) then
      var qs :| Lists(qs, keys, p);
      qs
    else []
  }

  /** Any list with exactly the keys below p in order is that listing. */
  lemma ListingIs(ps: seq<Path>, keys: set<Path>, p: Path)
    requires Lists(ps, keys, p)
    ensures Listing(keys, p) == ps
  {
    ListsOnce(ps, Listing(keys, p));
  }
}
