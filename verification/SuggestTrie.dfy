/** trie.h: the suggestion trie on the heap. */
module SuggestTrie {
  import opened Bytes
  import opened TokenOrder

  /** A string and the tokens it is split into. */
  datatype CnString = CnString(text: Str, words: Path)

  /** Neither status nor tval is set by the constructor. */
  class TrieNode<V(0)> {
    var children: map<Str, TrieNode<V>>
    var val: Str
    var status: int
    var tval: V

    constructor ()
      ensures children == map[]
    {
      children, val := map[], [];
      status, tval := *, *;
    }
  }

  ghost function Parent(p: Path): Path
    requires p != []
  {
    p[..|p| - 1]
  }

  ghost function Last(p: Path): Str
    requires p != []
  {
    p[|p| - 1]
  }

  ghost function Join(ts: Path): Str {
    if ts == [] then [] else Join(ts[..|ts| - 1]) + ts[|ts| - 1]
  }

  /** What is found for the listed keys: what was searched for, the tokens behind it, and the value. */
  ghost function Pairs<V>(ps: seq<Path>, contents: map<Path, V>, n: nat, begin: Str): seq<(Str, V)> {
    if ps == [] then []
    else
      var k := ps[|ps| - 1];
      Pairs(ps[..|ps| - 1], contents, n, begin)
      + if k in contents && n <= |k| then [(begin + Join(k[n..]), contents[k])] else []
  }

  lemma {:induction false} PairsAppend<V>(ps: seq<Path>, qs: seq<Path>, contents: map<Path, V>, n: nat, begin: Str)
    ensures Pairs(ps + qs, contents, n, begin) == Pairs(ps, contents, n, begin) + Pairs(qs, contents, n, begin)
    decreases |qs|
  {
    if qs == [] {
      assert ps + qs == ps;
    } else {
      assert (ps + qs)[..|ps + qs| - 1] == ps + qs[..|qs| - 1];
      PairsAppend(ps, qs[..|qs| - 1], contents, n, begin);
    }
  }

  /** One token more of what was searched for. */
  lemma {:induction false} PairsDeeper<V>(ps: seq<Path>, contents: map<Path, V>, p: Path, t: Str, begin: Str)
    requires forall i :: 0 <= i < |ps| ==> p + [t] <= ps[i]
    ensures Pairs(ps, contents, |p| + 1, begin + t) == Pairs(ps, contents, |p|, begin)
  {
    if ps != [] {
      var k := ps[|ps| - 1];
      PairsDeeper(ps[..|ps| - 1], contents, p, t, begin);
      NextToken(p, t, k);
      assert k in ps;
      assert k[|p|..] == [t] + k[|p| + 1..];
      JoinFront(t, k[|p| + 1..]);
      assert begin + t + Join(k[|p| + 1..]) == begin + (t + Join(k[|p| + 1..]));
    }
  }

  lemma {:induction false} JoinFront(t: Str, ts: Path)
    ensures Join([t] + ts) == t + Join(ts)
    decreases |ts|
  {
    if ts == [] {
      assert [t] + ts == [t] && [t][..0] == [];
    } else {
      assert ([t] + ts)[..|ts|] == [t] + ts[..|ts| - 1];
      JoinFront(t, ts[..|ts| - 1]);
    }
  }

  /** Every node is reached by exactly one sequence of tokens, and the children maps lead to the longer ones. */
  ghost predicate Tree<N>(root: N, nodes: map<Path, N>, kids: map<Path, map<Str, N>>) {
    && [] in nodes && nodes[[]] == root
    && (forall p :: p in nodes <==> p in kids)
    && Unshared(nodes)
    && (forall p :: p in nodes && p != [] ==> LinkedFrom(nodes, kids, p))
    && KidsIn(nodes, kids)
  }

  ghost predicate Unshared<N>(nodes: map<Path, N>) {
    forall p, q :: p in nodes && q in nodes && nodes[p] == nodes[q] ==> p == q
  }

  ghost predicate KidsIn<N>(nodes: map<Path, N>, kids: map<Path, map<Str, N>>) {
    forall p, t :: p in kids && t in kids[p] ==> p + [t] in nodes
  }

  ghost predicate LinkedFrom<N>(nodes: map<Path, N>, kids: map<Path, map<Str, N>>, p: Path)
    requires p != []
  {
    Parent(p) in kids && Last(p) in kids[Parent(p)] && p in nodes && kids[Parent(p)][Last(p)] == nodes[p]
  }

  lemma ChildOf<N>(root: N, nodes: map<Path, N>, kids: map<Path, map<Str, N>>, p: Path, t: Str)
    requires Tree(root, nodes, kids) && p in kids && t in kids[p]
    ensures p + [t] in nodes && nodes[p + [t]] == kids[p][t]
  {
    var q := p + [t];
    assert q in nodes && LinkedFrom(nodes, kids, q);
    assert Parent(q) == p && Last(q) == t;
  }

  lemma {:induction false} PrefixIn<N>(root: N, nodes: map<Path, N>, kids: map<Path, map<Str, N>>, k: Path, n: nat)
    requires Tree(root, nodes, kids) && k in nodes && n <= |k|
    ensures k[..n] in nodes
    ensures n < |k| ==> k[n] in kids[k[..n]]
    decreases |k| - n
  {
    if n == |k| {
      assert k[..n] == k;
    } else {
      var q := k[..n + 1];
      PrefixIn(root, nodes, kids, k, n + 1);
      assert LinkedFrom(nodes, kids, q);
      assert Parent(q) == k[..n] && Last(q) == k[n];
    }
  }

  /** A new childless node below p. */
  lemma TreeGrows<N>(root: N, nodes: map<Path, N>, kids: map<Path, map<Str, N>>, p: Path, t: Str, n: N)
    requires Tree(root, nodes, kids) && p in nodes && t !in kids[p] && forall q :: q in nodes ==> nodes[q] != n
    ensures p + [t] !in nodes && p + [t] != []
    ensures Tree(root, nodes[p + [t] := n], kids[p := kids[p][t := n]][p + [t] := map[]])
  {
    var q := p + [t];
    NewPath(root, nodes, kids, p, t);
    var nodes', kids' := nodes[q := n], kids[p := kids[p][t := n]][q := map[]];
    StaysUnshared(nodes, q, n);
    KidsStayIn(nodes, kids, p, t, n);
    hide LinkedFrom, Unshared, KidsIn;
    forall x | x in nodes' && x != [] ensures LinkedFrom(nodes', kids', x) {
      if x == q { NewLink(nodes, kids, p, t, n); } else { KeepsLink(nodes, kids, p, t, n, x); }
    }
  }

  lemma StaysUnshared<N>(nodes: map<Path, N>, q: Path, n: N)
    requires Unshared(nodes) && forall p :: p in nodes ==> nodes[p] != n
    ensures Unshared(nodes[q := n])
  {}

  lemma KidsStayIn<N>(nodes: map<Path, N>, kids: map<Path, map<Str, N>>, p: Path, t: Str, n: N)
    requires KidsIn(nodes, kids) && p in kids
    ensures KidsIn(nodes[p + [t] := n], kids[p := kids[p][t := n]][p + [t] := map[]])
  {
    var nodes', kids' := nodes[p + [t] := n], kids[p := kids[p][t := n]][p + [t] := map[]];
    forall x, u | x in kids' && u in kids'[x] ensures x + [u] in nodes' {
      if x == p && u != t { assert u in kids[p]; }
    }
  }

  lemma NewPath<N>(root: N, nodes: map<Path, N>, kids: map<Path, map<Str, N>>, p: Path, t: Str)
    requires Tree(root, nodes, kids) && p in nodes && t !in kids[p]
    ensures p + [t] !in nodes && p + [t] != []
  {
    var q := p + [t];
    assert Parent(q) == p && Last(q) == t;
    assert q in nodes ==> LinkedFrom(nodes, kids, q);
  }

  lemma NewLink<N>(nodes: map<Path, N>, kids: map<Path, map<Str, N>>, p: Path, t: Str, n: N)
    requires p in kids && p + [t] !in kids
    ensures LinkedFrom(nodes[p + [t] := n], kids[p := kids[p][t := n]][p + [t] := map[]], p + [t])
  {
    assert Parent(p + [t]) == p && Last(p + [t]) == t;
  }

  lemma KeepsLink<N>(nodes: map<Path, N>, kids: map<Path, map<Str, N>>, p: Path, t: Str, n: N, x: Path)
    requires x != [] && LinkedFrom(nodes, kids, x) && p + [t] !in nodes && p in kids && p + [t] !in kids
    ensures LinkedFrom(nodes[p + [t] := n], kids[p := kids[p][t := n]][p + [t] := map[]], x)
  {
    assert x == Parent(x) + [Last(x)];
  }

  /** A node's status and value. */
  datatype Mark<V> = Mark(status: int, tval: V)

  /** Exactly the nodes of keys are marked, with the last value inserted. The root's status is never set. */
  ghost predicate Marked<V>(marks: map<Path, Mark<V>>, contents: map<Path, V>) {
    && (forall k :: k in contents ==> k in marks && k != [] && marks[k].tval == contents[k])
    && (forall p :: p in marks && p != [] ==> (marks[p].status == 1 <==> p in contents))
  }

  lemma Unmarked<V, N>(kids: map<Path, map<Str, N>>, marks: map<Path, Mark<V>>, contents: map<Path, V>, q: Path,
                       m: Mark<V>)
    requires Marked(marks, contents) && q !in marks && m.status == 0
    ensures Marked(marks[q := m], contents)
  {}

  lemma Remarked<V>(marks: map<Path, Mark<V>>, contents: map<Path, V>, k: Path, val: V)
    requires Marked(marks, contents) && k in marks && k != []
    ensures Marked(marks[k := Mark(1, val)], contents[k := val])
  {}

  class Trie<V(0)> {
    const root: TrieNode<V>
    ghost var nodes: map<Path, TrieNode<V>>
    ghost var contents: map<Path, V>  // the last value inserted for each key

    ghost function Kids(): map<Path, map<Str, TrieNode<V>>>
      reads `nodes, set p | p in nodes :: nodes[p]
    {
      map p | p in nodes :: nodes[p].children
    }

    ghost function Marks(): map<Path, Mark<V>>
      reads `nodes, set p | p in nodes :: nodes[p]
    {
      map p | p in nodes :: Mark(nodes[p].status, nodes[p].tval)
    }

    ghost predicate Valid()
      reads this, set p | p in nodes :: nodes[p]
    {
      Tree(root, nodes, Kids()) && Marked(Marks(), contents)
    }

    constructor ()
      ensures Valid() && contents == map[] && fresh(root) && nodes == map[[] := root]
    {
      root := new TrieNode<V>();
      nodes, contents := map[[] := root], map[];
    }

    /** A new child, without children and not marked. */
    method AddChild(ghost p: Path, cur: TrieNode<V>, t: Str)
      requires Valid() && p in nodes && cur == nodes[p] && t !in cur.children
      modifies `nodes, cur`children
      ensures Valid() && p + [t] in nodes && fresh(nodes[p + [t]]) && nodes == old(nodes)[p + [t] := nodes[p + [t]]]
      ensures t in cur.children && cur.children[t] == nodes[p + [t]]
    {
      hide Tree, Marked, Kids, Marks;
      Snapshots();
      NewPath<TrieNode<V>>(root, nodes, Kids(), p, t);
      NodesApart(p);
      ghost var kids, marks := Kids(), Marks();
      var n := NewNode(t);
      TreeGrows<TrieNode<V>>(root, nodes, kids, p, t, n);
      Unmarked(kids, marks, contents, p + [t], Mark(0, n.tval));
      SetChild(p, cur, t, n);
    }

    /** The two assignments that make n a child of cur. */
    method SetChild(ghost p: Path, cur: TrieNode<V>, t: Str, n: TrieNode<V>)
      requires p in nodes && cur == nodes[p] && p + [t] !in nodes && n.children == map[] && n != cur
      requires forall q :: q in nodes && q != p ==> nodes[q] != cur
      requires forall q :: q in nodes ==> nodes[q] != n
      modifies `nodes, cur`children
      ensures nodes == old(nodes)[p + [t] := n] && cur.children == old(cur.children)[t := n]
      ensures Kids() == old(Kids())[p := old(Kids())[p][t := n]][p + [t] := map[]]
      ensures Marks() == old(Marks())[p + [t] := Mark(n.status, n.tval)]
    {
      hide Kids, Marks;
      Snapshots();
      ghost var q, kids, marks := p + [t], Kids(), Marks();
      cur.children := cur.children[t := n];
      nodes := nodes[q := n];
      KidsAre(kids[p := kids[p][t := n]][q := map[]]);
      MarksAre(marks[q := Mark(n.status, n.tval)]);
    }

    method NewNode(t: Str) returns (n: TrieNode<V>)
      ensures fresh(n) && n.children == map[] && n.val == t && n.status == 0
    {
      n := new TrieNode<V>();
      n.val := t;
      n.status := 0;
    }

    /** What the snapshots of all nodes hold. */
    lemma Snapshots()
      ensures forall p :: p in nodes <==> p in Kids()
      ensures forall p :: p in nodes ==> Kids()[p] == nodes[p].children
      ensures forall p :: p in nodes <==> p in Marks()
      ensures forall p :: p in nodes ==> Marks()[p] == Mark(nodes[p].status, nodes[p].tval)
    {}

    lemma KidsAre(kids: map<Path, map<Str, TrieNode<V>>>)
      requires forall p :: p in nodes <==> p in kids
      requires forall p :: p in nodes ==> nodes[p].children == kids[p]
      ensures Kids() == kids
    {}

    lemma MarksAre(marks: map<Path, Mark<V>>)
      requires forall p :: p in nodes <==> p in marks
      requires forall p :: p in nodes ==> nodes[p].status == marks[p].status && nodes[p].tval == marks[p].tval
      ensures Marks() == marks
    {}

    lemma NodesApart(p: Path)
      requires Tree(root, nodes, Kids()) && p in nodes
      ensures forall q :: q in nodes && q != p ==> nodes[q] != nodes[p]
    {}

    /** insert: the last value given for a key counts; the empty key is ignored. */
    method Insert(str: CnString, val: V)
      requires Valid()
      modifies this`nodes, this`contents, set p | p in nodes :: nodes[p]
      ensures Valid() && contents == if str.words == [] then old(contents) else old(contents)[str.words := val]
      ensures forall p :: p in nodes ==> (p in old(nodes) && nodes[p] == old(nodes)[p]) || fresh(nodes[p])
      ensures root.status == old(root.status)
    {
      hide Tree, Marked;
      if |str.words| == 0 { return; }
      var cur := root;
      var idx := 0;
      RootIn();
      assert str.words[..0] == [];
      while idx < |str.words|
        invariant idx <= |str.words| && Valid() && contents == old(contents) && root.status == old(root.status)
        invariant str.words[..idx] in nodes && cur == nodes[str.words[..idx]]
        invariant forall p :: p in nodes ==> (p in old(nodes) && nodes[p] == old(nodes)[p]) || fresh(nodes[p])
      {
        ghost var p := str.words[..idx];
        assert str.words[..idx + 1] == p + [str.words[idx]];
        if str.words[idx] !in cur.children {
          AddChild(p, cur, str.words[idx]);
        }
        ChildOf<TrieNode<V>>(root, nodes, Kids(), p, str.words[idx]);
        cur := cur.children[str.words[idx]];
        idx := idx + 1;
      }
      assert str.words[..idx] == str.words;
      SetMark(str.words, cur, val);
    }

    lemma RootIn()
      requires Tree(root, nodes, Kids())
      ensures [] in nodes && nodes[[]] == root
    {}

    /** Mark the node of a key. */
    method SetMark(ghost k: Path, cur: TrieNode<V>, val: V)
      requires Valid() && k in nodes && cur == nodes[k] && k != []
      modifies `contents, cur`status, cur`tval
      ensures Valid() && contents == old(contents)[k := val] && root.status == old(root.status)
    {
      hide Tree, Marked, Kids, Marks;
      Snapshots();
      ghost var kids, marks := Kids(), Marks();
      RootIn();
      NodesApart(k);
      cur.status := 1;
      cur.tval := val;
      contents := contents[k := val];
      KidsAre(kids);
      MarksAre(marks[k := Mark(1, val)]);
      Remarked(marks, old(contents), k, val);
    }

    /** extract_search: the node a sequence of tokens leads to, or null. */
    method ExtractSearch(str: CnString) returns (r: TrieNode?<V>)
      requires Valid()
      ensures if str.words in nodes then r == nodes[str.words] else r == null
    {
      hide Tree, Marked;
      RootIn();
      var cur := root;
      assert str.words[..0] == [];
      for i := 0 to |str.words|
        invariant str.words[..i] in nodes && cur == nodes[str.words[..i]]
      {
        ghost var p, t := str.words[..i], str.words[i];
        assert str.words[..i + 1] == p + [t];
        if str.words[i] !in cur.children {
          NoSuchNode(str.words, i);
          return null;
        }
        ChildOf<TrieNode<V>>(root, nodes, Kids(), p, t);
        cur := cur.children[str.words[i]];
      }
      assert str.words[..|str.words|] == str.words;
      r := cur;
    }

    lemma NoSuchNode(k: Path, i: nat)
      requires Tree(root, nodes, Kids()) && i < |k| && k[..i] in nodes && k[i] !in nodes[k[..i]].children
      ensures k !in nodes
    {
      if k in nodes { PrefixIn<TrieNode<V>>(root, nodes, Kids(), k, i); }
    }

    /** What a root that happens to be marked adds to the results. */
    ghost function Stray(p: Path, begin: Str): seq<(Str, V)>
      reads root
    {
      if p == [] && root.status == 1 then [(begin, root.tval)] else []
    }

    /** dfs_search from the node of p: the keys below, in order. */
    method DfsSearch(cur: TrieNode<V>, begin: Str, results: seq<(Str, V)>, ghost p: Path, ghost room: nat)
      returns (r: seq<(Str, V)>, ghost ps: seq<Path>)
      requires Valid() && p in nodes && cur == nodes[p] && forall q :: q in nodes && p <= q ==> |q| <= |p| + room
      ensures Lists(ps, contents.Keys, p)
      ensures r == results + Stray(p, begin) + Pairs(ps, contents, |p|, begin)
      decreases room
    {
      hide Trie.Valid, Tree, Marked, Lists, Visited, Pairs, Leq, Sorted, Join, Kids, Marks, Stray;
      r, ps := results, [];
      assert results + [] == results;
      if cur.status == 1 {
        r := r + [(begin, cur.tval)];
      }
      if p in contents { ps := [p]; }
      var tokens := Ascending(cur.children.Keys);
      VisitStart(p, begin, tokens, results, ps);
      for i := 0 to |tokens|
        invariant Visited(p, begin, tokens, i, results, r, ps)
      {
        var t := tokens[i];
        ChildIn(p, t);
        NotDeepest(p, t, room);
        ghost var qs, before := ps, r;
        r, qs := DfsSearch(cur.children[t], begin + t, r, p + [t], room - 1);
        VisitMore(p, begin, tokens, i, results, before, r, ps, qs);
        ps := ps + qs;
      }
      VisitEnd(p, begin, tokens, results, r, ps);
    }

    lemma ChildIn(p: Path, t: Str)
      requires Valid() && p in nodes && t in nodes[p].children
      ensures p + [t] in nodes && nodes[p + [t]] == nodes[p].children[t]
    {
      ChildOf<TrieNode<V>>(root, nodes, Kids(), p, t);
    }

    /** The node itself and its first i children have been searched. */
    ghost predicate Visited(p: Path, begin: Str, tokens: seq<Str>, i: nat, results: seq<(Str, V)>, r: seq<(Str, V)>,
                            ps: seq<Path>)
      requires i <= |tokens|
      reads `contents, root
    {
      ListsUpTo(ps, contents.Keys, p, tokens, i) && r == results + Stray(p, begin) + Pairs(ps, contents, |p|, begin)
    }

    lemma VisitStart(p: Path, begin: Str, tokens: seq<Str>, results: seq<(Str, V)>, ps: seq<Path>)
      requires Valid() && p in nodes && ps == if p in contents then [p] else []
      ensures Visited(p, begin, tokens, 0, results,
                      results + (if nodes[p].status == 1 then [(begin, nodes[p].tval)] else []), ps)
    {
      hide Tree, Marked, Pairs, Stray;
      Visit(p, begin, ps);
    }

    lemma VisitMore(p: Path, begin: Str, tokens: seq<Str>, i: nat, results: seq<(Str, V)>, before: seq<(Str, V)>,
                    r: seq<(Str, V)>, ps: seq<Path>, qs: seq<Path>)
      requires i < |tokens| && Sorted(tokens) && Visited(p, begin, tokens, i, results, before, ps)
      requires Lists(qs, contents.Keys, p + [tokens[i]])
      requires r == before + Stray(p + [tokens[i]], begin + tokens[i])
                    + Pairs(qs, contents, |p + [tokens[i]]|, begin + tokens[i])
      ensures Visited(p, begin, tokens, i + 1, results, r, ps + qs)
    {
      hide Lists, ListsUpTo, Pairs, Stray, Sorted;
      ListsMore(ps, qs, contents.Keys, p, tokens, i);
      DeeperPairs(qs, p, tokens[i], begin);
      PairsAppend(ps, qs, contents, |p|, begin);
    }

    lemma VisitEnd(p: Path, begin: Str, tokens: seq<Str>, results: seq<(Str, V)>, r: seq<(Str, V)>, ps: seq<Path>)
      requires Valid() && p in nodes && Visited(p, begin, tokens, |tokens|, results, r, ps)
      requires forall t :: t in tokens <==> t in nodes[p].children
      ensures Lists(ps, contents.Keys, p) && r == results + Stray(p, begin) + Pairs(ps, contents, |p|, begin)
    {
      hide Tree, Marked, Lists, Pairs, Stray;
      EndList(p, tokens, ps);
    }

    lemma NotDeepest(p: Path, t: Str, room: nat)
      requires p + [t] in nodes && forall q :: q in nodes && p <= q ==> |q| <= |p| + room
      ensures room > 0 && forall q :: q in nodes && p + [t] <= q ==> |q| <= |p + [t]| + (room - 1)
    {
      assert p <= p + [t];
      forall q | q in nodes && p + [t] <= q ensures |q| <= |p + [t]| + (room - 1) { NextToken(p, t, q); }
    }

    /** The node's own entry. */
    lemma Visit(p: Path, begin: Str, ps: seq<Path>)
      requires Valid() && p in nodes && ps == if p in contents then [p] else []
      ensures (if nodes[p].status == 1 then [(begin, nodes[p].tval)] else []) ==
              Stray(p, begin) + Pairs(ps, contents, |p|, begin)
    {
      Snapshots();
      hide Kids, Marks;
      if p in contents {
        assert ps[..0] == [] && p[|p|..] == [] && begin + Join([]) == begin;
      }
      if p == [] { RootIn(); }
    }

    lemma DeeperPairs(qs: seq<Path>, p: Path, t: Str, begin: Str)
      requires Lists(qs, contents.Keys, p + [t])
      ensures Pairs(qs, contents, |p + [t]|, begin + t) == Pairs(qs, contents, |p|, begin)
      ensures Stray(p + [t], begin + t) == []
    {
      assert forall i :: 0 <= i < |qs| ==> qs[i] in qs;
      PairsDeeper(qs, contents, p, t, begin);
    }

    /** With all children visited the list is complete. */
    lemma EndList(p: Path, tokens: seq<Str>, ps: seq<Path>)
      requires Valid() && p in nodes && ListsUpTo(ps, contents.Keys, p, tokens, |tokens|)
      requires forall t :: t in tokens <==> t in nodes[p].children
      ensures Lists(ps, contents.Keys, p)
    {
      hide Tree, Less;
      assert tokens[..|tokens|] == tokens;
      forall k | k in contents && p <= k && k != p ensures k[|p|] in tokens {
        PrefixIn<TrieNode<V>>(root, nodes, Kids(), k, |p|);
        assert k[..|p|] == p;
      }
    }

    /** search: all keys that continue the tokens of str, each once, in order and with its last value; for an empty str
        also the root, if its status happens to be 1. */
    method Search(str: CnString, results: seq<(Str, V)>) returns (r: seq<(Str, V)>)
      requires Valid()
      ensures Lists(Listing(contents.Keys, str.words), contents.Keys, str.words)
      ensures r == results + Stray(str.words, str.text)
                   + Pairs(Listing(contents.Keys, str.words), contents, |str.words|, str.text)
    {
      hide Tree, Marked, Lists, Pairs, Listing;
      var target := ExtractSearch(str);
      if target == null {
        NothingBelow(str.words, str.text);
        ListingIs([], contents.Keys, str.words);
        return results;
      }
      ghost var room := Deepest(nodes.Keys);
      ghost var ps;
      r, ps := DfsSearch(target, str.text, results, str.words, room);
      ListingIs(ps, contents.Keys, str.words);
    }

    lemma NothingBelow(p: Path, begin: Str)
      requires Valid() && p !in nodes
      ensures Lists([], contents.Keys, p) && Stray(p, begin) == [] && Pairs([], contents, |p|, begin) == []
    {
      RootIn();
      forall k | k in contents ensures p <= k ==> k[..|p|] in nodes {
        if p <= k { PrefixIn<TrieNode<V>>(root, nodes, Kids(), k, |p|); }
      }
      assert forall k :: p <= k ==> k[..|p|] == p;
    }
  }

  lemma {:induction false} Deepest(keys: set<Path>) returns (n: nat)
    ensures forall k :: k in keys ==> |k| <= n
  {
    n := 0;
    if keys != {} {
      var k :| k in keys;
      var m := Deepest(keys - {k});
      n := if m > |k| then m else |k|;
      assert forall x :: x in keys ==> x == k || x in keys - {k};
    }
  }
}
