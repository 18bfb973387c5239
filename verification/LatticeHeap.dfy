/** How the Node and Path objects of a sentence hang together, and what their fields hold. */
module LatticeHeap {
  import opened Lattice
  import opened Nodes
  import opened Features
  import opened Sums

  type NodeTable = seq<seq<Node>>

  /** node(i, j) has the edges from all tags of token i - 1 on its left and, as the same objects, the edges to all
      tags of token i + 1 on its right. */
  ghost predicate Linked(node: NodeTable, y: nat, nodes: set<Node>, paths: set<Path>)
    reads nodes`x, nodes`y, nodes`lpath, nodes`rpath, paths`lnode, paths`rnode
  {
    && (forall i :: 0 <= i < |node| ==> |node[i]| == y)
    && (forall i, j :: 0 <= i < |node| && 0 <= j < y ==>
          && node[i][j] in nodes && node[i][j].x == i && node[i][j].y == j
          && |node[i][j].lpath| == (if i == 0 then 0 else y)
          && |node[i][j].rpath| == (if i == |node| - 1 then 0 else y))
    && (forall i, j, k :: 0 < i < |node| && 0 <= j < y && 0 <= k < y ==>
          && node[i][j].lpath[k] in paths
          && node[i][j].lpath[k].lnode == node[i - 1][k] && node[i][j].lpath[k].rnode == node[i][j])
    && (forall i, j, k :: 0 <= i < |node| - 1 && 0 <= j < y && 0 <= k < y ==>
          node[i][j].rpath[k] == node[i + 1][k].lpath[j])
  }

  /** The cost fields hold the costs of the lattice l. */
  ghost predicate Priced(node: NodeTable, y: nat, nodes: set<Node>, paths: set<Path>, l: Lattice)
    requires Linked(node, y, nodes, paths)
    reads nodes`x, nodes`y, nodes`lpath, nodes`rpath, paths`lnode, paths`rnode, nodes`cost, paths`cost
  {
    && l.n == |node| && l.y == y
    && (forall i, j :: 0 <= i < |node| && 0 <= j < y ==> node[i][j].cost == l.node(i, j))
    && (forall i, j, k :: 0 < i < |node| && 0 <= j < y && 0 <= k < y ==>
          node[i][j].lpath[k].cost == l.edge(i, k, j))
  }

  /** Every node and every edge carries the feature vector cached for its token. */
  ghost predicate Featured(node: NodeTable, y: nat, nodes: set<Node>, paths: set<Path>, ft: Features)
    requires Linked(node, y, nodes, paths)
    reads nodes`x, nodes`y, nodes`lpath, nodes`rpath, paths`lnode, paths`rnode, nodes`fvector, paths`fvector
  {
    && |ft.uni| == |node| && |ft.bi| + 1 == |node|
    && (forall i, j :: 0 <= i < |node| && 0 <= j < y ==> node[i][j].fvector == ft.uni[i])
    && (forall i, j, k :: 0 < i < |node| && 0 <= j < y && 0 <= k < y ==>
          node[i][j].lpath[k].fvector == ft.bi[i - 1])
  }

  /** Left edges node (c, b) has once all edges before edge (cur, j, i) exist: edges into cur from j to i, in order. */
  ghost function LeftCount(y: nat, cur: int, j: int, i: int, c: int, b: int): int {
    if c <= 0 || c > cur then 0 else if c < cur then y else if b < i then j + 1 else j
  }

  ghost function RightCount(y: nat, cur: int, j: int, i: int, c: int, a: int): int {
    if c + 1 > cur then 0 else if c + 1 < cur then y else if a < j then y else if a == j then i else 0
  }

  /** The state of the edge loops of rebuildFeatures just before edge (cur, j, i) is added. */
  ghost predicate Linking(node: NodeTable, y: nat, nodes: set<Node>, paths: set<Path>, ft: Features, cur: int, j: int,
                          i: int)
    reads nodes`x, nodes`y, nodes`fvector, nodes`lpath, nodes`rpath, paths`lnode, paths`rnode, paths`fvector
  {
    && |ft.uni| == |node| && |ft.bi| + 1 == |node|
    && Placed(node, y, nodes, ft)
    && (forall c, b :: 0 <= c < |node| && 0 <= b < y ==>
          && |node[c][b].lpath| == LeftCount(y, cur, j, i, c, b)
          && |node[c][b].rpath| == RightCount(y, cur, j, i, c, b))
    && LeftLinks(node, y, nodes, paths, ft)
    && RightLinks(node, y, nodes)
  }

  ghost predicate Placed(node: NodeTable, y: nat, nodes: set<Node>, ft: Features)
    requires |ft.uni| == |node|
    reads nodes`x, nodes`y, nodes`fvector
  {
    && (forall c :: 0 <= c < |node| ==> |node[c]| == y)
    && (forall c, b :: 0 <= c < |node| && 0 <= b < y ==>
          node[c][b] in nodes && node[c][b].x == c && node[c][b].y == b && node[c][b].fvector == ft.uni[c])
  }

  /** Whatever edges a node has on its left, they come from the tags of the token before, in order. */
  ghost predicate LeftLinks(node: NodeTable, y: nat, nodes: set<Node>, paths: set<Path>, ft: Features)
    requires |ft.uni| == |node| && |ft.bi| + 1 == |node| && Placed(node, y, nodes, ft)
    reads nodes`x, nodes`y, nodes`fvector, nodes`lpath, paths`lnode, paths`rnode, paths`fvector
  {
    forall c, b, k :: 0 < c < |node| && 0 <= b < y && 0 <= k < |node[c][b].lpath| && k < y ==>
      LeftLink(node, paths, ft, c, b, k, node[c][b].lpath[k])
  }

  /** e is the edge from tag k of token c - 1 to tag b of token c. */
  ghost predicate LeftLink(node: NodeTable, paths: set<Path>, ft: Features, c: int, b: int, k: int, e: Path)
    requires 0 < c < |node| && |ft.bi| + 1 == |node| && 0 <= b < |node[c]| && 0 <= k < |node[c - 1]|
    reads paths`lnode, paths`rnode, paths`fvector
  {
    e in paths && e.fvector == ft.bi[c - 1] && e.lnode == node[c - 1][k] && e.rnode == node[c][b]
  }

  /** Whatever edges a node has on its right, they are the left edges of the tags of the next token, in order. */
  ghost predicate RightLinks(node: NodeTable, y: nat, nodes: set<Node>)
    requires forall c :: 0 <= c < |node| ==> |node[c]| == y
    requires forall c, b :: 0 <= c < |node| && 0 <= b < y ==> node[c][b] in nodes
    reads nodes`lpath, nodes`rpath
  {
    forall c, a, k :: 0 <= c < |node| - 1 && 0 <= a < y && 0 <= k < |node[c][a].rpath| && k < y ==>
      a < |node[c + 1][k].lpath| && node[c][a].rpath[k] == node[c + 1][k].lpath[a]
  }

  lemma LinkingDone(node: NodeTable, y: nat, nodes: set<Node>, paths: set<Path>, ft: Features)
    requires Linking(node, y, nodes, paths, ft, |node|, 0, 0)
    ensures Linked(node, y, nodes, paths) && Featured(node, y, nodes, paths, ft)
  {}

  lemma LinkingNextLeft(node: NodeTable, y: nat, nodes: set<Node>, paths: set<Path>, ft: Features, cur: int, j: int)
    requires Linking(node, y, nodes, paths, ft, cur, j, y) && 0 <= j
    ensures Linking(node, y, nodes, paths, ft, cur, j + 1, 0)
  {}

  lemma LinkingNextToken(node: NodeTable, y: nat, nodes: set<Node>, paths: set<Path>, ft: Features, cur: int)
    requires Linking(node, y, nodes, paths, ft, cur, y, 0) && 0 <= cur
    ensures Linking(node, y, nodes, paths, ft, cur + 1, 0, 0)
  {}

  // ---------- costs ----------

  ghost predicate PathPriced(p: Path, y: nat, nodes: set<Node>, cf: real, w: seq<real>)
    reads p`cost, p`fvector, p`lnode, p`rnode, nodes`y
  {
    && p.lnode in nodes && p.rnode in nodes
    && p.cost == Times(cf, FeatureCost(w, p.fvector, EdgeOff(p.lnode.y, y, p.rnode.y)))
  }

  /** calcCost has been run on the node and its left edges. */
  ghost predicate NodePriced(n: Node, y: nat, nodes: set<Node>, paths: set<Path>, cf: real, w: seq<real>)
    reads n`cost, n`fvector, n`y, n`lpath, nodes`y, paths`cost, paths`fvector, paths`lnode, paths`rnode
  {
    && n.cost == Times(cf, FeatureCost(w, n.fvector, n.y))
    && forall k :: 0 <= k < |n.lpath| ==> n.lpath[k] in paths && PathPriced(n.lpath[k], y, nodes, cf, w)
  }

  /** calcCost has been run on all nodes before node (i, j), in row-major order. */
  ghost predicate PricedTo(node: NodeTable, y: nat, nodes: set<Node>, paths: set<Path>, cf: real, w: seq<real>, i: int,
                           j: int)
    reads nodes`cost, nodes`fvector, nodes`y, nodes`lpath, paths`cost, paths`fvector, paths`lnode, paths`rnode
  {
    forall i', j' :: 0 <= i' < |node| && 0 <= j' < y && j' < |node[i']| && Before(i', j', i, j) ==>
      node[i'][j'] in nodes && NodePriced(node[i'][j'], y, nodes, paths, cf, w)
  }

  /** Row-major order of the nodes. */
  ghost predicate Before(i': int, j': int, i: int, j: int) {
    i' < i || (i' == i && j' < j)
  }

  lemma PricedNextRow(node: NodeTable, y: nat, nodes: set<Node>, paths: set<Path>, cf: real, w: seq<real>, i: int)
    requires PricedTo(node, y, nodes, paths, cf, w, i, y)
    ensures PricedTo(node, y, nodes, paths, cf, w, i + 1, 0)
  {
    hide NodePriced;
  }

  /** Once every node and every edge has the cost of its features, the lattice has the costs CostLattice says. */
  lemma AllPriced(node: NodeTable, y: nat, nodes: set<Node>, paths: set<Path>, ft: Features, cf: real, w: seq<real>)
    requires Linked(node, y, nodes, paths) && Featured(node, y, nodes, paths, ft)
    requires PricedTo(node, y, nodes, paths, cf, w, |node|, 0)
    ensures Priced(node, y, nodes, paths, CostLattice(cf, w, ft, y))
  {
    hide Times, FeatureCost, EdgeOff;
    var l := CostLattice(cf, w, ft, y);
    forall i, j | 0 <= i < |node| && 0 <= j < y ensures node[i][j].cost == l.node(i, j) {
      assert NodePriced(node[i][j], y, nodes, paths, cf, w);
    }
    forall i, j, k | 0 < i < |node| && 0 <= j < y && 0 <= k < y
      ensures node[i][j].lpath[k].cost == l.edge(i, k, j)
    {
      var p := node[i][j].lpath[k];
      assert NodePriced(node[i][j], y, nodes, paths, cf, w);
      assert PathPriced(p, y, nodes, cf, w) && p.lnode == node[i - 1][k] && p.rnode == node[i][j];
    }
  }
}
