/** feature.cpp and feature_index.cpp: feature vectors, recycled lattice objects, and their costs. */
module FeatureIndex {
  import opened Sums
  import opened Nodes
  import opened Features
  import opened LatticeHeap
  import opened FreeList
  import opened FeatureCache

  /** Chunks of equally many objects, all different. */
  ghost predicate Stocked<T>(chunks: seq<seq<T>>, size: nat) {
    && (forall c :: 0 <= c < |chunks| ==> |chunks[c]| == size)
    && (forall c, o, c', o' ::
          (0 <= c < |chunks| && 0 <= o < size && 0 <= c' < |chunks| && 0 <= o' < size && chunks[c][o] == chunks[c'][o'])
          ==> c == c' && o == o')
  }

  /** The object at the start of a slice. */
  ghost predicate At<T>(chunks: seq<seq<T>>, s: Slice, x: T) {
    s.chunk < |chunks| && s.off < |chunks[s.chunk]| && chunks[s.chunk][s.off] == x
  }

  ghost predicate Taken<T>(chunks: seq<seq<T>>, live: seq<Slice>, x: T) {
    exists s :: s in live && s.len == 1 && At(chunks, s, x)
  }

  ghost function Objects<T>(chunks: seq<seq<T>>): set<T> {
    set c, o | 0 <= c < |chunks| && 0 <= o < |chunks[c]| :: chunks[c][o]
  }

  /** A slot disjoint from all live slices holds an object that is not in use. */
  lemma FreshSlot<T>(chunks: seq<seq<T>>, size: nat, live: seq<Slice>, s: Slice, x: T)
    requires Stocked(chunks, size) && s.len == 1 && At(chunks, s, x)
    requires forall a :: a in live ==> Disjoint(a, s)
    ensures !Taken(chunks, live, x)
  {}

  /** Appending a chunk of new, different objects. */
  lemma StockedAppend<T>(chunks: seq<seq<T>>, size: nat, chunk: seq<T>)
    requires Stocked(chunks, size) && |chunk| == size
    requires forall o, o' :: 0 <= o < o' < size ==> chunk[o] != chunk[o']
    requires forall o :: 0 <= o < size ==> chunk[o] !in Objects(chunks)
    ensures Stocked(chunks + [chunk], size)
    ensures Objects(chunks + [chunk]) == Objects(chunks) + Objects([chunk])
  {
    var all := chunks + [chunk];
    forall c, o, c', o' | 0 <= c < |all| && 0 <= o < size && 0 <= c' < |all| && 0 <= o' < size &&
      all[c][o] == all[c'][o']
      ensures c == c' && o == o'
    {
      if c < |chunks| { assert all[c][o] in Objects(chunks); }
      if c' < |chunks| { assert all[c'][o'] in Objects(chunks); }
    }
    forall x | x in Objects(all) ensures x in Objects(chunks) + Objects([chunk]) {
      var c, o :| 0 <= c < |all| && 0 <= o < |all[c]| && all[c][o] == x;
      if c == |chunks| { assert [chunk][0][o] == x; }
    }
    forall x | x in Objects([chunk]) ensures x in Objects(all) {
      var o :| 0 <= o < |chunk| && chunk[o] == x;
      assert all[|chunks|][o] == x;
    }
    forall x | x in Objects(chunks) ensures x in Objects(all) {
      var c, o :| 0 <= c < |chunks| && 0 <= o < |chunks[c]| && chunks[c][o] == x;
      assert all[c][o] == x;
    }
  }

  /** FreeList<T> for objects that are handed out one at a time. */
  class Arena<T(==)> {
    const list: FreeList
    var chunks: seq<seq<T>>
    ghost var owned: set<T>  // every object of every chunk
    ghost var taken: set<T>  // handed out since the last Free

    ghost predicate Valid()
      reads this, list
    {
      && list.Valid() && list.size > 1 && |chunks| == list.chunks
      && Stocked(chunks, list.size) && (forall c :: 0 <= c < |chunks| ==> |chunks[c]| == list.size)
      && owned == Objects(chunks)
      && (forall x :: x in taken ==> x in owned && Taken(chunks, list.live, x))
      && (forall s :: s in list.live ==> s.len == 1)
    }

    constructor (size: nat)
      requires size > 1
      ensures Valid() && owned == {} && taken == {} && fresh(list) && list.size == size
    {
      list := new FreeList(size);
      chunks, owned, taken := [], {}, {};
    }

    lemma TakenOwned()
      requires Valid()
      ensures taken <= owned
    {}

    method Free()
      requires Valid()
      modifies this, list
      ensures Valid() && taken == {} && owned == old(owned)
    {
      taken := {};
      list.Free();
    }

    /** An object that is not in use. The caller constructs the objects of a new chunk when one is needed. */
    method Alloc(spare: seq<T>) returns (x: T)
      requires Valid()
      requires list.NeedsChunk(1) ==> |spare| == list.size
      requires forall o :: 0 <= o < |spare| ==> spare[o] !in owned
      requires forall o, o' :: 0 <= o < o' < |spare| ==> spare[o] != spare[o']
      modifies this, list
      ensures Valid() && x in owned && x !in old(taken) && taken == old(taken) + {x}
      ensures owned == old(owned) + if old(list.NeedsChunk(1)) then Objects([spare]) else {}
    {
      hide FreeList.Valid, Stocked, Disjoint;
      var c, off := list.Alloc(1);
      if |chunks| < list.chunks {
        StockedAppend(chunks, list.size, spare);
        chunks := chunks + [spare];
        owned := Objects(chunks);
      }
      x := chunks[c][off];
      FreshSlot(chunks, list.size, old(list.live), Slice(c, off, 1), x);
      taken := taken + {x};
    }
  }

  method NewNodes(size: nat) returns (chunk: seq<Node>)
    ensures |chunk| == size && forall o :: 0 <= o < size ==> fresh(chunk[o])
    ensures forall o, o' :: 0 <= o < o' < size ==> chunk[o] != chunk[o']
  {
    chunk := [];
    while |chunk| < size
      invariant |chunk| <= size && forall o :: 0 <= o < |chunk| ==> fresh(chunk[o])
      invariant forall o, o' :: 0 <= o < o' < |chunk| ==> chunk[o] != chunk[o']
    {
      var n := new Node();
      chunk := chunk + [n];
    }
  }

  method NewPaths(size: nat) returns (chunk: seq<Path>)
    ensures |chunk| == size && forall o :: 0 <= o < size ==> fresh(chunk[o])
    ensures forall o, o' :: 0 <= o < o' < size ==> chunk[o] != chunk[o']
  {
    chunk := [];
    while |chunk| < size
      invariant |chunk| <= size && forall o :: 0 <= o < |chunk| ==> fresh(chunk[o])
      invariant forall o, o' :: 0 <= o < o' < |chunk| ==> chunk[o] != chunk[o']
    {
      var p := new Path();
      chunk := chunk + [p];
    }
  }

  class FeatureIndex {
    var y: nat  // y_.size()
    var costFactor: real
    var alpha: seq<real>  // alpha_, or alpha_float_ once that is set
    const cache: FeatureCache
    const nodeArena: Arena<Node>
    const pathArena: Arena<Path>

    constructor (y: nat, nodeSize: nat, pathSize: nat, cacheSize: nat)
      requires nodeSize > 1 && pathSize > 1
      ensures Valid() && this.y == y && costFactor == 1.0 && cache.contents == []
      ensures fresh(cache) && fresh(cache.list) && cache.list.size == cacheSize && cache.mem == []
      ensures fresh(nodeArena) && fresh(nodeArena.list) && fresh(pathArena) && fresh(pathArena.list)
      ensures nodeArena.owned == {} && pathArena.owned == {}
    {
      this.y := y;
      costFactor, alpha := 1.0, [];
      cache := new FeatureCache(cacheSize);
      nodeArena := new Arena(nodeSize);
      pathArena := new Arena(pathSize);
    }

    ghost predicate Valid()
      reads cache, cache.list, cache.mem, nodeArena, nodeArena.list, pathArena, pathArena.list
    {
      && cache.Valid() && nodeArena.Valid() && pathArena.Valid()
      && cache.list != nodeArena.list && cache.list != pathArena.list && nodeArena.list != pathArena.list
    }

    method AllocNode() returns (n: Node)
      requires nodeArena.Valid()
      modifies nodeArena, nodeArena.list
      ensures nodeArena.Valid()
      ensures n in nodeArena.owned && n !in old(nodeArena.taken) && nodeArena.taken == old(nodeArena.taken) + {n}
      ensures nodeArena.owned >= old(nodeArena.owned) && fresh(nodeArena.owned - old(nodeArena.owned))
    {
      var spare: seq<Node> := [];
      if nodeArena.list.NeedsChunk(1) {
        spare := NewNodes(nodeArena.list.size);
      }
      n := nodeArena.Alloc(spare);
    }

    method AllocPath() returns (p: Path)
      requires pathArena.Valid()
      modifies pathArena, pathArena.list
      ensures pathArena.Valid()
      ensures p in pathArena.owned && p !in old(pathArena.taken) && pathArena.taken == old(pathArena.taken) + {p}
      ensures pathArena.owned >= old(pathArena.owned) && fresh(pathArena.owned - old(pathArena.owned))
    {
      var spare: seq<Path> := [];
      if pathArena.list.NeedsChunk(1) {
        spare := NewPaths(pathArena.list.size);
      }
      p := pathArena.Alloc(spare);
    }

    method NewNode(i: nat, j: nat, f: seq<nat>) returns (n: Node)
      requires nodeArena.Valid()
      modifies nodeArena, nodeArena.list, nodeArena.owned
      ensures nodeArena.Valid() && fresh(nodeArena.owned - old(nodeArena.owned))
      ensures n !in old(nodeArena.taken) && nodeArena.taken == old(nodeArena.taken) + {n}
      ensures Blank(n, i, j, f) && forall b :: b in old(nodeArena.taken) ==> unchanged(b)
    {
      n := AllocNode();
      n.Clear();
      n.x := i;
      n.y := j;
      n.fvector := f;
    }

    /** All nodes of one token, next to the rows made before. */
    method MakeRow(node: NodeTable, uni: seq<seq<nat>>, f: seq<nat>) returns (row: seq<Node>)
      requires nodeArena.Valid() && Made(node, y, nodeArena.taken, uni)
      modifies nodeArena, nodeArena.list, nodeArena.owned
      ensures nodeArena.Valid() && fresh(nodeArena.owned - old(nodeArena.owned))
      ensures Made(node + [row], y, nodeArena.taken, uni + [f])
    {
      var i := |node|;
      row := [];
      while |row| < y
        invariant |row| <= y && nodeArena.Valid() && fresh(nodeArena.owned - old(nodeArena.owned))
        invariant nodeArena.taken >= old(nodeArena.taken) && forall b :: b in old(nodeArena.taken) ==> unchanged(b)
        invariant BlankRow(row, i, f, nodeArena.taken)
      {
        hide Arena.Valid, Made;
        var n := NewNode(i, |row|, f);
        row := row + [n];
      }
    }

    /** The first loop of rebuildFeatures: one cleared node per token and tag. */
    method MakeNodes(uni: seq<seq<nat>>) returns (node: NodeTable)
      requires nodeArena.Valid()
      modifies nodeArena, nodeArena.list, nodeArena.owned
      ensures nodeArena.Valid() && fresh(nodeArena.owned - old(nodeArena.owned))
      ensures Made(node, y, nodeArena.taken, uni)
    {
      hide Arena.Valid, BlankRow, Made;
      node := [];
      MadeNone(y, nodeArena.taken);
      while |node| < |uni|
        invariant |node| <= |uni| && nodeArena.Valid() && fresh(nodeArena.owned - old(nodeArena.owned))
        invariant Made(node, y, nodeArena.taken, uni[..|node|])
      {
        var row := MakeRow(node, uni[..|node|], uni[|node|]);
        assert uni[..|node|] + [uni[|node|]] == uni[..|node| + 1];
        node := node + [row];
      }
      assert uni[..|uni|] == uni;
    }

    /** The innermost body of rebuildFeatures: the edge from tag j of token cur - 1 to tag i of token cur. */
    method AddEdge(node: NodeTable, ghost nodes: set<Node>, ghost ft: Features, f: seq<nat>, cur: nat, j: nat, i: nat)
      requires pathArena.Valid() && 0 < cur < |node| && j < y && i < y
      requires Linking(node, y, nodes, pathArena.taken, ft, cur, j, i) && f == ft.bi[cur - 1]
      modifies pathArena, pathArena.list, pathArena.owned, nodes`lpath, nodes`rpath
      ensures pathArena.Valid() && fresh(pathArena.owned - old(pathArena.owned))
      ensures Linking(node, y, nodes, pathArena.taken, ft, cur, j, i + 1)
    {
      hide Arena.Valid;
      hide Linking;
      var p := AllocPath();
      Connect(node, nodes, old(pathArena.taken), ft, p, f, cur, j, i);
    }

    method Connect(node: NodeTable, ghost nodes: set<Node>, ghost paths: set<Path>, ghost ft: Features, p: Path,
                   f: seq<nat>, cur: nat, j: nat, i: nat)
      requires 0 < cur < |node| && j < y && i < y && p !in paths
      requires Linking(node, y, nodes, paths, ft, cur, j, i) && f == ft.bi[cur - 1]
      modifies p, nodes`lpath, nodes`rpath
      ensures Linking(node, y, nodes, paths + {p}, ft, cur, j, i + 1)
    {
      hide Linking;
      FreshEdge(node, y, nodes, paths, ft, cur, j, i);
      p.Clear();
      p.Add(node[cur - 1][j], node[cur][i]);
      p.fvector := f;
      EdgeStep(Graph(node, y, nodes, paths, ft, cur, j, i), p);
    }

    /** The second loop of rebuildFeatures: all edges between neighbouring tokens. */
    method LinkNodes(node: NodeTable, ghost nodes: set<Node>, ft: Features)
      requires pathArena.Valid() && pathArena.taken == {} && |node| > 0
      requires |ft.bi| + 1 == |node| && Made(node, y, nodes, ft.uni)
      modifies pathArena, pathArena.list, pathArena.owned, nodes`lpath, nodes`rpath
      ensures pathArena.Valid() && fresh(pathArena.owned - old(pathArena.owned))
      ensures Linked(node, y, nodes, pathArena.taken) && Featured(node, y, nodes, pathArena.taken, ft)
    {
      hide Arena.Valid, Made, Linking, Linked, Featured;
      LinkingStart(node, y, nodes, ft);
      var cur := 1;
      while cur < |node|
        invariant 1 <= cur <= |node| && pathArena.Valid() && fresh(pathArena.owned - old(pathArena.owned))
        invariant Linking(node, y, nodes, pathArena.taken, ft, cur, 0, 0)
      {
        var f := ft.bi[cur - 1];
        var j := 0;
        while j < y
          invariant j <= y && pathArena.Valid() && fresh(pathArena.owned - old(pathArena.owned))
          invariant Linking(node, y, nodes, pathArena.taken, ft, cur, j, 0)
        {
          var i := 0;
          while i < y
            invariant i <= y && pathArena.Valid() && fresh(pathArena.owned - old(pathArena.owned))
            invariant Linking(node, y, nodes, pathArena.taken, ft, cur, j, i)
          {
            AddEdge(node, nodes, ft, f, cur, j, i);
            i := i + 1;
          }
          LinkingNextLeft(node, y, nodes, pathArena.taken, ft, cur, j);
          j := j + 1;
        }
        LinkingNextToken(node, y, nodes, pathArena.taken, ft, cur);
        cur := cur + 1;
      }
      LinkingDone(node, y, nodes, pathArena.taken, ft);
    }

    /** The feature vectors cached for a sentence of the given size: one per token, then one per pair of neighbours. */
    ghost function CachedFeatures(fid: nat, size: nat): Features
      requires size > 0 && fid + 2 * size - 1 <= |cache.contents|
      reads cache
    {
      Features(cache.contents[fid..fid + size], cache.contents[fid + size..fid + 2 * size - 1])
    }

    /** Entries fid, fid + 1, ... of the cache hold the features ft of a sentence of this size. */
    ghost predicate Cached(fid: nat, size: nat, ft: Features)
      reads cache
    {
      && size > 0 && fid + 2 * size - 1 <= |cache.vectors| == |cache.contents|
      && ft == CachedFeatures(fid, size)
    }

    method ReadCache(fid: nat, size: nat) returns (ft: Features)
      requires cache.Valid() && size > 0 && fid + 2 * size - 1 <= |cache.vectors|
      ensures |ft.uni| == size && |ft.bi| == size - 1
      ensures ft == CachedFeatures(fid, size)
    {
      hide FeatureCache.Valid;
      cache.SameSize();
      var uni, bi := [], [];
      while |uni| < size
        invariant |uni| <= size && uni == cache.contents[fid..fid + |uni|]
      {
        var f := cache.Vector(fid + |uni|);
        uni := uni + [f];
      }
      while |bi| < size - 1
        invariant |bi| <= size - 1 && bi == cache.contents[fid + size..fid + size + |bi|]
      {
        var f := cache.Vector(fid + size + |bi|);
        bi := bi + [f];
      }
      ft := Features(uni, bi);
    }

    /** feature.cpp rebuildFeatures: out of the recycled arenas, a lattice in which every node and edge carries the
        feature vector cached for it. */
    method RebuildFeatures(size: nat, fid: nat) returns (node: NodeTable, ghost ft: Features)
      requires Valid() && size > 0 && fid + 2 * size - 1 <= |cache.vectors|
      modifies nodeArena, nodeArena.list, nodeArena.owned, pathArena, pathArena.list, pathArena.owned
      ensures Valid() && nodeArena.taken <= nodeArena.owned && pathArena.taken <= pathArena.owned
      ensures fresh(nodeArena.owned - old(nodeArena.owned)) && fresh(pathArena.owned - old(pathArena.owned))
      ensures ft == old(CachedFeatures(fid, size)) && |node| == size
      ensures Linked(node, y, nodeArena.taken, pathArena.taken)
      ensures Featured(node, y, nodeArena.taken, pathArena.taken, ft)
    {
      hide Linked, Featured, Arena.Valid, FeatureCache.Valid;
      var features := ReadCache(fid, size);
      ft := features;
      node := Rebuild(features);
      nodeArena.TakenOwned();
      pathArena.TakenOwned();
    }

    method Rebuild(features: Features) returns (node: NodeTable)
      requires nodeArena.Valid() && pathArena.Valid() && nodeArena.list != pathArena.list
      requires |features.uni| == |features.bi| + 1
      modifies nodeArena, nodeArena.list, nodeArena.owned, pathArena, pathArena.list, pathArena.owned
      ensures nodeArena.Valid() && pathArena.Valid()
      ensures fresh(nodeArena.owned - old(nodeArena.owned)) && fresh(pathArena.owned - old(pathArena.owned))
      ensures |node| == |features.uni|
      ensures Linked(node, y, nodeArena.taken, pathArena.taken)
      ensures Featured(node, y, nodeArena.taken, pathArena.taken, features)
    {
      hide Made, Linked, Featured, Arena.Valid;
      pathArena.Free();
      nodeArena.Free();
      node := MakeNodes(features.uni);
      MadeSize(node, y, nodeArena.taken, features.uni);
      nodeArena.TakenOwned();
      LinkNodes(node, nodeArena.taken, features);
    }

    /** feature_index.cpp calcCost(Node*). */
    method CalcNodeCost(n: Node)
      modifies n`cost
      ensures n.cost == Times(costFactor, FeatureCost(alpha, n.fvector, n.y))
    {
      var c := WeightSum(alpha, n.fvector, n.y);
      n.cost := Times(costFactor, c);
    }

    /** feature_index.cpp calcCost(Path*). */
    method CalcPathCost(p: Path)
      requires p.lnode != null && p.rnode != null
      modifies p`cost
      ensures p.cost == Times(costFactor, FeatureCost(alpha, p.fvector, p.lnode.y * y + p.rnode.y))
    {
      var c := WeightSum(alpha, p.fvector, p.lnode.y * y + p.rnode.y);
      p.cost := Times(costFactor, c);
    }
  }

  /** The loop of ADD_COST: the weights of the features, moved by off. */
  method WeightSum(w: seq<real>, fv: seq<nat>, off: nat) returns (c: real)
    ensures c == FeatureCost(w, fv, off)
  {
    c := 0.0;
    var f := 0;
    while f < |fv|
      invariant f <= |fv| && c == FeatureCost(w, fv[..f], off)
    {
      assert fv[..f + 1][..f] == fv[..f];
      c := c + if fv[f] + off < |w| then w[fv[f] + off] else 0.0;
      f := f + 1;
    }
    assert fv[..f] == fv;
  }

  lemma MadeSize(node: NodeTable, y: nat, nodes: set<Node>, uni: seq<seq<nat>>)
    requires Made(node, y, nodes, uni)
    ensures |node| == |uni|
  {}

  /** Before any edge is added. */
  lemma LinkingStart(node: NodeTable, y: nat, nodes: set<Node>, ft: Features)
    requires Made(node, y, nodes, ft.uni) && |ft.bi| + 1 == |node|
    ensures Linking(node, y, nodes, {}, ft, 1, 0, 0)
  {}

  /** Everything an edge step depends on. */
  datatype Graph = Graph(node: NodeTable, y: nat, nodes: set<Node>, paths: set<Path>, ft: Features,
                         cur: nat, j: nat, i: nat)

  lemma FreshEdge(node: NodeTable, y: nat, nodes: set<Node>, paths: set<Path>, ft: Features, cur: nat, j: nat, i: nat)
    requires Linking(node, y, nodes, paths, ft, cur, j, i) && 0 < cur < |node| && j < y && i < y
    ensures |node[cur - 1]| == y && |node[cur]| == y
    ensures node[cur - 1][j] != node[cur][i] && node[cur - 1][j] in nodes && node[cur][i] in nodes
  {}

  /** Exactly the two ends of the new edge p have changed. */
  twostate predicate Grown(g: Graph, new p: Path)
    requires |g.ft.uni| == |g.node| && Placed(g.node, g.y, g.nodes, g.ft)
    reads g.nodes`x, g.nodes`y, g.nodes`fvector, g.nodes`lpath, g.nodes`rpath
  {
    forall c, b :: 0 <= c < |g.node| && 0 <= b < g.y ==>
      && g.node[c][b].lpath == old(g.node[c][b].lpath) + (if c == g.cur && b == g.i then [p] else [])
      && g.node[c][b].rpath == old(g.node[c][b].rpath) + (if c == g.cur - 1 && b == g.j then [p] else [])
  }

  twostate lemma EdgeAdded(g: Graph, new p: Path)
    requires 0 < g.cur < |g.node| && g.j < g.y && g.i < g.y && |g.ft.uni| == |g.node|
    requires old(Placed(g.node, g.y, g.nodes, g.ft))
    requires g.node[g.cur - 1][g.j].rpath == old(g.node[g.cur - 1][g.j].rpath) + [p]
    requires g.node[g.cur][g.i].lpath == old(g.node[g.cur][g.i].lpath) + [p]
    requires forall n :: n in g.nodes ==> n.x == old(n.x) && n.y == old(n.y) && n.fvector == old(n.fvector)
    requires forall n :: n in g.nodes && n != g.node[g.cur - 1][g.j] ==> n.rpath == old(n.rpath)
    requires forall n :: n in g.nodes && n != g.node[g.cur][g.i] ==> n.lpath == old(n.lpath)
    ensures Placed(g.node, g.y, g.nodes, g.ft) && Grown(g, p)
  {}

  twostate lemma KeepsLeft(g: Graph, new p: Path)
    requires 0 < g.cur < |g.node| && g.j < g.y && g.i < g.y
    requires old(Linking(g.node, g.y, g.nodes, g.paths, g.ft, g.cur, g.j, g.i))
    requires Placed(g.node, g.y, g.nodes, g.ft) && Grown(g, p)
    requires p.lnode == g.node[g.cur - 1][g.j] && p.rnode == g.node[g.cur][g.i] && p.fvector == g.ft.bi[g.cur - 1]
    requires forall q :: q in g.paths ==>
      q.lnode == old(q.lnode) && q.rnode == old(q.rnode) && q.fvector == old(q.fvector)
    ensures LeftLinks(g.node, g.y, g.nodes, g.paths + {p}, g.ft)
  {
    forall c, b, k | 0 < c < |g.node| && 0 <= b < g.y && 0 <= k < |g.node[c][b].lpath| && k < g.y
      ensures LeftLink(g.node, g.paths + {p}, g.ft, c, b, k, g.node[c][b].lpath[k])
    {
      if k < |old(g.node[c][b].lpath)| {
        assert old(LeftLink(g.node, g.paths, g.ft, c, b, k, g.node[c][b].lpath[k]));
      }
    }
  }

  twostate lemma KeepsRight(g: Graph, new p: Path)
    requires 0 < g.cur < |g.node| && g.j < g.y && g.i < g.y
    requires old(Linking(g.node, g.y, g.nodes, g.paths, g.ft, g.cur, g.j, g.i))
    requires Placed(g.node, g.y, g.nodes, g.ft) && Grown(g, p)
    ensures RightLinks(g.node, g.y, g.nodes)
  {}

  twostate lemma EdgeStep(g: Graph, new p: Path)
    requires 0 < g.cur < |g.node| && g.j < g.y && g.i < g.y
    requires old(Linking(g.node, g.y, g.nodes, g.paths, g.ft, g.cur, g.j, g.i))
    requires g.node[g.cur - 1][g.j].rpath == old(g.node[g.cur - 1][g.j].rpath) + [p]
    requires g.node[g.cur][g.i].lpath == old(g.node[g.cur][g.i].lpath) + [p]
    requires forall n :: n in g.nodes ==> n.x == old(n.x) && n.y == old(n.y) && n.fvector == old(n.fvector)
    requires forall n :: n in g.nodes && n != g.node[g.cur - 1][g.j] ==> n.rpath == old(n.rpath)
    requires forall n :: n in g.nodes && n != g.node[g.cur][g.i] ==> n.lpath == old(n.lpath)
    requires p.lnode == g.node[g.cur - 1][g.j] && p.rnode == g.node[g.cur][g.i] && p.fvector == g.ft.bi[g.cur - 1]
    requires forall q :: q in g.paths ==>
      q.lnode == old(q.lnode) && q.rnode == old(q.rnode) && q.fvector == old(q.fvector)
    ensures Linking(g.node, g.y, g.nodes, g.paths + {p}, g.ft, g.cur, g.j, g.i + 1)
  {
    hide LeftLinks, RightLinks;
    EdgeAdded(g, p);
    KeepsLeft(g, p);
    KeepsRight(g, p);
  }

  /** A node as rebuildFeatures leaves it before any edge is added. */
  ghost predicate Blank(n: Node, i: int, j: int, f: seq<nat>)
    reads n
  {
    n.x == i && n.y == j && n.fvector == f && n.lpath == [] && n.rpath == []
  }

  ghost predicate BlankRow(row: seq<Node>, i: int, f: seq<nat>, nodes: set<Node>)
    reads nodes
  {
    forall j :: 0 <= j < |row| ==> row[j] in nodes && Blank(row[j], i, j, f)
  }

  ghost predicate Made(node: NodeTable, y: nat, nodes: set<Node>, uni: seq<seq<nat>>)
    reads nodes
  {
    && |uni| == |node|
    && forall i :: 0 <= i < |node| ==> |node[i]| == y && BlankRow(node[i], i, uni[i], nodes)
  }

  lemma MadeNone(y: nat, nodes: set<Node>)
    ensures Made([], y, nodes, [])
  {}
}
