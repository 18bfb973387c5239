/** tagger.cpp: the algorithms that run over the lattice of one sentence. */
module Tagger {
  import opened Sums
  import opened Lattice
  import opened ExpLog
  import opened ForwardBackward
  import opened Viterbi
  import opened Nodes
  import opened LatticeHeap
  import opened Features
  import opened FeatureIndex

  class Tagger {
    var ysize: nat
    var node: NodeTable
    var answer: Tags
    var result: Tags
    var cost: real
    var z: real
    ghost var lattice: Lattice
    ghost var features: Features

    ghost var nodes: set<Node>
    ghost var paths: set<Path>

    ghost predicate Ready()
      reads `ysize, `node, `lattice, `nodes, `paths
      reads nodes`x, nodes`y, nodes`lpath, nodes`rpath, paths`lnode, paths`rnode, nodes`cost, paths`cost
    {
      && ysize > 0 && |node| > 0
      && Linked(node, ysize, nodes, paths)
      && Priced(node, ysize, nodes, paths, lattice)
    }

    lemma Basics()
      requires Ready()
      ensures |node| > 0 && ysize > 0 && lattice.n == |node| && lattice.y == ysize
      ensures forall i :: 0 <= i < |node| ==> |node[i]| == ysize
    {}

    /** What Ready says about one node. */
    lemma NodeAt(i: nat, j: nat)
      requires Ready() && i < |node| && j < ysize
      ensures lattice.n == |node| && lattice.y == ysize && node[i][j] in nodes
      ensures forall i' :: 0 <= i' < |node| ==> |node[i']| == ysize
      ensures var n := node[i][j];
        && n.x == i && n.y == j && n.cost == lattice.node(i, j)
        && |n.lpath| == (if i == 0 then 0 else ysize)
        && |n.rpath| == (if i == |node| - 1 then 0 else ysize)
        && (forall k :: 0 <= k < |n.lpath| ==>
              && n.lpath[k] in paths && n.lpath[k].lnode in nodes && n.lpath[k].lnode == node[i - 1][k]
              && n.lpath[k].rnode == n
              && n.lpath[k].lnode.x == i - 1 && n.lpath[k].lnode.y == k
              && n.lpath[k].cost == lattice.edge(i, k, j))
        && (forall k :: 0 <= k < |n.rpath| ==>
              && n.rpath[k] in paths && n.rpath[k].rnode in nodes && n.rpath[k].rnode == node[i + 1][k]
              && n.rpath[k].lnode == n
              && n.rpath[k].rnode.x == i + 1 && n.rpath[k].rnode.y == k
              && n.rpath[k].cost == lattice.edge(i + 1, j, k))
    {}

    lemma NodesDiffer(i: nat, j: nat)
      requires Ready() && i < |node| && j < ysize
      ensures forall i', j' :: 0 <= i' < |node| && 0 <= j' < ysize && node[i'][j'] == node[i][j] ==> i' == i && j' == j
    {}

    ghost predicate AlphaDone(m: ExpLog, i: int, j: int)
      requires 0 <= i < |node| && 0 <= j < |node[i]| && node[i][j] in nodes
      reads `node, `lattice, `nodes, nodes`alpha
    {
      m.exp(node[i][j].alpha) == AlphaSum(m, lattice, i, j)
    }

    ghost predicate Forwarded(m: ExpLog)
      requires Ready()
      reads `ysize, `node, `lattice, `nodes, `paths, nodes`alpha
      reads nodes`x, nodes`y, nodes`lpath, nodes`rpath, paths`lnode, paths`rnode, nodes`cost, paths`cost
    {
      forall i, j :: 0 <= i < |node| && 0 <= j < ysize ==> AlphaDone(m, i, j)
    }

    method ForwardPass(m: ExpLog)
      requires Lawful(m) && Ready()
      modifies nodes`alpha
      ensures Ready() && Forwarded(m)
    {
      var i := 0;
      while i < |node|
        invariant i <= |node|
        invariant Ready()
        invariant forall i', j' :: 0 <= i' < i && 0 <= j' < ysize ==> AlphaDone(m, i', j')
      {
        var j := 0;
        while j < ysize
          invariant j <= ysize
          invariant Ready()
          invariant forall i', j' :: 0 <= i' < i && 0 <= j' < ysize ==> AlphaDone(m, i', j')
          invariant forall j' :: 0 <= j' < j ==> AlphaDone(m, i, j')
        {
          hide Linked, Priced, Lawful, AlphaDone;
          AlphaAt(m, node[i][j], i, j);
          j := j + 1;
        }
        i := i + 1;
      }
    }

    lemma LeftTerms(m: ExpLog, i: nat, j: nat)
      requires Lawful(m) && Ready() && 0 < i < |node| && j < ysize
      requires forall i', k :: 0 <= i' < i && 0 <= k < ysize ==> AlphaDone(m, i', k)
      ensures forall k :: 0 <= k < ysize ==>
        m.exp(node[i][j].lpath[k].cost + node[i][j].lpath[k].lnode.alpha) == LeftTerm(m, lattice, i, j)(k)
    {
      hide Times, Lawful, AlphaSum, Linked, Priced, Ready;
      NodeAt(i, j);
      var n := node[i][j];
      forall k | 0 <= k < ysize
        ensures m.exp(n.lpath[k].cost + n.lpath[k].lnode.alpha) == LeftTerm(m, lattice, i, j)(k)
      {
        ExpSum(m, n.lpath[k].cost, n.lpath[k].lnode.alpha);
        assert AlphaDone(m, i - 1, k);
      }
    }

    /** Body of the forward loop. */
    method AlphaAt(m: ExpLog, n: Node, i: nat, j: nat)
      requires Lawful(m) && Ready() && i < |node| && j < ysize && n == node[i][j]
      requires forall i', k :: 0 <= i' < i && 0 <= k < ysize ==> AlphaDone(m, i', k)
      modifies n`alpha
      ensures Ready() && AlphaDone(m, i, j)
      ensures forall i', j' :: 0 <= i' < |node| && 0 <= j' < ysize && (i' != i || j' != j) ==>
        AlphaDone(m, i', j') == old(AlphaDone(m, i', j'))
    {
      hide Times, Lawful, AlphaSum, Linked, Priced, Ready, LeftTerm, Sum;
      NodeAt(i, j);
      NodesDiffer(i, j);
      if i == 0 {
        AlphaFirst(m, lattice, j);
        n.CalcAlpha(m, k => 0.0);
      } else {
        LeftTerms(m, i, j);
        AlphaStep(m, lattice, i, j);
        n.CalcAlpha(m, LeftTerm(m, lattice, i, j));
      }
    }

    ghost predicate BetaDone(m: ExpLog, i: int, j: int)
      requires 0 <= i < |node| && 0 <= j < |node[i]| && node[i][j] in nodes
      reads `node, `lattice, `nodes, nodes`beta
    {
      m.exp(node[i][j].beta) == BetaSum(m, lattice, i, j)
    }

    ghost predicate Backwarded(m: ExpLog)
      requires Ready()
      reads `ysize, `node, `lattice, `nodes, `paths, nodes`beta
      reads nodes`x, nodes`y, nodes`lpath, nodes`rpath, paths`lnode, paths`rnode, nodes`cost, paths`cost
    {
      forall i, j :: 0 <= i < |node| && 0 <= j < ysize ==> BetaDone(m, i, j)
    }

    method BackwardPass(m: ExpLog)
      requires Lawful(m) && Ready()
      modifies nodes`beta
      ensures Ready() && Backwarded(m)
    {
      var i := |node| - 1;
      while i >= 0
        invariant -1 <= i < |node|
        invariant Ready()
        invariant forall i', j' :: i < i' < |node| && 0 <= j' < ysize ==> BetaDone(m, i', j')
      {
        var j := 0;
        while j < ysize
          invariant j <= ysize
          invariant Ready()
          invariant forall i', j' :: i < i' < |node| && 0 <= j' < ysize ==> BetaDone(m, i', j')
          invariant forall j' :: 0 <= j' < j ==> BetaDone(m, i, j')
        {
          hide Linked, Priced, Lawful, BetaDone;
          BetaAt(m, node[i][j], i, j);
          j := j + 1;
        }
        i := i - 1;
      }
    }

    lemma RightTerms(m: ExpLog, i: nat, j: nat)
      requires Lawful(m) && Ready() && i + 1 < |node| && j < ysize
      requires forall i', k :: i < i' < |node| && 0 <= k < ysize ==> BetaDone(m, i', k)
      ensures forall k :: 0 <= k < ysize ==>
        m.exp(node[i][j].rpath[k].cost + node[i][j].rpath[k].rnode.beta) == RightTerm(m, lattice, i, j)(k)
    {
      hide Times, Lawful, BetaSum, Linked, Priced, Ready;
      NodeAt(i, j);
      var n := node[i][j];
      forall k | 0 <= k < ysize
        ensures m.exp(n.rpath[k].cost + n.rpath[k].rnode.beta) == RightTerm(m, lattice, i, j)(k)
      {
        ExpSum(m, n.rpath[k].cost, n.rpath[k].rnode.beta);
        assert BetaDone(m, i + 1, k);
      }
    }

    /** Body of the backward loop. */
    method BetaAt(m: ExpLog, n: Node, i: nat, j: nat)
      requires Lawful(m) && Ready() && i < |node| && j < ysize && n == node[i][j]
      requires forall i', k :: i < i' < |node| && 0 <= k < ysize ==> BetaDone(m, i', k)
      modifies n`beta
      ensures Ready() && BetaDone(m, i, j)
      ensures forall i', j' :: 0 <= i' < |node| && 0 <= j' < ysize && (i' != i || j' != j) ==>
        BetaDone(m, i', j') == old(BetaDone(m, i', j'))
    {
      hide Times, Lawful, BetaSum, Linked, Priced, Ready, RightTerm, Sum;
      NodeAt(i, j);
      NodesDiffer(i, j);
      if i == |node| - 1 {
        BetaLast(m, lattice, j);
        n.CalcBeta(m, k => 0.0);
      } else {
        RightTerms(m, i, j);
        BetaStep(m, lattice, i, j);
        n.CalcBeta(m, RightTerm(m, lattice, i, j));
      }
    }

    /** forwardbackward has been run: alpha, beta and Z are the logs of the sums they stand for. */
    ghost predicate Summed(m: ExpLog)
      reads `ysize, `node, `lattice, `nodes, `paths, `z
      reads nodes`x, nodes`y, nodes`lpath, nodes`rpath, paths`lnode, paths`rnode, nodes`cost, paths`cost
      reads nodes`alpha, nodes`beta
    {
      && Ready()
      && Forwarded(m) && Backwarded(m)
      && m.exp(z) == Partition(m, lattice)
    }

    /** tagger.cpp forwardbackward: alpha and beta are the logs of sums over all prefixes and all suffixes, Z is the
        log of the sum over all tag sequences. */
    method ForwardBackward(m: ExpLog)
      requires Lawful(m) && Ready()
      modifies nodes`alpha, nodes`beta, this`z
      ensures Summed(m)
    {
      hide Lawful, Ready, Forwarded, Backwarded, BetaSum, Partition, Sum;
      ForwardPass(m);
      BackwardPass(m);
      ghost var l := lattice;
      FirstColumn(m);
      PartitionIsBetaSum(m, l);
      SumFirst(m, j => BetaSum(m, l, 0, j));
    }

    lemma FirstColumn(m: ExpLog)
      requires Ready() && Backwarded(m)
      ensures |node| > 0 && ysize > 0 && |node[0]| == ysize == lattice.y && lattice.n == |node|
      ensures forall j :: 0 <= j < ysize ==> m.exp(node[0][j].beta) == BetaSum(m, lattice, 0, j)
    {
      hide BetaSum;
      forall j | 0 <= j < ysize ensures m.exp(node[0][j].beta) == BetaSum(m, lattice, 0, j) {
        assert BetaDone(m, 0, j);
      }
    }

    method SumFirst(m: ExpLog, ghost b: int -> real)
      requires Lawful(m) && |node| > 0 && ysize > 0 && |node[0]| == ysize
      requires forall j :: 0 <= j < ysize ==> m.exp(node[0][j].beta) == b(j)
      modifies `z
      ensures m.exp(z) == Sum(ysize, b)
    {
      hide Lawful;
      z := 0.0;
      var j := 0;
      while j < ysize
        invariant j <= ysize
        invariant j > 0 ==> m.exp(z) == Sum(j, b)
      {
        LogSumExpSpec(m, z, node[0][j].beta);
        z := LogSumExp(m, z, node[0][j].beta, j == 0);
        j := j + 1;
      }
    }

    /** tagger.h prob(i, j) is the share of the tag sequences that use tag j at token i. */
    method Prob(m: ExpLog, i: nat, j: nat) returns (p: real)
      requires Lawful(m) && Summed(m) && i < |node| && j < ysize
      ensures Partition(m, lattice) > 0.0 && p == NodeProb(m, lattice, i, j)
    {
      hide Times, Lawful, Linked, Priced, AlphaSum, BetaSum;
      NodeAt(i, j);
      assert AlphaDone(m, i, j) && BetaDone(m, i, j);
      p := m.exp(node[i][j].alpha + node[i][j].beta - node[i][j].cost - z);
      NodeProbLog(m, lattice, i, j, node[i][j].alpha, node[i][j].beta, z);
    }

    /** tagger.h prob() is the share of the current result, once cost is minus its score. */
    method ResultProb(m: ExpLog) returns (p: real)
      requires Lawful(m) && m.exp(z) == Partition(m, lattice) && cost == -Score(lattice, result)
      ensures Partition(m, lattice) > 0.0 && p == SequenceProb(m, lattice)(result)
    {
      hide Lawful, Times, Partition, Score;
      p := m.exp(-cost - z);
      ExpPositive(m, z);
      ExpDiff(m, -cost, z);
      InverseLaw(Partition(m, lattice), p, m.exp(-cost));
    }

    // ---------- viterbi ----------

    /** prev leads to a node of the token before, if anywhere. */
    ghost predicate PrevOk(i: int, j: int)
      reads `node, `nodes, nodes`prev, nodes`y
    {
      && 0 <= i < |node| && 0 <= j < |node[i]| && node[i][j] in nodes
      && var p := node[i][j].prev;
         p != null ==> i > 0 && p in nodes && p.y < |node[i - 1]| && p == node[i - 1][p.y]
    }

    /** bestCost is the best prefix score, and prev is the first node it can come from. */
    ghost predicate Settled(i: int, j: int)
      reads `node, `lattice, `nodes, nodes`prev, nodes`y, nodes`bestCost
    {
      && PrevOk(i, j)
      && var n := node[i][j];
      && IsBest(lattice, i, j, n.bestCost)
      && (i > 0 ==>
            && n.prev != null && n.bestCost > SENTINEL
            && n.bestCost == n.prev.bestCost + lattice.edge(i, n.prev.y, j) + lattice.node(i, j)
            && forall k :: 0 <= k < n.prev.y && k < |node[i - 1]| && node[i - 1][k] in nodes ==>
                 node[i - 1][k].bestCost + lattice.edge(i, k, j) + lattice.node(i, j) < n.bestCost)
    }

    ghost predicate RowSettled(i: int)
      reads `ysize, `node, `lattice, `nodes, nodes`prev, nodes`y, nodes`bestCost
    {
      forall k :: 0 <= k < ysize ==> Settled(i, k)
    }

    /** The inner loop: the left neighbour from which a node is reached best, if that beats the sentinel. */
    method BestLeft(n: Node, i: nat, j: nat, ghost b: int -> real) returns (best: Node?, bestc: real)
      requires Ready() && i < |node| && j < ysize && n == node[i][j]
      requires i > 0 ==> forall k :: 0 <= k < ysize ==> b(k) == node[i - 1][k].bestCost
      ensures best == null ==> bestc == SENTINEL
      ensures best != null ==>
        && i > 0 && best in nodes && best.y < ysize && best == node[i - 1][best.y] && bestc > SENTINEL
        && bestc == Candidate(lattice, i, j, b, best.y)
      ensures i > 0 ==> forall k :: 0 <= k < ysize ==> Candidate(lattice, i, j, b, k) <= bestc
      ensures best != null ==> forall k :: 0 <= k < best.y ==> Candidate(lattice, i, j, b, k) < bestc
    {
      hide Ready;
      NodeAt(i, j);
      bestc, best := SENTINEL, null;
      var it := 0;
      while it < |n.lpath|
        invariant it <= |n.lpath|
        invariant best == null ==> bestc == SENTINEL
        invariant best != null ==>
          && i > 0 && best in nodes && best.y < ysize && best == node[i - 1][best.y] && bestc > SENTINEL
          && bestc == Candidate(lattice, i, j, b, best.y)
        invariant forall k :: 0 <= k < it ==> Candidate(lattice, i, j, b, k) <= bestc
        invariant best != null ==> best.y < it && forall k :: 0 <= k < best.y ==> Candidate(lattice, i, j, b, k) < bestc
      {
        var c := n.lpath[it].lnode.bestCost + n.lpath[it].cost + n.cost;
        assert c == Candidate(lattice, i, j, b, it);
        if c > bestc {
          bestc := c;
          best := n.lpath[it].lnode;
        }
        it := it + 1;
      }
    }

    /** What was chosen for a node is stored; nothing that holds of the nodes before it changes. */
    method StoreBest(n: Node, i: nat, j: nat, best: Node?, c: real)
      requires Ready() && i < |node| && j < ysize && n == node[i][j]
      requires best != null ==> i > 0 && best in nodes && best.y < ysize && best == node[i - 1][best.y]
      modifies n`prev, n`bestCost
      ensures Ready() && PrevOk(i, j) && n.prev == best && n.bestCost == c
      ensures IsBest(lattice, i, j, c) && i == 0 ==> Settled(i, j)
      ensures best != null && c > SENTINEL && IsBest(lattice, i, j, c) ==>
        (c == old(best.bestCost) + lattice.edge(i, best.y, j) + lattice.node(i, j) &&
         (forall k :: 0 <= k < best.y ==> old(node[i - 1][k].bestCost) + lattice.edge(i, k, j) + lattice.node(i, j) < c)
         ==> Settled(i, j))
      ensures forall i', j' :: 0 <= i' <= i && 0 <= j' < ysize && (i' != i || j' != j) ==>
        PrevOk(i', j') == old(PrevOk(i', j')) && Settled(i', j') == old(Settled(i', j'))
    {
      hide Ready, Linked, Priced, IsBest;
      NodeAt(i, j);
      NodesDiffer(i, j);
      n.prev := best;
      n.bestCost := c;
    }

    lemma RowIsBest(i: nat, b: int -> real)
      requires i < |node| && |node[i]| == ysize && RowSettled(i)
      requires forall k :: 0 <= k < ysize ==> b(k) == node[i][k].bestCost
      ensures forall k :: 0 <= k < ysize ==> IsBest(lattice, i, k, b(k))
    {
      hide IsBest;
      forall k | 0 <= k < ysize ensures IsBest(lattice, i, k, b(k)) { assert Settled(i, k); }
    }

    /** Body of the main viterbi loop: choose the best left path of one node. */
    method Relax(n: Node, i: nat, j: nat)
      requires Ready() && i < |node| && j < ysize && n == node[i][j]
      modifies n`prev, n`bestCost
      ensures Ready() && PrevOk(i, j)
      ensures i == 0 ==> Settled(i, j)
      ensures i > 0 && old(RowSettled(i - 1)) ==>
        if n.prev != null then Settled(i, j) else !Above(lattice, i, j)
      ensures forall i', j' :: 0 <= i' <= i && 0 <= j' < ysize && (i' != i || j' != j) ==>
        PrevOk(i', j') == old(PrevOk(i', j')) && Settled(i', j') == old(Settled(i', j'))
    {
      hide Ready, Linked, Priced, IsBest, Above, RowSettled, Settled, PrevOk;
      NodeAt(i, j);
      ghost var l := lattice;
      ghost var row := if i > 0 then BestCosts(node[i - 1]) else [];
      ghost var b := k => if 0 <= k < |row| then row[k] else 0.0;
      var best, bestc := BestLeft(n, i, j, b);
      if i == 0 {
        BestFirst(l, j);
      } else if RowSettled(i - 1) {
        RowIsBest(i - 1, b);
        if best == null {
          NoneAbove(l, i, j, b);
        } else {
          BestStep(l, i, j, b, best.y);
        }
      }
      if best != null {
        forall k | 0 <= k < best.y ensures node[i - 1][k].bestCost + l.edge(i, k, j) + l.node(i, j) < bestc {
          assert Candidate(l, i, j, b, k) < bestc;
        }
      }
      StoreBest(n, i, j, best, if best != null then bestc else n.cost);
    }

    /** No path into this node beats the sentinel, and viterbi left its prev empty. */
    ghost predicate Stuck(i: int, j: int)
      reads `ysize, `node, `lattice, `nodes, nodes`prev
    {
      && 0 < i < |node| && 0 <= j < ysize && j < |node[i]| && node[i][j] in nodes
      && node[i][j].prev == null && !Above(lattice, i, j)
    }

    /** State of the nested loop just before node (i, j): all nodes before it are settled, or (bi, bj) is stuck. */
    ghost predicate Progress(i: int, j: int, ok: bool, bi: int, bj: int)
      reads `ysize, `node, `lattice, `nodes, nodes`prev, nodes`y, nodes`bestCost
    {
      && (forall i', j' :: 0 <= i' < |node| && 0 <= j' < ysize && Before(i', j', i, j) ==> PrevOk(i', j'))
      && (if ok then forall i', j' :: 0 <= i' < |node| && 0 <= j' < ysize && Before(i', j', i, j) ==> Settled(i', j')
          else Before(bi, bj, i, j) && Stuck(bi, bj))
    }

    method RelaxAll() returns (ghost ok: bool, ghost bi: int, ghost bj: int)
      requires Ready()
      modifies nodes`prev, nodes`bestCost
      ensures Ready() && Progress(|node|, 0, ok, bi, bj)
    {
      hide Ready, Progress;
      ok, bi, bj := true, 0, 0;
      var i := 0;
      NextRow(-1, ok, bi, bj);
      while i < |node|
        invariant i <= |node|
        invariant Ready() && Progress(i, 0, ok, bi, bj)
      {
        var j := 0;
        while j < ysize
          invariant j <= ysize
          invariant Ready() && Progress(i, j, ok, bi, bj)
        {
          ok, bi, bj := RelaxStep(i, j, ok, bi, bj);
          j := j + 1;
        }
        NextRow(i, ok, bi, bj);
        i := i + 1;
      }
    }

    lemma NextRow(i: int, ok: bool, bi: int, bj: int)
      requires Ready() && (if i == -1 then ok else 0 <= i < |node| && Progress(i, ysize, ok, bi, bj))
      ensures Progress(i + 1, 0, ok, bi, bj)
    {
      hide Settled, PrevOk, Stuck;
    }

    method RelaxStep(i: nat, j: nat, ghost ok: bool, ghost bi: int, ghost bj: int)
      returns (ghost ok': bool, ghost bi': int, ghost bj': int)
      requires Ready() && i < |node| && j < ysize && Progress(i, j, ok, bi, bj)
      modifies nodes`prev, nodes`bestCost
      ensures Ready() && Progress(i, j + 1, ok', bi', bj')
    {
      hide Ready, PrevOk, Settled, Above;
      NodeAt(i, j);
      NodesDiffer(i, j);
      var n := node[i][j];
      Relax(n, i, j);
      ok', bi', bj' := ok, bi, bj;
      if ok && i > 0 && n.prev == null {
        ok', bi', bj' := false, i, j;
      }
    }

    ghost predicate AllSettled()
      reads `ysize, `node, `lattice, `nodes, nodes`prev, nodes`y, nodes`bestCost
    {
      forall i, j :: 0 <= i < |node| && 0 <= j < ysize ==> Settled(i, j)
    }

    ghost predicate AllPrevOk()
      reads `ysize, `node, `nodes, nodes`prev, nodes`y
    {
      forall i, j :: 0 <= i < |node| && 0 <= j < ysize ==> PrevOk(i, j)
    }

    /** Every node but those of the first token has a left neighbour on its best prefix. */
    ghost predicate ChainComplete()
      reads `ysize, `node, `nodes, nodes`prev
    {
      forall i, j :: 0 < i < |node| && 0 <= j < ysize && j < |node[i]| && node[i][j] in nodes ==>
        node[i][j].prev != null
    }

    lemma ProgressDone(ok: bool, bi: int, bj: int)
      requires Ready() && Progress(|node|, 0, ok, bi, bj)
      ensures AllPrevOk()
      ensures AboveSentinel(lattice) ==> AllSettled()
      ensures AboveSentinel(lattice) <==> ChainComplete()
    {
      hide PrevOk, IsBest, Above;
      if ok {
        forall i: nat, j | 0 < i < lattice.n && 0 <= j < lattice.y
          ensures Above(lattice, i, j) && node[i][j].prev != null {
          assert Settled(i, j);
          BestIsAbove(lattice, i, j, node[i][j].bestCost);
        }
      } else {
        assert Stuck(bi, bj);
      }
    }

    /** No node of the last token has a bestCost above c. */
    ghost predicate EndBound(c: real)
      requires Ready()
      reads `ysize, `node, `lattice, `nodes, `paths, nodes`bestCost
      reads nodes`x, nodes`y, nodes`lpath, nodes`rpath, paths`lnode, paths`rnode, nodes`cost, paths`cost
    {
      var row := node[|node| - 1];
      forall j :: 0 <= j < ysize ==> row[j].bestCost <= c
    }

    /** The nodes of the last token before this one have a smaller bestCost. */
    ghost predicate FirstEnd(best: Node)
      requires Ready()
      reads `ysize, `node, `lattice, `nodes, `paths, nodes`bestCost, best
      reads nodes`x, nodes`y, nodes`lpath, nodes`rpath, paths`lnode, paths`rnode, nodes`cost, paths`cost
    {
      var row := node[|node| - 1];
      forall j :: 0 <= j < best.y && j < ysize ==> row[j].bestCost < best.bestCost
    }

    /** The search for the best node of the last token. */
    method BestEnd() returns (best: Node?)
      requires Ready()
      ensures best != null ==>
        best in nodes && best.x == |node| - 1 && best.y < ysize && best == node[|node| - 1][best.y] &&
                               best.bestCost > SENTINEL
      ensures EndBound(if best != null then best.bestCost else SENTINEL)
      ensures best != null ==> FirstEnd(best)
    {
      hide Ready;
      var bestc := SENTINEL;
      best := null;
      Basics();
      var s := |node| - 1;
      var j := 0;
      while j < ysize
        invariant j <= ysize
        invariant best != null ==>
          best in nodes && best.x == s && best.y < j && best == node[s][best.y] && bestc > SENTINEL
        invariant bestc == if best != null then best.bestCost else SENTINEL
        invariant forall j' :: 0 <= j' < j ==> node[s][j'].bestCost <= bestc
        invariant best != null ==> forall j' :: 0 <= j' < best.y ==> node[s][j'].bestCost < bestc
      {
        NodeAt(s, j);
        if bestc < node[s][j].bestCost {
          best := node[s][j];
          bestc := node[s][j].bestCost;
        }
        j := j + 1;
      }
    }

    /** The loop that follows prev from the best end node and writes down the tags. */
    method Backtrace(best: Node?)
      requires Ready() && AllPrevOk()
      requires |result| == |node| && InRange(ysize, result)
      requires best != null ==> best in nodes && best.x == |node| - 1 && best.y < ysize && best == node[best.x][best.y]
      modifies `result
      ensures |result| == |node| && InRange(ysize, result)
      ensures best == null ==> result == old(result)
      ensures best != null ==> result[|node| - 1] == best.y
      ensures best != null && AllSettled() ==> Score(lattice, result) == best.bestCost && Traced(result, 0)
    {
      hide Ready, AllSettled, AllPrevOk, Settled, IsBest, Traced;
      Basics();
      var n := best;
      ghost var total := if best != null then best.bestCost else 0.0;
      while n != null
        invariant |result| == |node| && InRange(ysize, result)
        invariant n != null ==> n in nodes && n.x < |node| && n.y < ysize && n.y < |node[n.x]| && n == node[n.x][n.y]
        invariant n == best ==> result == old(result)
        invariant n != best ==> best != null && result[|node| - 1] == best.y
        invariant n != null && n != best ==> n.x < |node| - 1
        invariant best != null && AllSettled() ==> n == best || Traced(result, if n == null then 0 else n.x + 1)
        invariant n != null && n != best ==> 0 <= result[n.x + 1] < ysize && node[n.x + 1][result[n.x + 1]].prev == n
        invariant best != null && AllSettled() ==>
          if n == null then Span(lattice, 0, result) == total
          else n.bestCost + Span(lattice, n.x, [n.y] + result[n.x + 1..]) - lattice.node(n.x, n.y) == total
        decreases n != null, if n != null then n.x else 0
      {
        ghost var before := result;
        result := result[n.x := n.y];
        assert result[n.x..] == [n.y] + before[n.x + 1..];
        TraceStep(n, result);
        if AllSettled() { TraceMore(before, result, n); }
        n := n.prev;
      }
    }

    /** From token p on, the tags are those of the prev chain. */
    ghost predicate Traced(t: Tags, p: nat)
      requires |t| == |node|
      reads `ysize, `node, `nodes, nodes`prev
    {
      forall i :: p < i < |node| && 0 <= t[i] < ysize && t[i] < |node[i]| && node[i][t[i]] in nodes ==>
        0 <= t[i - 1] < |node[i - 1]| && node[i][t[i]].prev == node[i - 1][t[i - 1]]
    }

    lemma TraceMore(before: Tags, t: Tags, n: Node)
      requires Ready() && |before| == |t| == |node| && n.x < |node| && t == before[n.x := n.y]
      requires n.y < ysize && n.y < |node[n.x]| && n == node[n.x][n.y]
      requires n.x + 1 < |node| ==> Traced(before, n.x + 1) && 0 <= before[n.x + 1] < ysize
      requires n.x + 1 < |node| ==> node[n.x + 1][before[n.x + 1]].prev == n
      ensures Traced(t, n.x)
    {
      hide Ready;
    }

    /** The prev chain from a best end is the first of the best tag sequences. */
    lemma TraceFirst(t: Tags, i: nat)
      requires Ready() && AllSettled() && |t| == |node| && InRange(ysize, t) && Traced(t, 0) && i < |node|
      ensures PrefixScore(lattice, t[..i], t[i]) == node[i][t[i]].bestCost
      ensures i > 0 ==> FirstInto(lattice, t, i)
    {
      hide IsBest, PrefixScore, AllSettled, Ready, Linked;
      SettledAt(i, t[i]);
      NodeAt(i, t[i]);
      if i == 0 {
        FirstPrefix(lattice, t[0], node[0][t[0]].bestCost);
        assert t[..0] == [];
      } else {
        TraceFirst(t, i - 1);
        NodeAt(i - 1, t[i - 1]);
        assert node[i][t[i]].prev == node[i - 1][t[i - 1]];
        assert t[..i] == t[..i - 1] + [t[i - 1]];
        PrefixMore(lattice, t[..i - 1], t[i - 1], t[i]);
        forall u: Tags, k | |u| == i - 1 && InRange(lattice.y, u) && 0 <= k < t[i - 1]
          ensures PrefixScore(lattice, u + [k], t[i]) < PrefixScore(lattice, t[..i], t[i])
        {
          NodeAt(i - 1, k);
          SettledAt(i - 1, k);
          PrefixMore(lattice, u, k, t[i]);
          BestOver(lattice, i - 1, k, node[i - 1][k].bestCost, u);
        }
      }
    }

    lemma SettledAt(i: nat, j: nat)
      requires AllSettled() && i < |node| && j < ysize
      ensures Settled(i, j)
    {}

    lemma ResultIsFirst(best: Node)
      requires Ready() && AllSettled() && |result| == |node| && InRange(ysize, result) && Traced(result, 0)
      requires IsOptimal(lattice, result) && Score(lattice, result) == best.bestCost && result[|node| - 1] == best.y
      requires best.y < ysize && FirstEnd(best)
      ensures FirstBest(lattice, result)
    {
      hide IsBest, PrefixScore, Score, AllSettled, Ready, Traced, IsOptimal, FirstInto;
      Basics();
      var s := |node| - 1;
      forall i: nat | 0 < i < lattice.n ensures FirstInto(lattice, result, i) { TraceFirst(result, i); }
      forall u: Tags, k | |u| == s && InRange(lattice.y, u) && 0 <= k < result[s]
        ensures PrefixScore(lattice, u, k) < Score(lattice, result)
      {
        SettledAt(s, k);
        BestOver(lattice, s, k, node[s][k].bestCost, u);
      }
      IsFirstBest(lattice, result);
    }

    lemma TraceStep(n: Node, t: Tags)
      requires Ready() && AllPrevOk() && |t| == |node|
      requires n in nodes && n.x < |node| && n.y < ysize && n.y < |node[n.x]| && n == node[n.x][n.y] && t[n.x] == n.y
      ensures n.prev != null ==> n.x > 0 && n.prev in nodes && n.prev.x == n.x - 1 && n.prev.y < ysize &&
                                 n.prev.y < |node[n.x - 1]| && n.prev == node[n.x - 1][n.prev.y]
      ensures AllSettled() ==>
        if n.prev == null then n.x == 0 && n.bestCost == lattice.node(n.x, n.y)
        else n.bestCost + Span(lattice, n.x, t[n.x..]) - lattice.node(n.x, n.y) ==
             n.prev.bestCost + Span(lattice, n.x - 1, [n.prev.y] + t[n.x..]) - lattice.node(n.x - 1, n.prev.y)
    {
      hide IsBest, Span;
      assert PrevOk(n.x, n.y);
      if AllSettled() {
        assert Settled(n.x, n.y);
        if n.x == 0 {
          BestOfFirst(lattice, n.y, n.bestCost);
        } else {
          SpanAppend(lattice, n.x - 1, [n.prev.y], t[n.x..]);
          SpanOne(lattice, n.x - 1, n.prev.y);
        }
      }
    }

    /** tagger.cpp viterbi. The sentinel stands for minus infinity: the prev chain is complete exactly when every node's
        best prefix scores above it. The result is then a highest-scoring tag sequence exactly if some sequence scores
        above the sentinel, or the result from before, which otherwise stays, happens to be one. */
    method Viterbi()
      requires Ready() && |result| == |node| && InRange(ysize, result)
      modifies nodes`prev, nodes`bestCost, `result, `cost
      ensures Ready() && |result| == |node| && InRange(ysize, result)
      ensures AboveSentinel(lattice) <==> ChainComplete()
      ensures AboveSentinel(lattice) ==> AllSettled()
      ensures AboveSentinel(lattice) && SomeAbove(lattice) ==>
        IsOptimal(lattice, result) && cost == -Score(lattice, result)
      ensures AboveSentinel(lattice) && SomeAbove(lattice) ==> FirstBest(lattice, result)
      ensures Ordinary(lattice) ==> FirstBest(lattice, result) && cost == -Score(lattice, result)
      ensures AboveSentinel(lattice) && !SomeAbove(lattice) ==> result == old(result)
      ensures AboveSentinel(lattice) ==>
        (IsOptimal(lattice, result) <==> SomeAbove(lattice) || IsOptimal(lattice, old(result)))
    {
      hide Ready, Progress, AllPrevOk, AllSettled, ChainComplete, AboveSentinel, IsOptimal, SomeAbove, EndBound;
      hide Ordinary, FirstBest, Traced;
      if Ordinary(lattice) { OrdinaryIsAbove(lattice); }
      Basics();
      ghost var ok, bi, bj;
      ok, bi, bj := RelaxAll();
      ProgressDone(ok, bi, bj);
      var best := BestEnd();
      Backtrace(best);
      cost := -node[|node| - 1][result[|node| - 1]].bestCost;
      if AboveSentinel(lattice) {
        if SomeAbove(lattice) {
          EndIsOptimal(best, result);
          ResultIsFirst(best);
        } else {
          NoEnd(best);
        }
      }
    }

    /** If no sequence scores above the sentinel, no end node is found. */
    lemma NoEnd(best: Node?)
      requires Ready() && AllSettled() && !SomeAbove(lattice)
      requires best != null ==>
        best in nodes && best.x == |node| - 1 && best.y < ysize && best == node[|node| - 1][best.y] &&
                                best.bestCost > SENTINEL
      ensures best == null
    {
      hide Score, Ready;
      Basics();
      if best != null {
        assert Settled(|node| - 1, best.y);
        BestIsAScore(lattice, best.y, best.bestCost);
      }
    }

    lemma EndIsOptimal(best: Node?, t: Tags)
      requires Ready() && AllSettled() && SomeAbove(lattice) && IsTagging(lattice, t)
      requires EndBound(if best != null then best.bestCost else SENTINEL)
      requires best != null ==> Score(lattice, t) == best.bestCost
      ensures best != null && IsOptimal(lattice, t)
    {
      hide IsBest, Score;
      var s := |node| - 1;
      var row := BestCosts(node[s]);
      var b := k => if 0 <= k < |row| then row[k] else 0.0;
      var c := if best != null then best.bestCost else SENTINEL;
      forall j | 0 <= j < ysize ensures IsBest(lattice, s, j, b(j)) && b(j) <= c { assert Settled(s, j); }
      forall u | IsTagging(lattice, u) ensures Score(lattice, u) <= c { ScoreBound(lattice, b, c, u); }
    }

    // ---------- buildLattice ----------

    /** The lattice has been built out of the features ft with the weights of the index. */
    ghost predicate Built(index: FeatureIndex)
      reads `ysize, `node, `lattice, `features, `nodes, `paths, index`costFactor, index`alpha
      reads nodes`x, nodes`y, nodes`lpath, nodes`rpath, paths`lnode, paths`rnode, nodes`cost, paths`cost
      reads nodes`fvector, paths`fvector
    {
      && Ready() && Featured(node, ysize, nodes, paths, features)
      && lattice == CostLattice(index.costFactor, index.alpha, features, ysize)
    }

    /** tagger.cpp buildLattice, for a sentence of the given size whose features are cached from entry fid on. */
    method BuildLattice(index: FeatureIndex, fid: nat, size: nat, ghost ft: Features)
      requires index.Valid() && ysize == index.y && ysize > 0 && index.Cached(fid, size, ft)
      modifies `node, `lattice, `features, `nodes, `paths, index.nodeArena, index.nodeArena.list, index.nodeArena.owned
      modifies index.pathArena, index.pathArena.list, index.pathArena.owned
      ensures index.Valid() && Built(index) && |node| == size
      ensures features == ft && index.cache.contents == old(index.cache.contents)
      ensures fresh(nodes - old(index.nodeArena.owned)) && fresh(paths - old(index.pathArena.owned))
      ensures fresh(index.nodeArena.owned - old(index.nodeArena.owned))
      ensures fresh(index.pathArena.owned - old(index.pathArena.owned))
    {
      hide Linked, Featured, Priced, FeatureIndex.Valid, CostLattice, Built;
      var table;
      ghost var carried;
      table, carried := index.RebuildFeatures(size, fid);
      node := table;
      features, nodes, paths := carried, index.nodeArena.taken, index.pathArena.taken;
      PriceLattice(index);
    }

    method PriceLattice(index: FeatureIndex)
      requires ysize == index.y && ysize > 0 && |node| > 0
      requires Linked(node, ysize, nodes, paths) && Featured(node, ysize, nodes, paths, features)
      modifies nodes`cost, paths`cost, `lattice
      ensures Built(index)
    {
      hide Linked, Featured, Priced, PricedTo, CostLattice;
      PriceAll(index);
      AllPriced(node, ysize, nodes, paths, features, index.costFactor, index.alpha);
      lattice := CostLattice(index.costFactor, index.alpha, features, ysize);
    }

    /** The nested loop of buildLattice. */
    method PriceAll(index: FeatureIndex)
      requires Linked(node, ysize, nodes, paths) && ysize == index.y
      modifies nodes`cost, paths`cost
      ensures PricedTo(node, ysize, nodes, paths, index.costFactor, index.alpha, |node|, 0)
    {
      hide PricedTo, Linked;
      ghost var cf, w := index.costFactor, index.alpha;
      PricedNone(cf, w);
      var i := 0;
      while i < |node|
        invariant i <= |node| && PricedTo(node, ysize, nodes, paths, cf, w, i, 0)
      {
        var j := 0;
        while j < ysize
          invariant j <= ysize && PricedTo(node, ysize, nodes, paths, cf, w, i, j)
        {
          TableAt(i, j);
          PriceNode(index, node[i][j], i, j);
          j := j + 1;
        }
        PricedNextRow(node, ysize, nodes, paths, cf, w, i);
        i := i + 1;
      }
    }

    lemma PricedNone(cf: real, w: seq<real>)
      ensures PricedTo(node, ysize, nodes, paths, cf, w, 0, 0)
    {}

    lemma TableAt(i: nat, j: nat)
      requires Linked(node, ysize, nodes, paths) && i < |node| && j < ysize
      ensures |node[i]| == ysize && node[i][j] in nodes
      ensures forall k :: 0 <= k < |node[i][j].lpath| ==>
        node[i][j].lpath[k] in paths && node[i][j].lpath[k].lnode in nodes && node[i][j].lpath[k].rnode in nodes
    {}

    method PriceNode(index: FeatureIndex, n: Node, ghost i: nat, ghost j: nat)
      requires ysize == index.y && i < |node| && j < |node[i]| && n == node[i][j] && n in nodes
      requires forall k :: 0 <= k < |n.lpath| ==>
        n.lpath[k] in paths && n.lpath[k].lnode in nodes && n.lpath[k].rnode in nodes
      requires PricedTo(node, ysize, nodes, paths, index.costFactor, index.alpha, i, j)
      modifies nodes`cost, paths`cost
      ensures PricedTo(node, ysize, nodes, paths, index.costFactor, index.alpha, i, j + 1)
    {
      hide Times, FeatureCost, EdgeOff;
      index.CalcNodeCost(n);
      var it := 0;
      while it < |n.lpath|
        invariant it <= |n.lpath|
        invariant n.cost == Times(index.costFactor, FeatureCost(index.alpha, n.fvector, n.y))
        invariant PricedTo(node, ysize, nodes, paths, index.costFactor, index.alpha, i, j)
        invariant forall k :: 0 <= k < it ==> PathPriced(n.lpath[k], ysize, nodes, index.costFactor, index.alpha)
      {
        EdgeOffIs(n.lpath[it].lnode.y, index.y, n.lpath[it].rnode.y);
        index.CalcPathCost(n.lpath[it]);
        it := it + 1;
      }
    }
  }

  ghost function BestCosts(ns: seq<Node>): (r: seq<real>)
    reads ns
    ensures |r| == |ns| && forall k :: 0 <= k < |ns| ==> r[k] == ns[k].bestCost
  {
    if ns == [] then [] else BestCosts(ns[..|ns| - 1]) + [ns[|ns| - 1].bestCost]
  }

  /** exp(alpha + beta - cost - Z) is the probability of a node. */
  lemma NodeProbLog(m: ExpLog, l: Lattice, i: nat, j: int, alpha: real, beta: real, z: real)
    requires Lawful(m) && i < l.n && 0 <= j < l.y
    requires m.exp(alpha) == AlphaSum(m, l, i, j) && m.exp(beta) == BetaSum(m, l, i, j) && m.exp(z) == Partition(m, l)
    ensures Partition(m, l) > 0.0 && m.exp(alpha + beta - l.node(i, j) - z) == NodeProb(m, l, i, j)
  {
    hide Times;
    var c := l.node(i, j);
    var p := m.exp(alpha + beta - c - z);
    ExpSum(m, alpha, beta);
    ExpDiff(m, alpha + beta, c);
    ExpDiff(m, alpha + beta - c, z);
    NodeMassIsAlphaBeta(m, l, i, j);
    TimesLaws(m.exp(c), Times(p, m.exp(z)), 0.0);
    TimesCancel(m.exp(c), Times(p, m.exp(z)), NodeMass(m, l, i, j));
    InverseLaw(Partition(m, l), p, NodeMass(m, l, i, j));
  }

  /** exp(alpha + cost + beta - Z), across an edge, is the probability of the edge. */
  lemma EdgeProbLog(m: ExpLog, l: Lattice, i: nat, k: int, j: int, alpha: real, beta: real, z: real)
    requires Lawful(m) && 0 < i < l.n && 0 <= j < l.y && 0 <= k < l.y
    requires m.exp(alpha) == AlphaSum(m, l, i - 1, k) && m.exp(beta) == BetaSum(m, l, i, j)
    requires m.exp(z) == Partition(m, l)
    ensures Partition(m, l) > 0.0 && m.exp(alpha + l.edge(i, k, j) + beta - z) == EdgeProb(m, l, i, k, j)
  {
    hide Times;
    var e := l.edge(i, k, j);
    var p := m.exp(alpha + e + beta - z);
    ExpSum(m, alpha, e);
    ExpSum(m, alpha + e, beta);
    ExpDiff(m, alpha + e + beta, z);
    EdgeMassIsAlphaBeta(m, l, i, k, j);
    TimesLaws(m.exp(alpha), m.exp(e), m.exp(beta));
    TimesLaws(m.exp(alpha), Times(m.exp(e), m.exp(beta)), 0.0);
    InverseLaw(Partition(m, l), p, EdgeMass(m, l, i, k, j));
  }
}
