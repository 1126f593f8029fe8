/** Common ancestors of two heads and the transactions of the branches between them. */
module ForkSwitch {
  import opened Options
  import opened Blocks
  import opened BlockTree
  import opened Replay
  import opened SortedTxs

  /** A linked block, live or removed. Only live blocks other than the root have a parent. */
  ghost predicate Head(s: State, older n: Node) {
    && s.Chained() && s.tree.Real(n) && s.tree.nodes[n].linked
    && (s.tree.nodes[n].parent != null ==> s.tree.Live(n) && n != s.tree.root)
  }

  lemma LinkedIsHead(s: State, n: Node)
    requires s.Chained() && s.tree.Real(n) && s.tree.nodes[n].linked
    ensures Head(s, n)
  {
    assert n in s.tree.virtuals ==> s.tree.VirtualShape(n);
  }

  lemma ParentIsHead(s: State, n: Node)
    requires Head(s, n) && s.tree.nodes[n].parent != null
    ensures var p := s.tree.nodes[n].parent;
            && Head(s, p) && Depth(s.tree.nodes[p].key) < Depth(s.tree.nodes[n].key)
            && s.tree.HeadOf(p).number == s.tree.HeadOf(n).number - 1
            && s.tree.HeadOf(p).time < s.tree.HeadOf(n).time
  {
    assert s.LinkShape(n) && s.tree.Hashed(n) && s.tree.Placed(n);
    LinkedIsHead(s, s.tree.nodes[n].parent);
  }

  /** a is n or is met on the walk over parents from n. */
  ghost predicate Above(s: State, a: Node, n: Node)
    requires Head(s, n)
    decreases Depth(s.tree.nodes[n].key)
  {
    n == a || (s.tree.nodes[n].parent != null && (ParentIsHead(s, n); Above(s, a, s.tree.nodes[n].parent)))
  }

  ghost predicate Common(s: State, a: Node, m: Node, n: Node)
    requires Head(s, m) && Head(s, n)
  {
    Above(s, a, m) && Above(s, a, n)
  }

  lemma {:induction false} AboveNumber(s: State, a: Node, n: Node)
    requires Head(s, n) && Above(s, a, n)
    ensures Head(s, a) && s.tree.HeadOf(a).number <= s.tree.HeadOf(n).number &&
            s.tree.HeadOf(a).time <= s.tree.HeadOf(n).time
    ensures s.tree.HeadOf(a).number == s.tree.HeadOf(n).number ==> a == n
    decreases Depth(s.tree.nodes[n].key)
  {
    if n != a {
      ParentIsHead(s, n);
      AboveNumber(s, a, s.tree.nodes[n].parent);
    }
  }

  /** The two heads have the same common ancestors as the heads the search started from. */
  ghost predicate SameCommon(s: State, m0: Node, n0: Node, m: Node, n: Node)
    requires Head(s, m0) && Head(s, n0) && Head(s, m) && Head(s, n)
  {
    forall a :: a in s.tree.nodes ==> (Common(s, a, m0, n0) <==> Common(s, a, m, n))
  }

  ghost predicate NoCommon(s: State, m: Node, n: Node)
    requires Head(s, m) && Head(s, n)
  {
    forall a :: a in s.tree.nodes ==> !Common(s, a, m, n)
  }

  /** a is a common ancestor and all others are above it. */
  ghost predicate Highest(s: State, a: Node, m: Node, n: Node)
    requires Head(s, m) && Head(s, n)
  {
    Common(s, a, m, n) && Head(s, a) && forall b :: b in s.tree.nodes && Common(s, b, m, n) ==> Above(s, b, a)
  }

  /** The higher of two different blocks is no ancestor of the other: the search may go to its parent. */
  lemma Climb(s: State, m0: Node, n0: Node, m: Node, n: Node)
    requires Head(s, m0) && Head(s, n0) && Head(s, m) && Head(s, n) && SameCommon(s, m0, n0, m, n)
    requires m != n && s.tree.HeadOf(m).number >= s.tree.HeadOf(n).number
    ensures s.tree.nodes[m].parent == null ==> NoCommon(s, m0, n0)
    ensures s.tree.nodes[m].parent != null ==>
              Head(s, s.tree.nodes[m].parent) && SameCommon(s, m0, n0, s.tree.nodes[m].parent, n)
  {
    if Above(s, m, n) {
      AboveNumber(s, m, n);
    }
    if s.tree.nodes[m].parent != null {
      ParentIsHead(s, m);
    }
  }

  lemma SameCommonSwap(s: State, m0: Node, n0: Node, m: Node, n: Node)
    requires Head(s, m0) && Head(s, n0) && Head(s, m) && Head(s, n) && SameCommon(s, m0, n0, m, n)
    ensures SameCommon(s, n0, m0, n, m)
  {
    forall a | a in s.tree.nodes ensures Common(s, a, n0, m0) <==> Common(s, a, n, m) {
      assert Common(s, a, m0, n0) <==> Common(s, a, m, n);
    }
  }

  lemma Met(s: State, m0: Node, n0: Node, n: Node)
    requires Head(s, m0) && Head(s, n0) && Head(s, n) && SameCommon(s, m0, n0, n, n)
    ensures Highest(s, n, m0, n0)
  {
    assert Common(s, n, n, n);
    forall b | b in s.tree.nodes && Common(s, b, m0, n0) ensures Above(s, b, n) {
      assert Common(s, b, n, n);
    }
  }

  // ---------------------------------------------------------------- transactions of a branch

  /** The transactions that doChainChangeByForkBCN meets from n on: it stops at the fork or at an old block. */
  ghost function BranchTxs(s: State, n: Node?, fork: Node?, limit: int): set<Tx>
    requires n != null ==> Head(s, n)
    decreases if n == null then 0 else 1 + Depth(s.tree.nodes[n].key)
  {
    if n == null || n == fork || s.tree.HeadOf(n).time < limit then {}
    else
      (if s.tree.nodes[n].parent == null then {}
       else ParentIsHead(s, n); BranchTxs(s, s.tree.nodes[n].parent, fork, limit)) +
      (set t | t in s.tree.nodes[n].block.value.txs)
  }

  /** The block a holds t, lies between the fork and n, and is not older than the limit. */
  ghost predicate Holds(s: State, a: Node, n: Node, fork: Node, limit: int, t: Tx)
    requires Head(s, n) && Head(s, fork)
  {
    && Above(s, a, n) && !Above(s, a, fork) && s.tree.Real(a)
    && s.tree.HeadOf(a).time >= limit && t in s.tree.nodes[a].block.value.txs
  }

  /** Stopping at the first old block loses nothing, since block times increase along a branch. */
  lemma {:induction false} BranchTxsHeld(s: State, n: Node, fork: Node, limit: int, a: Node, t: Tx)
    requires Head(s, n) && Head(s, fork) && Above(s, fork, n) && Holds(s, a, n, fork, limit, t)
    ensures t in BranchTxs(s, n, fork, limit)
    decreases Depth(s.tree.nodes[n].key)
  {
    AboveNumber(s, a, n);
    if n == fork {
    } else if a != n {
      ParentIsHead(s, n);
      BranchTxsHeld(s, s.tree.nodes[n].parent, fork, limit, a, t);
    }
  }

  lemma {:induction false} HeldBranchTxs(s: State, n: Node, fork: Node, limit: int, t: Tx) returns (a: Node)
    requires Head(s, n) && Head(s, fork) && Above(s, fork, n) && t in BranchTxs(s, n, fork, limit)
    ensures Holds(s, a, n, fork, limit, t)
    decreases Depth(s.tree.nodes[n].key)
  {
    if t in s.tree.nodes[n].block.value.txs {
      a := n;
      AboveNumber(s, fork, n);
      if Above(s, n, fork) {
        AboveNumber(s, n, fork);
      }
    } else {
      ParentIsHead(s, n);
      a := HeldBranchTxs(s, s.tree.nodes[n].parent, fork, limit, t);
    }
  }

  /** The same walk over the index of blocks, used when the heads have no common ancestor. */
  function IndexTxs(list: BlockIndex, h: Hash, limit: int): set<Tx>
    decreases Depth(h)
  {
    if h !in list || list[h].time < limit then {}
    else
      var p := list[h].parentHash;
      list[h].txs + if h.Sha3? && p == h.head.parentHash then IndexTxs(list, p, limit) else {}
  }

  /** It meets every transaction of the chain that is in an indexed block inside its window ... */
  lemma {:induction false} IndexTxsFinds(list: BlockIndex, chain: seq<Block>, k: int, i: int, t: Tx, limit: int)
    requires Genuine(list) && Consecutive(chain) && Covers(list, chain, limit)
    requires 0 <= i <= k < |chain| && chain[i].head.time >= limit && chain[i].HeadHash() in list
    requires t in chain[i].txs && chain[i].head.txMerkleHash == chain[i].txs
    ensures t in IndexTxs(list, chain[k].HeadHash(), limit)
    decreases k
  {
    TimesIncrease(chain, i, k);
    if i < k {
      assert ChildOf(chain[k], chain[k - 1]);
      IndexTxsFinds(list, chain, k - 1, i, t, limit);
    }
  }

  /** ... and no others. */
  lemma {:induction false} IndexTxsSound(list: BlockIndex, chain: seq<Block>, k: int, t: Tx, limit: int)
    returns (i: int)
    requires Genuine(list) && Consecutive(chain) && 0 <= k < |chain| && chain[0].head.parentHash.Raw?
    requires forall j :: 0 <= j < |chain| ==> chain[j].head.txMerkleHash == chain[j].txs
    requires t in IndexTxs(list, chain[k].HeadHash(), limit)
    ensures 0 <= i <= k && t in chain[i].txs && chain[i].head.time >= limit && chain[i].HeadHash() in list
    decreases k
  {
    var h := chain[k].HeadHash();
    if t in list[h].txs {
      i := k;
    } else {
      assert t in IndexTxs(list, h.head.parentHash, limit);
      assert k > 0 ==> ChildOf(chain[k], chain[k - 1]);
      i := IndexTxsSound(list, chain, k - 1, t, limit);
    }
  }

  /** compareTx orders the transactions of all linked blocks. */
  ghost predicate SaneBlocks(s: State) {
    forall n :: s.tree.Real(n) && s.tree.nodes[n].linked ==> AllSane(s.tree.nodes[n].block.value.txs)
  }

  ghost predicate SaneIndex(list: BlockIndex) {
    forall h, t :: h in list && t in list[h].txs ==> Sane(t)
  }

  ghost function BlockOf(s: State, n: Node): Block
    requires s.tree.Real(n)
  {
    s.tree.nodes[n].block.value
  }
}
