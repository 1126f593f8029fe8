/** The transaction pool: the index of recent blocks, and the pending transactions across fork switches. */
module TxPoolImpl {
  import opened Options
  import opened Blocks
  import opened BlockTree
  import opened BlockCacheImpl
  import opened Replay
  import opened ForkSwitch
  import opened SortedTxs

  /** The pending transactions after the head moved from m to n; blocks older than the limit do not count. */
  ghost predicate Switches(s: State, list: BlockIndex, m: Node, n: Node, limit: int, was: set<Tx>, now: set<Tx>)
    requires Head(s, m) && Head(s, n)
  {
    if exists a :: a in s.tree.nodes && Highest(s, a, n, m) then
      forall a :: a in s.tree.nodes && Highest(s, a, n, m) ==>
        now == was + BranchTxs(s, m, a, limit) - BranchTxs(s, n, a, limit)
    else
      && NoCommon(s, n, m)
      && now == was + IndexTxs(list, s.tree.nodes[m].block.value.HeadHash(), limit)
                    - IndexTxs(list, s.tree.nodes[n].block.value.HeadHash(), limit)
  }

  /** The same, where the head may also have stayed. */
  ghost predicate Repools(s: State, list: BlockIndex, m: Node, n: Node, limit: int, was: set<Tx>, now: set<Tx>) {
    Head(s, m) && Head(s, n) && if n == m then now == was else Switches(s, list, m, n, limit, was, now)
  }

  lemma IsRepooled(s: State, list: BlockIndex, m: Node, n: Node, limit: int, was: set<Tx>, now: set<Tx>)
    requires Head(s, m) && Head(s, n) && if n == m then now == was else Switches(s, list, m, n, limit, was, now)
    ensures Repools(s, list, m, n, limit, was, now)
  {
    hide Head, Switches;
  }

  class TxPool {
    var blockList: BlockIndex
    var pendingTx: SortedTxMap
    var newHead: Node
    var oldHead: Node?
    var forkBCN: Node?

    constructor (head: Node, sha: Sha)
      requires Injective(sha)
      ensures blockList == map[] && newHead == head && fresh(pendingTx)
      ensures pendingTx.Valid() && pendingTx.Contents() == {}
    {
      blockList, newHead, oldHead, forkBCN := map[], head, null, null;
      pendingTx := new SortedTxMap(sha);
    }

    // -------------------------------------------------------------- the index of blocks

    /**
     addBlock: an index that describes its blocks goes on doing so, covers what it covered, and holds
     the new block.
     */
    method AddBlock(blk: Block)
      modifies this`blockList
      ensures blockList == WithBlock(old(blockList), blk) && blk.HeadHash() in blockList
      ensures Genuine(old(blockList)) && blk.head.txMerkleHash == blk.txs ==> Genuine(blockList)
      ensures forall chain: seq<Block>, limit: int ::
                Covers(old(blockList), chain, limit) ==> Covers(blockList, chain + [blk], limit)
    {
      if blk.HeadHash() !in blockList {
        blockList := blockList[blk.HeadHash() := NewBlockTx(blk)];
      }
    }

    /** initBlockTx: the blocks of the irreversible chain, from the last one down to an old one or to genesis. */
    method InitBlockTx(chain: seq<Block>, now: int)
      requires blockList == map[] && Consecutive(chain) && forall i :: 0 <= i < |chain| ==> Honest(chain[i])
      modifies this`blockList
      ensures IndexesSince(blockList, chain, now - FILTER_TIME)
    {
      var limit := now - FILTER_TIME;
      var i := |chain| - 1;
      while i > 0
        invariant |chain| > 0 ==> 0 <= i < |chain|
        invariant Genuine(blockList)
        invariant forall j :: 0 <= i < j < |chain| ==> chain[j].HeadHash() in blockList && chain[j].head.time >= limit
        invariant forall h :: h in blockList ==> exists j :: 0 <= i < j < |chain| && h == chain[j].HeadHash()
      {
        var blk := chain[i];
        if blk.head.time < limit {
          OlderStill(chain, i, limit);
          return;
        }
        assert Honest(chain[i]);
        AddBlock(blk);
        i := i - 1;
      }
    }

    /** Drops the blocks that are older than the window behind the root. */
    method ClearBlock(root: BlockHead)
      modifies this`blockList
      ensures blockList == Cleared(old(blockList), root)
      ensures forall h ::
                h in blockList <==> h in old(blockList) && old(blockList)[h].time >= root.time - 90_000_000_000
      ensures forall h :: h in blockList ==> blockList[h] == old(blockList)[h]
    {
      var limit := root.time - FILTER_TIME;
      var todo := blockList.Keys;
      while todo != {}
        invariant todo <= old(blockList).Keys
        invariant blockList == map h | h in old(blockList) && (h in todo || old(blockList)[h].time >= limit) ::
                  old(blockList)[h]
        decreases todo
      {
        var h :| h in todo;
        if blockList[h].time < limit {
          blockList := blockList - {h};
        }
        todo := todo - {h};
      }
    }

    /** The walk of getTxAndReceiptInChain. */
    method ExistTxs(t: Tx, blk: Block) returns (found: bool)
      requires Genuine(blockList)
      ensures found <==> InChain(blockList, t, blk.HeadHash(), blk.head.time - FILTER_TIME)
    {
      var h, limit := blk.HeadHash(), blk.head.time - FILTER_TIME;
      while true
        invariant InChain(blockList, t, blk.HeadHash(), limit) <==> InChain(blockList, t, h, limit)
        decreases Depth(h)
      {
        if h in blockList && t in blockList[h].txs {
          return true;
        }
        if h !in blockList {
          return false;
        }
        h := blockList[h].parentHash;
        if h in blockList && blockList[h].time < limit {
          return false;
        }
      }
    }

    // -------------------------------------------------------------- fork switches

    /** The first block on the walk from n0's side that is no higher than m. */
    method LowerOld(cache: BlockCache, m0: Node, n0: Node, m: Node, n1: Node) returns (n: Node?)
      requires var s := cache.View();
               Head(s, m0) && Head(s, n0) && Head(s, m) && Head(s, n1) && SameCommon(s, m0, n0, m, n1)
      ensures n == null ==> NoCommon(cache.View(), m0, n0)
      ensures n != null ==> Head(cache.View(), n) && SameCommon(cache.View(), m0, n0, m, n)
      ensures n != null ==> cache.View().tree.HeadOf(n).number <= cache.View().tree.HeadOf(m).number
    {
      hide State.Chained, SameCommon, NoCommon;
      ghost var s := cache.View();
      n := n1;
      while n != null && n.block.value.head.number > m.block.value.head.number
        invariant n == null ==> NoCommon(s, m0, n0)
        invariant n != null ==> Head(s, n) && SameCommon(s, m0, n0, m, n)
        decreases if n == null then 0 else 1 + Depth(n.key)
      {
        assert cache.PlaceOf(n) == s.tree.nodes[n] && cache.PlaceOf(m) == s.tree.nodes[m];
        LowerStep(s, m0, n0, m, n);
        n := n.parent;
      }
      assert n != null ==> cache.PlaceOf(n) == s.tree.nodes[n] && cache.PlaceOf(m) == s.tree.nodes[m];
    }

    /** findForkBCN: the highest common ancestor of two heads, if there is one. */
    method FindForkBCN(cache: BlockCache, m0: Node, n0: Node) returns (bcn: Node?)
      requires Head(cache.View(), m0) && Head(cache.View(), n0)
      ensures bcn == null ==> NoCommon(cache.View(), m0, n0)
      ensures bcn != null ==> Highest(cache.View(), bcn, m0, n0)
    {
      hide State.Chained, SameCommon, NoCommon, Highest;
      ghost var s := cache.View();
      SameCommonStart(s, m0, n0);
      var m: Node, n: Node? := m0, n0;
      while true
        invariant Head(s, m) && n != null && Head(s, n) && SameCommon(s, m0, n0, m, n)
        decreases Depth(m.key)
      {
        n := LowerOld(cache, m0, n0, m, n);
        if n == null {
          return null;
        }
        if n == m {
          Met(s, m0, n0, n);
          return n;
        }
        assert cache.PlaceOf(m) == s.tree.nodes[m];
        Climb(s, m0, n0, m, n);
        if m.parent == null {
          return null;
        }
        ParentIsHead(s, m);
        m := m.parent;
      }
    }

    method AddTxs(txs: seq<Tx>)
      requires pendingTx.Valid() && AllSane(txs)
      modifies pendingTx
      ensures pendingTx.Valid() && pendingTx.Contents() == old(pendingTx.Contents()) + Members(txs)
    {
      for i := 0 to |txs|
        invariant pendingTx.Valid() && pendingTx.Contents() == old(pendingTx.Contents()) + Members(txs[..i])
      {
        assert Members(txs[..i + 1]) == Members(txs[..i]) + {txs[i]};
        pendingTx.Add(txs[i]);
      }
      assert txs[..|txs|] == txs;
    }

    method DelTx(t: Tx)
      requires pendingTx.Valid()
      modifies pendingTx
      ensures pendingTx.Valid() && pendingTx.Contents() == old(pendingTx.Contents()) - {t}
    {
      pendingTx.Del(pendingTx.sha(t));
    }

    method DelTxs(txs: seq<Tx>)
      requires pendingTx.Valid()
      modifies pendingTx
      ensures pendingTx.Valid() && pendingTx.Contents() == old(pendingTx.Contents()) - Members(txs)
    {
      for i := 0 to |txs|
        invariant pendingTx.Valid() && pendingTx.Contents() == old(pendingTx.Contents()) - Members(txs[..i])
      {
        assert Members(txs[..i + 1]) == Members(txs[..i]) + {txs[i]};
        DelTx(txs[i]);
      }
      assert txs[..|txs|] == txs;
    }

    /** The transactions of the abandoned branch return to the pool. */
    method AddBranch(cache: BlockCache, head: Node, fork: Node, limit: int)
      requires pendingTx.Valid() && Head(cache.View(), head) && SaneBlocks(cache.View())
      modifies pendingTx
      ensures pendingTx.Valid()
      ensures pendingTx.Contents() == old(pendingTx.Contents()) + BranchTxs(cache.View(), head, fork, limit)
    {
      hide State.Chained, BranchTxs;
      ghost var s, was := cache.View(), pendingTx.Contents();
      var n: Node? := head;
      while n != null && n != fork && n.block.value.head.time >= limit
        invariant pendingTx.Valid() && (n != null ==> Head(s, n))
        invariant pendingTx.Contents() + BranchTxs(s, n, fork, limit) == was + BranchTxs(s, head, fork, limit)
        decreases if n == null then 0 else 1 + Depth(n.key)
      {
        assert cache.PlaceOf(n) == s.tree.nodes[n];
        AddTxs(n.block.value.txs);
        BranchStep(s, n, fork, limit);
        n := n.parent;
      }
      assert n != null ==> cache.PlaceOf(n) == s.tree.nodes[n];
      BranchEnd(s, n, fork, limit);
    }

    /** The transactions of the adopted branch leave the pool. */
    method DelBranch(cache: BlockCache, head: Node, fork: Node, limit: int)
      requires pendingTx.Valid() && Head(cache.View(), head)
      modifies pendingTx
      ensures pendingTx.Valid()
      ensures pendingTx.Contents() == old(pendingTx.Contents()) - BranchTxs(cache.View(), head, fork, limit)
    {
      hide State.Chained, BranchTxs;
      ghost var s, was := cache.View(), pendingTx.Contents();
      var n: Node? := head;
      while n != null && n != fork && n.block.value.head.time >= limit
        invariant pendingTx.Valid() && (n != null ==> Head(s, n))
        invariant pendingTx.Contents() - BranchTxs(s, n, fork, limit) == was - BranchTxs(s, head, fork, limit)
        decreases if n == null then 0 else 1 + Depth(n.key)
      {
        assert cache.PlaceOf(n) == s.tree.nodes[n];
        DelTxs(n.block.value.txs);
        BranchStep(s, n, fork, limit);
        n := n.parent;
      }
      assert n != null ==> cache.PlaceOf(n) == s.tree.nodes[n];
      BranchEnd(s, n, fork, limit);
    }

    method AddSet(txs: set<Tx>)
      requires pendingTx.Valid() && forall t :: t in txs ==> Sane(t)
      modifies pendingTx
      ensures pendingTx.Valid() && pendingTx.Contents() == old(pendingTx.Contents()) + txs
    {
      var todo := txs;
      while todo != {}
        invariant todo <= txs && pendingTx.Valid() && pendingTx.Contents() + todo == old(pendingTx.Contents()) + txs
        decreases todo
      {
        var t :| t in todo;
        pendingTx.Add(t);
        todo := todo - {t};
      }
    }

    method DelSet(txs: set<Tx>)
      requires pendingTx.Valid()
      modifies pendingTx
      ensures pendingTx.Valid() && pendingTx.Contents() == old(pendingTx.Contents()) - txs
    {
      var todo := txs;
      while todo != {}
        invariant todo <= txs && pendingTx.Valid() && pendingTx.Contents() - todo == old(pendingTx.Contents()) - txs
        decreases todo
      {
        var t :| t in todo;
        DelTx(t);
        todo := todo - {t};
      }
    }

    method AddIndexed(from: Hash, limit: int)
      requires pendingTx.Valid() && Genuine(blockList) && SaneIndex(blockList)
      modifies pendingTx
      ensures pendingTx.Valid()
      ensures pendingTx.Contents() == old(pendingTx.Contents()) + IndexTxs(blockList, from, limit)
    {
      var h := from;
      ghost var was := pendingTx.Contents();
      while h in blockList && blockList[h].time >= limit
        invariant pendingTx.Valid()
        invariant pendingTx.Contents() + IndexTxs(blockList, h, limit) == was + IndexTxs(blockList, from, limit)
        decreases Depth(h)
      {
        AddSet(blockList[h].txs);
        h := blockList[h].parentHash;
      }
    }

    method DelIndexed(from: Hash, limit: int)
      requires pendingTx.Valid() && Genuine(blockList)
      modifies pendingTx
      ensures pendingTx.Valid()
      ensures pendingTx.Contents() == old(pendingTx.Contents()) - IndexTxs(blockList, from, limit)
    {
      var h := from;
      ghost var was := pendingTx.Contents();
      while h in blockList && blockList[h].time >= limit
        invariant pendingTx.Valid()
        invariant pendingTx.Contents() - IndexTxs(blockList, h, limit) == was - IndexTxs(blockList, from, limit)
        decreases Depth(h)
      {
        DelSet(blockList[h].txs);
        h := blockList[h].parentHash;
      }
    }

    /** doChainChangeByForkBCN */
    method ChangeByFork(cache: BlockCache, m: Node, n: Node, fork: Node, limit: int)
      requires pendingTx.Valid() && Head(cache.View(), m) && Head(cache.View(), n) && SaneBlocks(cache.View())
      requires Highest(cache.View(), fork, n, m)
      modifies pendingTx
      ensures pendingTx.Valid()
      ensures Switches(cache.View(), blockList, m, n, limit, old(pendingTx.Contents()), pendingTx.Contents())
    {
      hide *;
      ghost var s, was := cache.View(), pendingTx.Contents();
      AddBranch(cache, m, fork, limit);
      assert cache.View() == s;
      DelBranch(cache, n, fork, limit);
      assert cache.View() == s;
      SwitchesByFork(s, blockList, m, n, fork, limit, was, pendingTx.Contents());
    }

    method HashOf(cache: BlockCache, n: Node) returns (h: Hash)
      requires cache.View().tree.Real(n)
      ensures IsHash(cache.View(), n, h)
    {
      assert cache.PlaceOf(n) == cache.View().tree.nodes[n];
      h := n.block.value.HeadHash();
    }

    /** doChainChangeByTimeout */
    method ChangeByTimeout(cache: BlockCache, m: Node, n: Node, limit: int)
      requires pendingTx.Valid() && Head(cache.View(), m) && Head(cache.View(), n)
      requires cache.View().tree.Real(m) && cache.View().tree.Real(n)
      requires Genuine(blockList) && SaneIndex(blockList) && NoCommon(cache.View(), n, m)
      modifies pendingTx
      ensures pendingTx.Valid()
      ensures Switches(cache.View(), blockList, m, n, limit, old(pendingTx.Contents()), pendingTx.Contents())
    {
      hide *;
      ghost var s, was := cache.View(), pendingTx.Contents();
      var mh := HashOf(cache, m);
      var nh := HashOf(cache, n);
      AddIndexed(mh, limit);
      DelIndexed(nh, limit);
      assert cache.View() == s;
      SwitchesByIndex(s, blockList, m, n, mh, nh, limit, was, pendingTx.Contents());
    }

    /** The head of the pool moves to n, and the pending transactions follow. */
    method ChangeHead(cache: BlockCache, n: Node, now: int)
      requires pendingTx.Valid() && Genuine(blockList) && SaneIndex(blockList)
      requires Head(cache.View(), newHead) && Head(cache.View(), n) && SaneBlocks(cache.View())
      modifies this`newHead, this`oldHead, this`forkBCN, pendingTx
      ensures pendingTx.Valid() && newHead == n
      ensures if n == old(newHead) then pendingTx.Contents() == old(pendingTx.Contents())
              else Switches(old(cache.View()), blockList, old(newHead), n, now - FILTER_TIME,
                            old(pendingTx.Contents()), pendingTx.Contents())
    {
      hide *;
      if n == newHead {
        return;
      }
      oldHead, newHead := newHead, n;
      forkBCN := FindForkBCN(cache, newHead, oldHead);
      if forkBCN != null {
        ChangeByFork(cache, oldHead, newHead, forkBCN, now - FILTER_TIME);
      } else {
        HeadIsReal(cache.View(), oldHead);
        HeadIsReal(cache.View(), newHead);
        ChangeByTimeout(cache, oldHead, newHead, now - FILTER_TIME);
      }
    }

    /** AddLinkedNode: the block is indexed, and the pool follows the head of the cache. */
    method AddLinkedNode(cache: BlockCache, n: Node, now: int)
      requires pendingTx.Valid() && Genuine(blockList) && SaneIndex(blockList)
      requires Head(cache.View(), newHead) && Head(cache.View(), n) && Head(cache.View(), cache.View().head)
      requires SaneBlocks(cache.View()) && cache.View().tree.Real(n)
      requires BlockOf(cache.View(), n).head.txMerkleHash == BlockOf(cache.View(), n).txs
      modifies this, pendingTx
      ensures pendingTx.Valid() && pendingTx == old(pendingTx)
      ensures blockList == WithBlock(old(blockList), BlockOf(old(cache.View()), n))
      ensures var s := old(cache.View());
              newHead == if BlockOf(s, n).head.number > BlockOf(s, s.head).head.number then n else s.head
      ensures if newHead == old(newHead) then pendingTx.Contents() == old(pendingTx.Contents())
              else Switches(old(cache.View()), blockList, old(newHead), newHead, now - FILTER_TIME,
                            old(pendingTx.Contents()), pendingTx.Contents())
    {
      hide State.Chained, Switches;
      assert cache.PlaceOf(n) == cache.View().tree.nodes[n] &&
             cache.PlaceOf(cache.head) == cache.View().tree.nodes[cache.head];
      AddBlock(n.block.value);
      var h := if n.block.value.head.number > cache.head.block.value.head.number then n else cache.head;
      ChangeHead(cache, h, now);
    }
  }

  /** The blocks before an old one are old, and none of them is a later block. */
  lemma OlderStill(chain: seq<Block>, i: nat, limit: int)
    requires Consecutive(chain) && i < |chain| && chain[i].head.time < limit
    ensures forall j :: 0 <= j <= i ==> chain[j].head.time < limit
    ensures forall j, k :: 0 <= j <= i < k < |chain| && chain[k].head.time >= limit ==>
            chain[j].HeadHash() != chain[k].HeadHash()
  {
    forall j | 0 <= j <= i ensures chain[j].head.time < limit {
      TimesIncrease(chain, j, i);
    }
  }

  lemma SameCommonStart(s: State, m: Node, n: Node)
    requires Head(s, m) && Head(s, n)
    ensures SameCommon(s, m, n, m, n)
  {
  }

  /** One step of the search on the side of the old head. */
  lemma LowerStep(s: State, m0: Node, n0: Node, m: Node, n: Node)
    requires Head(s, m0) && Head(s, n0) && Head(s, m) && Head(s, n) && SameCommon(s, m0, n0, m, n)
    requires s.tree.HeadOf(n).number > s.tree.HeadOf(m).number
    ensures var p := s.tree.nodes[n].parent;
            && (p == null ==> NoCommon(s, m0, n0))
            && (p != null ==> && Head(s, p) && SameCommon(s, m0, n0, m, p)
                              && Depth(s.tree.nodes[p].key) < Depth(s.tree.nodes[n].key))
  {
    SameCommonSwap(s, m0, n0, m, n);
    Climb(s, n0, m0, n, m);
    var p := s.tree.nodes[n].parent;
    if p != null {
      ParentIsHead(s, n);
      SameCommonSwap(s, n0, m0, p, m);
    } else {
      NoCommonSwap(s, n0, m0);
    }
  }

  lemma NoCommonSwap(s: State, m: Node, n: Node)
    requires Head(s, m) && Head(s, n) && NoCommon(s, m, n)
    ensures NoCommon(s, n, m)
  {
    forall a | a in s.tree.nodes ensures !Common(s, a, n, m) {
      assert !Common(s, a, m, n);
    }
  }

  lemma BranchStep(s: State, n: Node, fork: Node, limit: int)
    requires Head(s, n) && n != fork && s.tree.HeadOf(n).time >= limit
    ensures var p := s.tree.nodes[n].parent;
            && (p != null ==> Head(s, p) && Depth(s.tree.nodes[p].key) < Depth(s.tree.nodes[n].key))
            && BranchTxs(s, n, fork, limit) == BranchTxs(s, p, fork, limit) + Members(s.tree.nodes[n].block.value.txs)
  {
    if s.tree.nodes[n].parent != null {
      ParentIsHead(s, n);
    }
  }

  lemma HighestIsUnique(s: State, m: Node, n: Node, a: Node)
    requires Head(s, m) && Head(s, n) && Highest(s, a, m, n)
    ensures a in s.tree.nodes && forall b :: b in s.tree.nodes && Highest(s, b, m, n) ==> b == a
  {
    AboveNumber(s, a, m);
    forall b | b in s.tree.nodes && Highest(s, b, m, n) ensures b == a {
      AboveNumber(s, b, a);
      AboveNumber(s, a, b);
    }
  }

  lemma NoneIsHighest(s: State, m: Node, n: Node)
    requires Head(s, m) && Head(s, n) && NoCommon(s, m, n)
    ensures forall b :: b in s.tree.nodes ==> !Highest(s, b, m, n)
  {
  }

  lemma SwitchesByFork(s: State, list: BlockIndex, m: Node, n: Node, a: Node, limit: int, was: set<Tx>, now: set<Tx>)
    requires Head(s, m) && Head(s, n) && Highest(s, a, n, m)
    requires now == was + BranchTxs(s, m, a, limit) - BranchTxs(s, n, a, limit)
    ensures Switches(s, list, m, n, limit, was, now)
  {
    HighestIsUnique(s, n, m, a);
  }

  ghost predicate IsHash(s: State, n: Node, h: Hash) {
    s.tree.Real(n) && h == s.tree.nodes[n].block.value.HeadHash()
  }

  lemma SwitchesByIndex(s: State, list: BlockIndex, m: Node, n: Node, mh: Hash, nh: Hash, limit: int, was: set<Tx>,
                        now: set<Tx>)
    requires Head(s, m) && Head(s, n) && NoCommon(s, n, m) && IsHash(s, m, mh) && IsHash(s, n, nh)
    requires now == was + IndexTxs(list, mh, limit) - IndexTxs(list, nh, limit)
    ensures Switches(s, list, m, n, limit, was, now)
  {
    NoneIsHighest(s, n, m);
  }

  lemma BranchEnd(s: State, n: Node?, fork: Node, limit: int)
    requires n != null ==> Head(s, n)
    requires n == null || n == fork || s.tree.HeadOf(n).time < limit
    ensures BranchTxs(s, n, fork, limit) == {}
  {
  }

  lemma HeadIsReal(s: State, n: Node)
    requires Head(s, n)
    ensures s.tree.Real(n)
  {
  }
}
