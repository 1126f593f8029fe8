/**
 Replay protection. A block is verified against an index of recent blocks; that index, the expiry
 rule and increasing block times together keep every transaction from occurring twice on a chain.
 */
module Replay {
  import opened Sequences
  import opened Blocks
  import opened GoInt
  import opened BlockTree

  const FILTER_TIME: int := 90 * SECOND

  /** What the transaction pool keeps of a block. */
  datatype BlockTx = BlockTx(parentHash: Hash, time: int, txs: set<Tx>)

  type BlockIndex = map<Hash, BlockTx>

  function NewBlockTx(b: Block): BlockTx {
    BlockTx(b.head.parentHash, b.head.time, set t | t in b.txs)
  }

  /** addBlock: an entry that is there already stays. */
  function WithBlock(list: BlockIndex, b: Block): BlockIndex {
    if b.HeadHash() in list then list else list[b.HeadHash() := NewBlockTx(b)]
  }

  /** clearBlock */
  function Cleared(list: BlockIndex, root: BlockHead): BlockIndex {
    map h | h in list && list[h].time >= root.time - FILTER_TIME :: list[h]
  }

  /** Every entry describes the block whose hash is its key. */
  ghost predicate Genuine(list: BlockIndex) {
    forall h :: h in list ==>
      h.Sha3? && list[h] == BlockTx(h.head.parentHash, h.head.time, set t | t in h.head.txMerkleHash)
  }

  /** ExistTxs: the walk from h over parents, which stops at a block older than the limit. */
  predicate InChain(list: BlockIndex, t: Tx, h: Hash, limit: int)
    decreases Depth(h)
  {
    h in list && (t in list[h].txs || InParents(list, t, h, limit))
  }

  /** The rest of that walk. A genuine entry leads to a parent of smaller depth. */
  predicate InParents(list: BlockIndex, t: Tx, h: Hash, limit: int)
    requires h in list
    decreases Depth(h), 0
  {
    var p := list[h].parentHash;
    h.Sha3? && p == h.head.parentHash && !(p in list && list[p].time < limit) && InChain(list, t, p, limit)
  }

  // ---------------------------------------------------------------- chains of blocks

  /** The transaction at a position other than the first is ordinary unless it is deferred. */
  ghost predicate Ordinary(b: Block, i: int, t: Tx) {
    0 < i < |b.txs| && b.txs[i] == t && !t.isDefer
  }

  ghost predicate NoReplay(chain: seq<Block>) {
    forall i, a, j, b, t {:trigger Ordinary(chain[i], a, t), Ordinary(chain[j], b, t)} ::
      0 <= i < |chain| && 0 <= j < |chain| && Ordinary(chain[i], a, t) && Ordinary(chain[j], b, t) ==> i == j && a == b
  }

  /** The head commits to the transactions, and none of them is newer than the block. */
  ghost predicate Honest(b: Block) {
    && b.head.txMerkleHash == b.txs
    && forall i, t :: Ordinary(b, i, t) ==> t.IsCreatedBefore(b.head.time)
  }

  /** The genesis block, which is the first of a chain and is never indexed, holds a single transaction. */
  ghost predicate Clean(chain: seq<Block>) {
    && NoReplay(chain)
    && (forall i :: 0 <= i < |chain| ==> Honest(chain[i]))
    && (chain != [] ==> |chain[0].txs| <= 1)
  }

  ghost predicate Consecutive(chain: seq<Block>) {
    forall i :: 0 < i < |chain| ==> ChildOf(chain[i], chain[i - 1])
  }

  /** The index holds every block of the chain but the genesis block that is not older than the limit. */
  ghost predicate Covers(list: BlockIndex, chain: seq<Block>, limit: int) {
    forall i :: 0 < i < |chain| && chain[i].head.time >= limit ==> chain[i].HeadHash() in list
  }

  /** What verifyBlock checks about the transactions of a block below `parent`. */
  ghost predicate TxsPass(list: BlockIndex, blk: Block, parent: Block) {
    && blk.head.txMerkleHash == blk.txs
    && NoDup(blk.txs)
    && forall i :: 0 < i < |blk.txs| ==>
         && !InChain(list, blk.txs[i], parent.HeadHash(), parent.head.time - FILTER_TIME)
         && blk.txs[i].WellTimed()
         && blk.txs[i].IsCreatedBefore(blk.head.time)
         && (!blk.txs[i].IsExpired(blk.head.time) || blk.txs[i].isDefer)
  }

  lemma {:induction false} TimesIncrease(chain: seq<Block>, i: int, j: int)
    requires Consecutive(chain) && 0 <= i <= j < |chain|
    ensures chain[i].head.time <= chain[j].head.time
    decreases j
  {
    if i < j {
      TimesIncrease(chain, i, j - 1);
    }
  }

  /** The walk finds a transaction in any block of the chain inside its window. */
  lemma {:induction false} WalkFinds(list: BlockIndex, chain: seq<Block>, k: int, i: int, t: Tx, limit: int)
    requires Genuine(list) && Consecutive(chain) && Covers(list, chain, limit)
    requires 0 < i <= k < |chain| && chain[i].head.time >= limit
    requires t in chain[i].txs && chain[i].head.txMerkleHash == chain[i].txs
    ensures InChain(list, t, chain[k].HeadHash(), limit)
    decreases k
  {
    TimesIncrease(chain, i, k);
    if i < k {
      WalkFinds(list, chain, k - 1, i, t, limit);
      TimesIncrease(chain, i, k - 1);
      assert ChildOf(chain[k], chain[k - 1]);
    }
  }

  /** Whatever the walk finds is in a block of the chain inside its window. */
  lemma {:induction false} WalkIsSound(list: BlockIndex, chain: seq<Block>, k: int, t: Tx, limit: int) returns (i: int)
    requires Genuine(list) && Consecutive(chain) && 0 <= k < |chain| && chain[0].head.parentHash.Raw?
    requires forall j :: 0 <= j < |chain| ==> chain[j].head.txMerkleHash == chain[j].txs
    requires chain[k].head.time >= limit && InChain(list, t, chain[k].HeadHash(), limit)
    ensures 0 <= i <= k && t in chain[i].txs && chain[i].head.time >= limit
    decreases k
  {
    var h := chain[k].HeadHash();
    if t in list[h].txs {
      i := k;
    } else {
      var p := chain[k].head.parentHash;
      assert InChain(list, t, p, limit) && p in list && p.Sha3?;
      assert ChildOf(chain[k], chain[k - 1]);
      assert list[p].time == chain[k - 1].head.time;
      i := WalkIsSound(list, chain, k - 1, t, limit);
    }
  }

  /** A block that passes the checks keeps its chain free of replays. */
  lemma PassingBlockIsNoReplay(list: BlockIndex, chain: seq<Block>, blk: Block, i: int, t: Tx, a: int, b: int)
    requires chain != [] && Genuine(list) && Clean(chain) && Consecutive(chain)
    requires Covers(list, chain, chain[|chain| - 1].head.time - FILTER_TIME)
    requires ChildOf(blk, chain[|chain| - 1]) && TxsPass(list, blk, chain[|chain| - 1])
    requires 0 <= i < |chain| && Ordinary(chain[i], a, t)
    ensures !Ordinary(blk, b, t)
  {
    if Ordinary(blk, b, t) {
      var parent := chain[|chain| - 1];
      assert Honest(chain[i]) && t.IsCreatedBefore(chain[i].head.time);
      assert !t.IsExpired(blk.head.time) && i > 0;
      WalkFinds(list, chain, |chain| - 1, i, t, parent.head.time - FILTER_TIME);
    }
  }

  lemma CleanExtends(list: BlockIndex, chain: seq<Block>, blk: Block)
    requires chain != [] && Genuine(list) && Clean(chain) && Consecutive(chain)
    requires Covers(list, chain, chain[|chain| - 1].head.time - FILTER_TIME)
    requires ChildOf(blk, chain[|chain| - 1]) && TxsPass(list, blk, chain[|chain| - 1])
    ensures Clean(chain + [blk])
  {
    var longer := chain + [blk];
    forall i, a, j, b, t | 0 <= i < |longer| && 0 <= j < |longer| && Ordinary(longer[i], a, t) &&
        Ordinary(longer[j], b, t)
      ensures i == j && a == b
    {
      if i < |chain| && j < |chain| {
        assert Ordinary(chain[i], a, t) && Ordinary(chain[j], b, t);
      } else if i < |chain| {
        PassingBlockIsNoReplay(list, chain, blk, i, t, a, b);
      } else if j < |chain| {
        PassingBlockIsNoReplay(list, chain, blk, j, t, b, a);
      }
    }
    assert Honest(blk);
  }

  // ---------------------------------------------------------------- the index after a start

  /** The index holds the blocks after genesis that are not older than the limit, and nothing else. */
  ghost predicate IndexesSince(list: BlockIndex, chain: seq<Block>, limit: int) {
    && Genuine(list)
    && (forall i :: 0 < i < |chain| ==> (chain[i].HeadHash() in list <==> chain[i].head.time >= limit))
    && (forall h :: h in list ==> exists i :: 0 < i < |chain| && h == chain[i].HeadHash())
  }

  /** No block of the window behind the last one has left the window behind the clock. */
  ghost predicate Timely(chain: seq<Block>, now: int) {
    forall i :: 0 < i < |chain| && chain[i].head.time >= chain[|chain| - 1].head.time - FILTER_TIME ==>
      chain[i].head.time >= now - FILTER_TIME
  }

  /** The index is filled by the clock: it covers the window behind the last block exactly if the start is timely. */
  lemma StartExact(list: BlockIndex, chain: seq<Block>, now: int)
    requires chain != [] && IndexesSince(list, chain, now - FILTER_TIME)
    ensures Covers(list, chain, chain[|chain| - 1].head.time - FILTER_TIME) <==> Timely(chain, now)
  {
  }

  /** A later limit only shortens the walk. */
  lemma {:induction false} EarlierLimit(list: BlockIndex, t: Tx, h: Hash, limit: int, earlier: int)
    requires InChain(list, t, h, limit) && earlier <= limit
    ensures InChain(list, t, h, earlier)
    decreases Depth(h)
  {
    if t !in list[h].txs {
      EarlierLimit(list, t, h.head.parentHash, limit, earlier);
    }
  }

  /** What the walk finds is in an indexed block of the chain. */
  lemma {:induction false} FoundIsIndexed(list: BlockIndex, chain: seq<Block>, k: int, t: Tx, limit: int)
    returns (m: int)
    requires Genuine(list) && Consecutive(chain) && 0 <= k < |chain| && chain[0].head.parentHash.Raw?
    requires forall j :: 0 <= j < |chain| ==> Honest(chain[j])
    requires InChain(list, t, chain[k].HeadHash(), limit)
    ensures 0 <= m <= k && t in chain[m].txs && chain[m].HeadHash() in list
    decreases k
  {
    var h := chain[k].HeadHash();
    if t in list[h].txs {
      m := k;
      assert Honest(chain[k]);
    } else {
      var p := chain[k].head.parentHash;
      assert InChain(list, t, p, limit) && p in list && p.Sha3?;
      assert ChildOf(chain[k], chain[k - 1]);
      m := FoundIsIndexed(list, chain, k - 1, t, limit);
    }
  }

  /** The child of `parent` that holds t after a base transaction. */
  function Repeating(parent: Block, base: Tx, t: Tx, time: int64): Block {
    var head := BlockHead(parent.HeadHash(), parent.head.number + 1, "", time, [base, t], []);
    Block(head, [base, t])
  }

  /** t is an ordinary transaction of block i and no other transaction of the chain. */
  ghost predicate OnceAt(chain: seq<Block>, i: int, t: Tx) {
    && 0 < i < |chain| && (exists a :: Ordinary(chain[i], a, t))
    && forall m :: 0 <= m < |chain| && chain[m].txs != [] ==> chain[m].txs[0] != t
  }

  lemma FoundInItsBlock(list: BlockIndex, chain: seq<Block>, i: int, t: Tx, limit: int)
    requires Clean(chain) && Consecutive(chain) && Genuine(list) && chain != [] && chain[0].head.parentHash.Raw?
    requires OnceAt(chain, i, t) && InChain(list, t, chain[|chain| - 1].HeadHash(), limit)
    ensures chain[i].HeadHash() in list
  {
    var m := FoundIsIndexed(list, chain, |chain| - 1, t, limit);
    var a :| Ordinary(chain[i], a, t);
    var q :| 0 <= q < |chain[m].txs| && chain[m].txs[q] == t;
    assert Ordinary(chain[m], q, t);
  }

  lemma IndexedIsFound(list: BlockIndex, chain: seq<Block>, i: int, t: Tx, now: int, limit: int)
    requires Clean(chain) && Consecutive(chain) && IndexesSince(list, chain, now - FILTER_TIME) && OnceAt(chain, i, t)
    requires chain[i].HeadHash() in list && chain[i].head.time >= limit
    ensures InChain(list, t, chain[|chain| - 1].HeadHash(), limit)
  {
    var a :| Ordinary(chain[i], a, t);
    assert Honest(chain[i]);
    WalkFinds(list, chain, |chain| - 1, i, t, chain[i].head.time);
    EarlierLimit(list, t, chain[|chain| - 1].HeadHash(), chain[i].head.time, limit);
  }

  /**
   After a start a transaction of the chain can be repeated in the next block exactly if it has not expired and its
   block has left the window behind the clock.
   */
  lemma ReplayExact(list: BlockIndex, chain: seq<Block>, now: int, i: int, t: Tx, base: Tx, time: int64)
    requires chain != [] && Clean(chain) && Consecutive(chain) && chain[0].head.parentHash.Raw?
    requires IndexesSince(list, chain, now - FILTER_TIME) && OnceAt(chain, i, t) && t.WellTimed()
    requires base != t && chain[|chain| - 1].head.time < time
    ensures var last := chain[|chain| - 1];
            var next := Repeating(last, base, t, time);
            && ChildOf(next, last) && !NoReplay(chain + [next])
            && (TxsPass(list, next, last) <==> !t.IsExpired(time) && chain[i].head.time < now - FILTER_TIME)
  {
    hide InChain, Genuine;
    var last := chain[|chain| - 1];
    var next, limit := Repeating(last, base, t, time), last.head.time - FILTER_TIME;
    var longer := chain + [next];
    var a :| Ordinary(chain[i], a, t);
    assert Ordinary(longer[i], a, t) && Ordinary(longer[|chain|], 1, t);
    assert Honest(chain[i]) && t.IsCreatedBefore(chain[i].head.time);
    TimesIncrease(chain, i, |chain| - 1);
    assert TxsPass(list, next, last) <==> !InChain(list, t, last.HeadHash(), limit) && !t.IsExpired(time) by {
      assert next.txs[1] == t;
    }
    if !t.IsExpired(time) {
      assert chain[i].head.time >= limit;
      if chain[i].HeadHash() in list {
        IndexedIsFound(list, chain, i, t, now, limit);
      } else if InChain(list, t, last.HeadHash(), limit) {
        FoundInItsBlock(list, chain, i, t, limit);
      }
    }
  }

  const REPLAYED: Tx := Tx(1, 10 * SECOND, 100, 600000, 0, false, [])

  function Holding(parent: Block, time: int64, number: int, base: seq<int>): Block {
    var txs := [Tx(0, 0, 100, 0, 0, false, base), REPLAYED];
    Block(BlockHead(parent.HeadHash(), number, "", time, txs, []), txs)
  }

  /** After a late start a block may repeat a transaction of the last block. */
  lemma LateStartReplays()
    ensures var genesis := Block(BlockHead(Raw(""), 0, "", 0, [], []), []);
            var last := Holding(genesis, SECOND, 1, [1]);
            var next := Holding(last, 2 * SECOND, 2, [2]);
            var now := 92 * SECOND;
            && Clean([genesis, last]) && Consecutive([genesis, last]) && !Timely([genesis, last], now)
            && IndexesSince(map[], [genesis, last], now - FILTER_TIME)
            && ChildOf(next, last) && TxsPass(map[], next, last) && !NoReplay([genesis, last, next])
  {
    var genesis := Block(BlockHead(Raw(""), 0, "", 0, [], []), []);
    var last := Holding(genesis, SECOND, 1, [1]);
    var next := Holding(last, 2 * SECOND, 2, [2]);
    var chain := [genesis, last, next];
    assert Ordinary(chain[1], 1, REPLAYED) && Ordinary(chain[2], 1, REPLAYED);
    assert chain[1].head.time == SECOND && [genesis, last][1] == last;
    OnceIn(genesis, last);
  }

  lemma OnceIn(genesis: Block, last: Block)
    requires genesis.txs == [] && genesis.head.txMerkleHash == [] && last == Holding(genesis, SECOND, 1, [1])
    ensures Clean([genesis, last])
  {
    var chain := [genesis, last];
    forall i, a, j, b, t | 0 <= i < |chain| && 0 <= j < |chain| && Ordinary(chain[i], a, t) && Ordinary(chain[j], b, t)
      ensures i == j && a == b
    {
      assert chain[0] == genesis && chain[1] == last;
    }
  }
}
