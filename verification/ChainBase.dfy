/** The driver: a block is verified, linked and pooled, and then the orphans that waited for it. */
module ChainBaseImpl {
  import opened Sequences
  import opened Options
  import opened Blocks
  import opened BlockTree
  import opened BlockTreeLink
  import opened CacheRuns
  import opened AdvanceFacts
  import opened Replay
  import opened SortedTxs
  import opened ForkSwitch
  import opened ChainRuns
  import opened ChainFacts
  import opened ChainSteps
  import opened ChainProgress
  import opened BlockCacheImpl
  import opened TxPoolImpl

  class ChainBase {
    const bCache: BlockCache
    const txPool: TxPool

    /**
     A node that starts above the irreversible chain. If the clock has not moved past the window behind its last
     block, the node is ready to add blocks.
     */
    constructor (chain: seq<Block>, pending: seq<string>, sha: Sha, now: int)
      requires IsChain(chain) && pending != [] && Injective(sha)
      ensures bCache.View() == Initial(bCache.linkedRoot, chain, pending) && txPool.newHead == bCache.linkedRoot
      ensures IndexesSince(txPool.blockList, chain, now - FILTER_TIME) && txPool.pendingTx.Contents() == {}
      ensures Timely(chain, now) ==> Valid()
      ensures fresh(bCache) && fresh(bCache.nodes) && fresh(txPool) && fresh(txPool.pendingTx)
    {
      hide *;
      ChainIsLinked(chain);
      var cache := new BlockCache(chain, pending);
      var pool := new TxPool(cache.head, sha);
      pool.InitBlockTx(chain, now);
      bCache, txPool := cache, pool;
      new;
      ValidIs();
      FollowsIs();
      if Timely(chain, now) {
        StartIsStanding(bCache.linkedRoot, chain, pending, txPool.blockList, now);
      }
    }

    lemma ValidIs()
      ensures bCache.Mapped() && Standing(View(), txPool.newHead) && txPool.pendingTx.Valid() ==>
                (Idle(bCache.View()) && Follows() ==> Valid())
    {
    }

    lemma ValidParts()
      requires Valid()
      ensures bCache.Mapped() && Standing(View(), txPool.newHead) && txPool.pendingTx.Valid() && Idle(bCache.View()) &&
              Follows()
    {
    }

    ghost function View(): (w: World)
      reads bCache, bCache.nodes, txPool
      ensures w == World(bCache.View(), txPool.blockList, None)
    {
      World(bCache.View(), txPool.blockList, None)
    }

    ghost predicate Valid()
      reads bCache, bCache.nodes, txPool, txPool.pendingTx
    {
      && bCache.Mapped() && Standing(View(), txPool.newHead) && txPool.pendingTx.Valid()
      && Idle(bCache.View()) && Follows()
    }

    /** The pool follows the head of the cache. */
    ghost predicate Follows()
      reads bCache, bCache.nodes, txPool
    {
      txPool.newHead == bCache.View().head
    }

    lemma FollowsIs()
      ensures Follows() <==> txPool.newHead == bCache.View().head
    {
    }

    // -------------------------------------------------------------- verifyBlock

    /** The loop of verifyBlock over the transactions. */
    method VerifyTxs(blk: Block, parent: Block, env: Env) returns (e: Option<Error>)
      requires Genuine(txPool.blockList)
      ensures e.None? <==>
              && NoDup(blk.txs)
              && forall i :: 0 < i < |blk.txs| ==>
                   && !(env.noDelay(blk.head) && blk.txs[i].delay > 0)
                   && !InChain(txPool.blockList, blk.txs[i], parent.HeadHash(), parent.head.time - FILTER_TIME)
                   && TxVerifies(blk.txs[i], env)
      ensures e != Some(Duplicate)
    {
      var seen: set<Tx> := {};
      for k := 0 to |blk.txs|
        invariant seen == set t | t in blk.txs[..k]
        invariant NoDup(blk.txs[..k])
        invariant forall i :: 0 < i < k ==>
                    && !(env.noDelay(blk.head) && blk.txs[i].delay > 0)
                    && !InChain(txPool.blockList, blk.txs[i], parent.HeadHash(), parent.head.time - FILTER_TIME)
                    && TxVerifies(blk.txs[i], env)
      {
        var t := blk.txs[k];
        if t in seen {
          return Some(DoubleTx);
        }
        seen := seen + {t};
        if k == 0 {
          continue;
        }
        if env.noDelay(blk.head) && t.delay > 0 {
          return Some(DelayTx);
        }
        var found := txPool.ExistTxs(t, parent);
        if found {
          return Some(TxDup);
        }
        if !TxVerifies(t, env) {
          return Some(BadTx);
        }
      }
      assert blk.txs[..|blk.txs|] == blk.txs;
      e := None;
    }

    /** The time checks of the verifier, followed by the execution of the block. */
    method VerifyTimes(blk: Block, env: Env) returns (e: Option<Error>)
      ensures e.None? <==>
              && env.executes(blk)
              && forall i :: 0 < i < |blk.txs| ==>
                   && blk.txs[i].IsCreatedBefore(blk.head.time)
                   && (!blk.txs[i].IsExpired(blk.head.time) || blk.txs[i].isDefer)
      ensures (forall i :: 0 < i < |blk.txs| ==> blk.txs[i].WellTimed()) ==>
                (e.None? <==>
                 && env.executes(blk)
                 && forall i :: 0 < i < |blk.txs| ==>
                      var t := blk.txs[i]; if t.isDefer then t.time <= blk.head.time else t.InTime(blk.head.time))
      ensures e != Some(Duplicate)
    {
      forall i | 0 < i < |blk.txs| && blk.txs[i].WellTimed()
        ensures var t := blk.txs[i];
                t.IsCreatedBefore(blk.head.time) && !t.IsExpired(blk.head.time) <==> t.InTime(blk.head.time)
      {
        TimesExact(blk.txs[i], blk.head.time);
      }
      var k := 1;
      while k < |blk.txs|
        invariant 1 <= k
        invariant forall i :: 0 < i < k && i < |blk.txs| ==>
                    && blk.txs[i].IsCreatedBefore(blk.head.time)
                    && (!blk.txs[i].IsExpired(blk.head.time) || blk.txs[i].isDefer)
      {
        var t := blk.txs[k];
        if !t.IsCreatedBefore(blk.head.time) {
          return Some(NotArrivedTx);
        }
        if t.IsExpired(blk.head.time) && !t.isDefer {
          return Some(ExpiredTx);
        }
        k := k + 1;
      }
      e := if env.executes(blk) then None else Some(ExecutionFailed);
    }

    method VerifyBlock(blk: Block, parent: Block, active: seq<string>, env: Env) returns (e: Option<Error>)
      requires Genuine(txPool.blockList) && parent.head.time >= 0 && active != []
      ensures (e.None? <==> Passes(txPool.blockList, blk, parent, active, env)) && e != Some(Duplicate)
    {
      e := VerifyBlockHead(blk, parent, env);
      if e.Some? {
        return;
      }
      if WitnessOf(blk.head.time, active) != blk.head.producer {
        return Some(WrongWitness);
      }
      e := VerifyTxs(blk, parent, env);
      if e.Some? {
        return;
      }
      e := VerifyTimes(blk, env);
    }

    // -------------------------------------------------------------- addExistingBlock

    /** The serial number of a block within its slot. */
    method ComputeSerial(n: Node) returns (k: int)
      requires Offered(bCache.View(), n)
      ensures k == SerialOf(bCache.View(), n)
    {
      hide Genuine, Passes, Tree.Keyed;
      ghost var s := bCache.View();
      var p := n.parent;
      assert bCache.PlaceOf(n) == s.tree.nodes[n] && bCache.PlaceOf(p) == s.tree.nodes[p];
      assert bCache.NoteOf(p) == s.notes[p] && s.tree.Hashed(p) && s.tree.Hashed(n);
      if p.block.value.head.producer != n.block.value.head.producer ||
          Slot(p.block.value.head.time) != Slot(n.block.value.head.time) {
        k := 0;
      } else {
        k := p.serialNum + 1;
      }
    }

    method GiveSerial(n: Node, ghost env: Env) returns (k: int, ghost h: History)
      requires bCache.Mapped() && Standing(View(), txPool.newHead) && Offered(bCache.View(), n)
      modifies bCache.nodes`serialNum
      ensures bCache.Mapped() && Standing(View(), txPool.newHead) && Serialled(bCache.View(), n)
      ensures Adds(h, old(View()), View(), n) && k == SerialOf(old(View()).cache, n) == SerialOf(bCache.View(), n)
      ensures n in old(View()).cache.notes && View() == old(View()).(cache := Numbered(old(View()).cache, n, k))
      ensures Steady(old(View()).cache, bCache.View())
      ensures Staffed(old(View()).cache) && Staffed(View().cache)
      ensures Acceptable(View(), n, env) <==> Acceptable(old(View()), n, env)
    {
      hide *;
      ghost var w := View();
      k := ComputeSerial(n);
      NumberAdds(w, n, env, txPool.newHead);
      NumberIsSteady(w.cache, n, k);
      bCache.SetSerialNum(n, k);
      h := One(w, Move(Number(n, k)), View());
    }

    /** A block that fails verification leaves the cache with everything below it. */
    method Reject(n: Node) returns (ghost h: History)
      requires bCache.Mapped() && Standing(View(), txPool.newHead) && Unlinked(bCache.View(), n)
      modifies bCache, bCache.nodes
      ensures bCache.Mapped() && Standing(View(), txPool.newHead) && Adds(h, old(View()), View(), n)
      ensures bCache.nodes == old(bCache.nodes) && old(View()).cache.tree.Shape()
      ensures View() == old(View()).(cache := Detached(old(View()).cache, old(View()).cache.tree.Subtree(n)))
      ensures Calms(old(View()).cache, bCache.View(), n)
    {
      hide *;
      ghost var w := View();
      DropAdds(w, n, txPool.newHead);
      StandingParts(w, txPool.newHead);
      DropCalms(w.cache, n);
      bCache.Del(n, w.cache.tree.Subtree(n));
      h := One(w, Move(Drop(n)), View());
    }

    /** verifyBlock on the block of n and the block and the active list of its parent. */
    method VerifyOffered(n: Node, env: Env) returns (e: Option<Error>)
      requires Genuine(txPool.blockList) && Offered(bCache.View(), n) && Staffed(bCache.View())
      requires SerialOf(bCache.View(), n) < BLOCKS_PER_WITNESS
      ensures (e.None? <==> Acceptable(View(), n, env)) && e != Some(Duplicate)
    {
      hide Genuine, Passes, Tree.Keyed;
      ghost var s := bCache.View();
      var p := n.parent;
      assert bCache.PlaceOf(n) == s.tree.nodes[n] && bCache.PlaceOf(p) == s.tree.nodes[p] &&
             bCache.NoteOf(p) == s.notes[p];
      assert s.tree.Hashed(p) && s.tree.Hashed(n);
      OfferedTime(s, p);
      e := VerifyBlock(n.block.value, p.block.value, p.active, env);
    }

    /** Link, with the pending list read from the state of the block. */
    method LinkBlock(n: Node, env: Env) returns (ghost voted: Option<seq<string>>)
      requires CanLink(bCache.View(), n)
      modifies bCache, bCache.nodes
      ensures bCache.Mapped() == old(bCache.Mapped()) && bCache.nodes == old(bCache.nodes)
      ensures old(bCache.View()).tree.Real(n) && voted == env.voted(BlockOf(old(bCache.View()), n))
      ensures bCache.View() == Linked(old(bCache.View()), n, voted)
    {
      hide State.HeadIsBest, State.IndexClosed, State.Witnesses, State.Serials, State.Leaves, Tree.Keyed;
      ghost var s := bCache.View();
      CanLinkParts(s, n);
      assert bCache.PlaceOf(n) == s.tree.nodes[n] && bCache.PlaceOf(s.head) == s.tree.nodes[s.head];
      var list := env.voted(n.block.value);
      voted := list;
      bCache.Link(n, list);
    }

    /** Link and UpdateLib. The pool has not seen n yet. */
    method LinkAndUpdateLib(n: Node, env: Env)
      returns (ghost h: History, ghost v: World, ghost climb: Trace, ghost mid: State)
      requires bCache.Mapped() && Standing(View(), txPool.newHead) && Serialled(bCache.View(), n)
      requires Staffed(bCache.View()) && Acceptable(View(), n, env) && Regular(env)
      modifies bCache, bCache.nodes
      ensures bCache.Mapped() && bCache.nodes == old(bCache.nodes)
      ensures v == World(bCache.View(), txPool.blockList, Some(n)) && Standing(v, txPool.newHead)
      ensures Adds(h, old(View()), v, n) && bCache.View().Inv() && n in bCache.View().leaf
      ensures Opens(old(View()).cache, bCache.View(), n)
      ensures CanLink(old(View()).cache, n) && old(View()).cache.tree.Real(n)
      ensures var s := old(View()).cache;
              LibUpdated(Linked(s, n, env.voted(BlockOf(s, n))), n, climb, mid, bCache.View())
    {
      hide *;
      ghost var w, list, head := View(), txPool.blockList, txPool.newHead;
      AcceptCanLink(w, n, env, head);
      ghost var voted := LinkBlock(n, env);
      VotedList(env, BlockOf(w.cache, n));
      AcceptAdds(w, n, env, voted, head);
      ghost var w1 := Accepted(w, n, voted);
      AcceptedWorld(w, n, voted);
      FreshParts(w1, n);
      LinkOpens(w.cache, n, voted);
      ghost var tr;
      tr, climb, mid := bCache.UpdateLib(n);
      LibRunIsSteady(tr, w1.cache, bCache.View(), n);
      OpensThen(w.cache, w1.cache, bCache.View(), n);
      v := World(bCache.View(), list, Some(n));
      TraceAdds(tr, w1.cache, bCache.View(), list, Some(n), n);
      h := TraceHistory(tr, list, Some(n));
      StandingAdds(h, w1, v, n, head);
      AddsAfter(One(w, Accept(n, voted), w1), h, w, w1, v, n);
      h := After(One(w, Accept(n, voted), w1), h);
    }

    /** A block that passed verification is linked, moves the root if it confirms it, and is pooled. */
    method AcceptBlock(n: Node, env: Env) returns (ghost h: History, ghost climb: Trace, ghost mid: State)
      requires bCache.Mapped() && Standing(View(), txPool.newHead) && txPool.pendingTx.Valid() &&
               Serialled(bCache.View(), n)
      requires Staffed(bCache.View()) && Acceptable(View(), n, env) && Regular(env)
      modifies bCache, bCache.nodes, txPool, txPool.pendingTx
      ensures bCache.Mapped() && Standing(View(), txPool.newHead) && txPool.pendingTx.Valid()
      ensures bCache.nodes == old(bCache.nodes) && txPool.pendingTx == old(txPool.pendingTx)
      ensures Adds(h, old(View()), View(), n) && IsLinked(bCache.View(), n) &&
              Opens(old(View()).cache, bCache.View(), n)
      ensures bCache.View().Inv() && n in bCache.View().leaf
      ensures Follows() && Accepts(old(View()), n, env, climb, mid, View())
      ensures Repools(bCache.View(), txPool.blockList, old(txPool.newHead), txPool.newHead, env.now - FILTER_TIME,
                      old(txPool.pendingTx.Contents()), txPool.pendingTx.Contents())
    {
      hide *;
      ghost var w := View();
      StandingIsSound(w, txPool.newHead);
      ghost var v;
      h, v, climb, mid := LinkAndUpdateLib(n, env);
      PoolFollows(bCache.View(), n);
      ghost var was := txPool.newHead;
      PoolingReady(v, n, was);
      txPool.AddLinkedNode(bCache, n, env.now);
      PoolAdds(v, n, was, txPool.newHead);
      AddsAfter(h, One(v, Pool, View()), w, v, View(), n);
      h := After(h, One(v, Pool, View()));
      IsAccepted(w, n, env, climb, mid, h, View());
      IsRepooled(bCache.View(), txPool.blockList, was, txPool.newHead, env.now - FILTER_TIME,
                 old(txPool.pendingTx.Contents()), txPool.pendingTx.Contents());
      FollowsIs();
    }

    method Children(n: Node) returns (r: set<Node>)
      requires n in bCache.View().tree.nodes
      ensures r == bCache.View().tree.nodes[n].children
    {
      assert bCache.PlaceOf(n) == bCache.View().tree.nodes[n];
      r := n.children;
    }

    lemma KeysAreKeys()
      ensures forall m :: m in bCache.View().tree.nodes ==> bCache.View().tree.nodes[m].key == m.key
    {
    }

    /** addExistingBlock: n, which waits below a live parent, and then the orphans that wait for n. */
    method AddExistingBlock(n: Node, env: Env) returns (e: Option<Error>, ghost h: History, ghost acc: Acceptance)
      requires bCache.Mapped() && Standing(View(), txPool.newHead) && txPool.pendingTx.Valid() && Follows()
      requires Offered(bCache.View(), n) && Regular(env)
      modifies bCache, bCache.nodes, txPool, txPool.pendingTx
      ensures bCache.Mapped() && Standing(View(), txPool.newHead) && txPool.pendingTx.Valid() && Follows()
      ensures bCache.nodes == old(bCache.nodes) && txPool.pendingTx == old(txPool.pendingTx)
      ensures Adds(h, old(View()), View(), n)
      ensures Staffed(old(View()).cache) && (e.None? <==> Acceptable(old(View()), n, env))
      ensures (if e.None? then IsLinked(bCache.View(), n) else Refuses(old(View()), n, View())) && e != Some(Duplicate)
      ensures e.None? ==> Takes(acc, old(View()), n, env, View())
      ensures Calms(old(View()).cache, bCache.View(), n)
      decreases Waiting(bCache.View()), 1
    {
      hide *;
      ghost var w := View();
      StandingIsSound(w, txPool.newHead);
      FollowsIs();
      var k;
      k, h := GiveSerial(n, env);
      FollowsIs();
      ghost var w1, h1 := View(), h;
      acc := Acceptance(Trace([], []), w.cache, w1, h);
      NumberedHead(w.cache, n, k);
      StandingIsSound(w1, txPool.newHead);
      SerialledIsOffered(w1.cache, n);
      if k >= BLOCKS_PER_WITNESS {
        LimitIsNotAcceptable(w1, n, env);
        LimitCalms(w.cache, w1.cache, n);
        IsRefused(w, n, w1);
        return Some(OutOfLimit), h, acc;
      }
      SoundList(w1);
      e := VerifyOffered(n, env);
      if e.Some? {
        h := Reject(n);
        DetachedHead(w1.cache, w1.cache.tree.Subtree(n));
        FollowsIs();
        AddsAfter(h1, h, w, w1, View(), n);
        h := After(h1, h);
        SteadyCalms(w.cache, w1.cache, bCache.View(), n);
        IsRefused(w, n, View());
      } else {
        ghost var climb, mid;
        h, climb, mid := AcceptBlock(n, env);
        ghost var w2 := View();
        AddsAfter(h1, h, w, w1, w2, n);
        ghost var h2 := After(h1, h);
        LinkedWaitsNoLonger(h2, w, w2, n);
        h := AddChildren(n, env);
        acc := Acceptance(climb, mid, w2, h);
        IsTaken(acc, w, w1, n, env, View());
        AddsAfter(h2, h, w, w2, View(), n);
        h := After(h2, h);
        LinkedCalms(w1.cache, w2.cache, bCache.View(), n);
        SteadyCalms(w.cache, w1.cache, bCache.View(), n);
      }
    }

    /** The loop of addExistingBlock over the children of n. Children that are removed meanwhile are skipped. */
    method AddChildren(n: Node, env: Env) returns (ghost h: History)
      requires bCache.Mapped() && Standing(View(), txPool.newHead) && txPool.pendingTx.Valid() && Regular(env)
      requires IsLinked(bCache.View(), n) && bCache.View().Inv() && n in bCache.View().leaf && Follows()
      modifies bCache, bCache.nodes, txPool, txPool.pendingTx
      ensures bCache.Mapped() && Standing(View(), txPool.newHead) && txPool.pendingTx.Valid() && Follows()
      ensures bCache.nodes == old(bCache.nodes) && txPool.pendingTx == old(txPool.pendingTx)
      ensures Adds(h, old(View()), View(), n) && IsLinked(bCache.View(), n)
      ensures Steady(old(View()).cache, bCache.View()) && ChildrenDone(bCache.View(), n, {})
      decreases Waiting(bCache.View()), 2
    {
      hide *;
      ghost var w := View();
      KeysAreKeys();
      ChildrenUntouched(w.cache, n);
      var todo := Children(n);
      NothingAdds(w, n);
      NothingIsSteady(w.cache);
      ChildrenStart(w.cache, n);
      h := History([w], []);
      while todo != {}
        invariant bCache.Mapped() && Standing(View(), txPool.newHead) && txPool.pendingTx.Valid() && Follows()
        invariant bCache.nodes == old(bCache.nodes) && txPool.pendingTx == old(txPool.pendingTx)
        invariant Adds(h, w, View(), n) && IsLinked(bCache.View(), n) && Untouched(bCache.View(), n, todo)
        invariant Waiting(bCache.View()) <= Waiting(w.cache)
        invariant Steady(w.cache, bCache.View()) && ChildrenDone(bCache.View(), n, todo)
        decreases todo
      {
        ghost var v := View();
        var c :| c in todo;
        LinkedIsNode(v.cache, n);
        var children := Children(n);
        if c in children {
          ChildIsOffered(v, n, c, todo, txPool.newHead);
          StandingIsSound(v, txPool.newHead);
          ghost var h1, e, acc;
          e, h1, acc := AddExistingBlock(c, env);
          ChildRound(h1, v, View(), n, c, todo);
          AddsAfter(h, h1, w, v, View(), n);
          h := After(h, h1);
          CalmIsSteady(w.cache, v.cache, bCache.View(), c);
          ChildrenNext(v.cache, bCache.View(), n, c, todo);
        } else {
          UntouchedLess(v.cache, n, todo, todo - {c});
          ChildrenSkip(v.cache, n, c, todo);
        }
        todo := todo - {c};
      }
    }

    // -------------------------------------------------------------- Add and the clearing of the pool

    /** bCache.Add, as a history of the chain. */
    method Receive(blk: Block) returns (n: Node, ghost tr: Trace, ghost h: History)
      requires bCache.Mapped() && Standing(View(), txPool.newHead) && blk.HeadHash() !in bCache.hash2node &&
               Idle(bCache.View())
      modifies bCache, bCache.nodes
      ensures bCache.Mapped() && Standing(View(), txPool.newHead) && Runs(h, old(View()), View())
      ensures fresh(bCache.nodes - old(bCache.nodes)) && old(bCache.nodes) <= bCache.nodes
      ensures n in bCache.nodes && Receives(old(View()), tr, View(), n, blk) && OnlyWaits(bCache.View(), n)
      ensures bCache.View().head == old(bCache.View()).head
    {
      hide *;
      ghost var w := View();
      StandingParts(w, txPool.newHead);
      n, tr := bCache.Add(blk);
      AddKeepsHead(tr, w.cache, bCache.View(), |tr.steps|);
      AddsNoLinks(tr);
      TraceRuns(tr, w.cache, bCache.View(), txPool.blockList, None);
      IsReceived(w, tr, View(), n, blk);
      ReceivedWaits(tr, w.cache, bCache.View(), n);
      h := TraceHistory(tr, txPool.blockList, None);
      StandingRuns(h, w, View(), txPool.newHead);
    }

    method ParentLinked(n: Node, ghost blk: Block) returns (b: bool)
      requires Received(bCache.View(), n, blk)
      ensures b <==> bCache.View().tree.nodes[bCache.View().tree.nodes[n].parent].linked
    {
      ghost var s := bCache.View();
      assert bCache.PlaceOf(n) == s.tree.nodes[n] && bCache.PlaceOf(n.parent) == s.tree.nodes[n.parent];
      b := n.parent.linked;
    }

    /** A block the cache does not hold. */
    method AddNewBlock(blk: Block, env: Env) returns (e: Option<Error>, ghost h: History, ghost st: Story)
      requires bCache.Mapped() && Standing(View(), txPool.newHead) && txPool.pendingTx.Valid() && Regular(env)
      requires blk.HeadHash() !in bCache.hash2node && Idle(bCache.View()) && Follows()
      modifies bCache, bCache.nodes, txPool, txPool.pendingTx
      ensures bCache.Mapped() && Standing(View(), txPool.newHead) && txPool.pendingTx.Valid() && Follows()
      ensures Runs(h, old(View()), View()) && e != Some(Duplicate)
      ensures fresh(bCache.nodes - old(bCache.nodes)) && txPool.pendingTx == old(txPool.pendingTx)
      ensures Tells(st, old(View()), blk, env, e, View()) && Idle(bCache.View())
    {
      hide *;
      ghost var w := View();
      FollowsIs();
      var n;
      ghost var tr;
      n, tr, h := Receive(blk);
      FollowsIs();
      ghost var got, h1 := View(), h;
      ReceivesParts(w, tr, got, n, blk);
      var linked := ParentLinked(n, blk);
      if !linked {
        st := Story(n, tr, got, h, None);
        TellsSingle(st, w, blk, env);
        ReceivedOrphan(got.cache, n, blk);
        return Some(Single), h, st;
      }
      ReceivedOffered(got, n, blk, txPool.newHead);
      StandingIsSound(got, txPool.newHead);
      ghost var acc;
      e, h, acc := AddExistingBlock(n, env);
      st := Story(n, tr, got, h, Some(acc));
      TellsAdded(st, w, blk, env, e, View());
      CalmIdles(got.cache, bCache.View(), n);
      RunsAfter(h1, h, w, got, View());
      h := After(h1, h);
    }

    /** A block from the network or from this node. Its chain never holds a transaction twice. */
    method Add(blk: Block, env: Env) returns (e: Option<Error>, ghost h: History, ghost st: Option<Story>)
      requires Valid() && Regular(env)
      modifies bCache, bCache.nodes, txPool, txPool.pendingTx
      ensures Valid() && Runs(h, old(View()), View())
      ensures fresh(bCache.nodes - old(bCache.nodes)) && txPool.pendingTx == old(txPool.pendingTx)
      ensures e == Some(Duplicate) <==> blk.HeadHash() in old(bCache.hash2node)
      ensures e == Some(Duplicate) || !env.blockOk(blk) ==> e.Some? && View() == old(View())
      ensures e != Some(Duplicate) && env.blockOk(blk) ==>
                st.Some? && Tells(st.value, old(View()), blk, env, e, View())
    {
      hide Standing, BlockCache.View, BlockCache.Mapped, SortedTxMap.Valid, Runs, Regular, Tells, Idle, Follows;
      ghost var w := View();
      h, st := History([w], []), None;
      NothingRuns(w);
      if blk.HeadHash() in bCache.hash2node {
        return Some(Duplicate), h, st;
      }
      if !env.blockOk(blk) {
        return Some(BadBlock), h, st;
      }
      ghost var told;
      e, h, told := AddNewBlock(blk, env);
      st := Some(told);
    }

    method RootHead() returns (head: BlockHead)
      requires bCache.View().tree.Shape()
      ensures head == bCache.View().tree.HeadOf(bCache.View().tree.root)
    {
      ghost var t := bCache.View().tree;
      assert bCache.PlaceOf(t.root) == t.nodes[t.root] && t.Hashed(t.root);
      head := bCache.linkedRoot.block.value.head;
    }

    /** The pool drops blocks that have left the window behind the root. */
    method Clear() returns (ghost h: History)
      requires Valid()
      modifies txPool`blockList
      ensures Valid() && Runs(h, old(View()), View())
    {
      hide *;
      ValidParts();
      FollowsIs();
      ghost var w := View();
      ClearRuns(w, txPool.newHead);
      var root := RootHead();
      txPool.ClearBlock(root);
      h := One(w, ChainRuns.Clear, View());
      FollowsIs();
      ValidIs();
    }
  }

  /** A chain of irreversible blocks from genesis, as verification leaves it. */
  ghost predicate IsChain(chain: seq<Block>) {
    && chain != [] && chain[|chain| - 1].head.time >= 0
    && Consecutive(chain) && Clean(chain) && forall i :: 0 <= i < |chain| ==> AllSane(chain[i].txs)
  }

  lemma ChainIsLinked(chain: seq<Block>)
    requires IsChain(chain)
    ensures chain != [] && chain[|chain| - 1].head.time >= 0 && Consecutive(chain)
    ensures forall i :: 0 < i < |chain| ==> ChildOf(chain[i], chain[i - 1])
    ensures forall i :: 0 <= i < |chain| ==> Honest(chain[i])
  {
  }

  /** A timely start establishes all invariants. */
  lemma StartIsStanding(root: Node, chain: seq<Block>, pending: seq<string>, list: BlockIndex, now: int)
    requires IsChain(chain) && pending != [] && IndexesSince(list, chain, now - FILTER_TIME) && Timely(chain, now)
    ensures Standing(World(Initial(root, chain, pending), list, None), root) && Idle(Initial(root, chain, pending))
    ensures Initial(root, chain, pending).head == root
  {
    StartExact(list, chain, now);
    StartIndexIsSane(list, chain, now - FILTER_TIME);
    InitialSound(root, chain, pending, list);
    InitialIdle(root, chain, pending);
  }

  lemma StartIndexIsSane(list: BlockIndex, chain: seq<Block>, limit: int)
    requires IsChain(chain) && IndexesSince(list, chain, limit)
    ensures SaneIndex(list)
  {
    forall h, t | h in list && t in list[h].txs ensures Sane(t) {
      var i :| 0 < i < |chain| && h == chain[i].HeadHash();
      assert Honest(chain[i]) && AllSane(chain[i].txs);
    }
  }

  /** By the steps of tr the block has been received in the node n, and nothing else happened. */
  ghost predicate Receives(w: World, tr: Trace, v: World, n: Node, blk: Block) {
    Received(v.cache, n, blk) && v == w.(cache := v.cache) && Connects(tr, w.cache, v.cache) && AddSteps(tr)
  }

  /**
   n only gets its serial number and stays if it is over the limit of its slot; otherwise it goes with
   all below it.
   */
  ghost predicate Refuses(w: World, n: Node, v: World) {
    && Offered(w.cache, n)
    && var k := SerialOf(w.cache, n);
    && var s := Numbered(w.cache, n, k);
    v == w.(cache := if k >= BLOCKS_PER_WITNESS then s else Detached(s, s.tree.Subtree(n)))
  }

  lemma IsRefused(w: World, n: Node, v: World)
    requires Offered(w.cache, n) && n in w.cache.notes
    requires var k := SerialOf(w.cache, n); var s := Numbered(w.cache, n, k);
             v == w.(cache := if k >= BLOCKS_PER_WITNESS then s else Detached(s, s.tree.Subtree(n)))
    ensures Refuses(w, n, v)
  {
  }

  lemma ReceivedOrphan(s: State, n: Node, blk: Block)
    requires Received(s, n, blk) && OnlyWaits(s, n) && !s.tree.nodes[s.tree.nodes[n].parent].linked
    ensures Idle(s)
  {
    hide Waits;
    OrphanIdles(s, n);
  }

  /** n gets its serial number and is accepted; the rest is the adding of the blocks that waited for it. */
  ghost predicate Takes(acc: Acceptance, w: World, n: Node, env: Env, v: World) {
    && Offered(w.cache, n)
    && Accepts(w.(cache := Numbered(w.cache, n, SerialOf(w.cache, n))), n, env, acc.climb, acc.mid, acc.done)
    && Adds(acc.rest, acc.done, v, n)
  }

  lemma IsTaken(acc: Acceptance, w: World, w1: World, n: Node, env: Env, v: World)
    requires Offered(w.cache, n) && n in w.cache.notes
    requires w1 == w.(cache := Numbered(w.cache, n, SerialOf(w.cache, n)))
    requires Accepts(w1, n, env, acc.climb, acc.mid, acc.done) && Adds(acc.rest, acc.done, v, n)
    ensures Takes(acc, w, n, env, v)
  {
    hide Accepts, Adds, Numbered;
  }

  lemma {:induction false} AddKeepsHead(tr: Trace, s: State, t: State, i: nat)
    requires Connects(tr, s, t) && AddSteps(tr) && i <= |tr.steps|
    ensures tr.states[i].head == s.head && (i == |tr.steps| ==> t.head == s.head)
  {
    if i > 0 {
      AddKeepsHead(tr, s, t, i - 1);
      assert Does(tr.states[i - 1], tr.steps[i - 1], tr.states[i]);
    }
  }

  /** How a block was received in `node`, the world `got` after that, what happened then, and how it was accepted. */
  datatype Story = Story(node: Node, arrival: Trace, got: World, rest: History, acceptance: Option<Acceptance>)

  /**
   What becomes of a received block: it waits if its parent is not linked, and otherwise is linked exactly if
   it is acceptable; all that happens is part of adding it and the blocks that waited for it.
   */
  ghost predicate Tells(st: Story, w: World, blk: Block, env: Env, e: Option<Error>, v: World) {
    var n, got := st.node, st.got;
    && Receives(w, st.arrival, got, n, blk)
    && if !got.cache.tree.nodes[got.cache.tree.nodes[n].parent].linked then e == Some(Single) && v == got
       else && Offered(got.cache, n) && Staffed(got.cache) && (e.None? <==> Acceptable(got, n, env))
            && (if e.Some? then Refuses(got, n, v)
                else && IsLinked(v.cache, n) && BlockOf(v.cache, n) == blk
                     && st.acceptance.Some? && Takes(st.acceptance.value, got, n, env, v))
            && Adds(st.rest, got, v, n)
  }

  lemma IsReceived(w: World, tr: Trace, v: World, n: Node, blk: Block)
    requires Connects(tr, w.cache, v.cache) && AddSteps(tr) && v == w.(cache := v.cache) && Received(v.cache, n, blk)
    ensures Receives(w, tr, v, n, blk)
  {
    hide Connects, AddSteps, Received;
  }

  lemma ReceivesParts(w: World, tr: Trace, v: World, n: Node, blk: Block)
    requires Receives(w, tr, v, n, blk)
    ensures Received(v.cache, n, blk)
  {
    hide Connects, AddSteps, Received;
  }

  lemma TellsSingle(st: Story, w: World, blk: Block, env: Env)
    requires Receives(w, st.arrival, st.got, st.node, blk)
    requires !st.got.cache.tree.nodes[st.got.cache.tree.nodes[st.node].parent].linked
    ensures Tells(st, w, blk, env, Some(Single), st.got)
  {
    hide Connects, AddSteps;
  }

  lemma TellsAdded(st: Story, w: World, blk: Block, env: Env, e: Option<Error>, v: World)
    requires Receives(w, st.arrival, st.got, st.node, blk)
    requires Sound(st.got) && Offered(st.got.cache, st.node) && Staffed(st.got.cache) &&
             Adds(st.rest, st.got, v, st.node)
    requires st.got.cache.tree.nodes[st.got.cache.tree.nodes[st.node].parent].linked
    requires e.None? <==> Acceptable(st.got, st.node, env)
    requires if e.None? then IsLinked(v.cache, st.node) else Refuses(st.got, st.node, v)
    requires e.None? ==> st.acceptance.Some? && Takes(st.acceptance.value, st.got, st.node, env, v)
    ensures Tells(st, w, blk, env, e, v) && Runs(st.rest, st.got, v)
  {
    hide Sound, Offered, Staffed, Acceptable, Adds, Runs, Connects, AddSteps, Refuses, Takes;
    KeepsReceived(st.rest, st.got, v, st.node, blk);
  }

  lemma CanLinkParts(s: State, n: Node)
    requires CanLink(s, n)
    ensures s.tree.Real(n) && s.tree.Real(s.head) && n in s.tree.nodes
    ensures s.tree.nodes[n].parent != null && s.tree.nodes[n].parent in s.tree.nodes && s.tree.nodes[n].parent != n
  {
    assert s.LinkShape(n) && s.tree.Hashed(n) && s.tree.Placed(n);
  }

  lemma AddsNoLinks(tr: Trace)
    requires AddSteps(tr)
    ensures LinksNothing(tr)
  {
  }

  lemma ReceivedOffered(w: World, n: Node, blk: Block, head: Node)
    requires Standing(w, head) && Received(w.cache, n, blk) && w.cache.tree.nodes[w.cache.tree.nodes[n].parent].linked
    ensures Offered(w.cache, n)
  {
    var p := w.cache.tree.nodes[n].parent;
    assert p in w.cache.tree.virtuals ==> w.cache.tree.VirtualShape(p);
  }

  lemma NothingRuns(w: World)
    ensures Runs(History([w], []), w, w)
  {
  }

  lemma KeepsReceived(h: History, w: World, v: World, n: Node, blk: Block)
    requires Adds(h, w, v, n) && Sound(w) && Received(w.cache, n, blk)
    ensures Runs(h, w, v) && v.cache.tree.Real(n) && BlockOf(v.cache, n) == blk
  {
    hide Adds, Sound, Runs;
    AddsSound(h, w, v, n);
    AddsIsRuns(h, w, v, n);
  }

  lemma ClearRuns(w: World, head: Node)
    requires Standing(w, head)
    ensures w.cache.tree.Shape()
    ensures var v := w.(list := Cleared(w.list, w.cache.tree.HeadOf(w.cache.tree.root)));
            Runs(One(w, ChainRuns.Clear, v), w, v) && Standing(v, head)
  {
    var v := w.(list := Cleared(w.list, w.cache.tree.HeadOf(w.cache.tree.root)));
    assert Happens(w, ChainRuns.Clear, v);
    StandingRuns(One(w, ChainRuns.Clear, v), w, v, head);
  }
}
