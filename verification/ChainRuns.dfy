/** The block cache together with the transaction pool's index of recent blocks: no replay on any run. */
module ChainRuns {
  import opened Sequences
  import opened Options
  import opened Blocks
  import opened BlockTree
  import opened BlockTreeAdd
  import opened BlockTreeLink
  import opened BlockTreeRoot
  import opened CacheRuns
  import opened AdvanceFacts
  import opened NumberIndex
  import opened Replay

  /** `pooling` is a block that has been linked but not yet handed to the transaction pool. */
  datatype World = World(cache: State, list: BlockIndex, pooling: Option<Node>)

  datatype Event =
    | Move(step: Step)
    | Accept(node: Node, voted: Option<seq<string>>)
    | Pool
    | Clear

  ghost predicate Happens(w: World, e: Event, v: World) {
    match e
    case Move(step) => !step.Link? && Does(w.cache, step, v.cache) && v == w.(cache := v.cache)
    case Accept(n, voted) =>
      && w.pooling.None?
      && Does(w.cache, Link(n, voted), v.cache)
      && TxsPass(w.list, w.cache.tree.nodes[n].block.value,
                 w.cache.tree.nodes[w.cache.tree.nodes[n].parent].block.value)
      && v == w.(cache := v.cache, pooling := Some(n))
    case Pool =>
      && w.pooling.Some? && w.cache.tree.Real(w.pooling.value)
      && v == w.(list := WithBlock(w.list, w.cache.tree.nodes[w.pooling.value].block.value), pooling := None)
    case Clear =>
      w.cache.tree.Shape() && v == w.(list := Cleared(w.list, w.cache.tree.HeadOf(w.cache.tree.root)))
  }

  // ---------------------------------------------------------------- chains in the cache

  /** The blocks after the root up to n. */
  ghost function PathBlocks(s: State, n: Node): seq<Block>
    requires s.Chained() && s.tree.Live(n)
    decreases Depth(s.tree.nodes[n].key)
  {
    if n == s.tree.root then []
    else assert s.LinkShape(n); PathBlocks(s, s.tree.nodes[n].parent) + [s.tree.nodes[n].block.value]
  }

  /** The whole chain that ends in n: the irreversible blocks and the blocks above them. */
  ghost function Ancestry(s: State, n: Node): seq<Block>
    requires s.Chained() && s.tree.Live(n)
  {
    s.chain + PathBlocks(s, n)
  }

  lemma {:induction false} AncestryLinked(s: State, n: Node)
    requires s.Chained() && s.Finalized() && s.tree.Live(n)
    ensures Ancestry(s, n) != [] && Ancestry(s, n)[|Ancestry(s, n)| - 1] == s.tree.nodes[n].block.value
    ensures Consecutive(Ancestry(s, n))
    decreases Depth(s.tree.nodes[n].key)
  {
    if n != s.tree.root {
      assert s.LinkShape(n) && s.tree.Placed(n);
      var p := s.tree.nodes[n].parent;
      AncestryLinked(s, p);
      assert Ancestry(s, n) == Ancestry(s, p) + [s.tree.nodes[n].block.value];
    } else {
      assert Ancestry(s, n) == s.chain;
    }
  }

  /** The live nodes of t were live in s, at the same place. */
  ghost predicate KeepsPaths(s: State, t: State) {
    && t.tree.root == s.tree.root && t.chain == s.chain
    && forall n {:trigger t.tree.nodes[n].parent} :: t.tree.Live(n) && s.tree.Live(n) ==>
         t.tree.nodes[n].parent == s.tree.nodes[n].parent && t.tree.nodes[n].block == s.tree.nodes[n].block
  }

  lemma {:induction false} PathKept(s: State, t: State, n: Node)
    requires s.Chained() && t.Chained() && KeepsPaths(s, t) && s.tree.Live(n) && t.tree.Live(n)
    ensures PathBlocks(t, n) == PathBlocks(s, n)
    decreases Depth(s.tree.nodes[n].key)
  {
    if n != s.tree.root {
      assert s.LinkShape(n) && t.LinkShape(n);
      PathKept(s, t, s.tree.nodes[n].parent);
    }
  }

  lemma {:induction false} PathShrinks(s: State, c: Node, t: State, n: Node)
    requires s.Chained() && t.Chained() && Shrinks(s.tree, t.tree) && t.tree.root == c && s.tree.root !in t.tree.cached
    requires s.tree.Live(c) && s.tree.nodes[c].parent == s.tree.root && t.tree.Live(n)
    ensures s.tree.Live(n) && PathBlocks(s, n) == [s.tree.nodes[c].block.value] + PathBlocks(t, n)
    decreases Depth(t.tree.nodes[n].key)
  {
    if n == c {
      assert s.LinkShape(n);
    } else {
      assert t.LinkShape(n) && s.LinkShape(n);
      PathShrinks(s, c, t, t.tree.nodes[n].parent);
    }
  }

  lemma {:induction false} LiveTime(s: State, n: Node)
    requires s.Chained() && s.tree.Live(n)
    ensures s.tree.HeadOf(n).time >= s.tree.HeadOf(s.tree.root).time
    decreases Depth(s.tree.nodes[n].key)
  {
    if n != s.tree.root {
      assert s.LinkShape(n);
      LiveTime(s, s.tree.nodes[n].parent);
    }
  }

  // ---------------------------------------------------------------- the invariant

  ghost predicate PoolingOk(w: World) {
    w.pooling.Some? ==>
      var n := w.pooling.value;
      w.cache.tree.Real(n) && w.cache.tree.Hashed(n) && Honest(w.cache.tree.nodes[n].block.value)
  }

  /** n is the root, and no block has become irreversible since genesis. */
  ghost predicate AtGenesis(s: State, n: Node) {
    n == s.tree.root && |s.chain| <= 1
  }

  /** The index holds every live block and the window behind the root, but not genesis and the block being pooled. */
  ghost predicate Pooled(w: World) {
    && w.cache.tree.Shape()
    && (forall n :: w.cache.tree.Live(n) && w.pooling != Some(n) && !AtGenesis(w.cache, n) ==>
          w.cache.tree.nodes[n].key in w.list)
    && (forall i :: 0 < i < |w.cache.chain|
          && w.cache.chain[i].head.time >= w.cache.tree.HeadOf(w.cache.tree.root).time - FILTER_TIME
          && !BeingPooled(w, w.cache.chain[i].HeadHash())
          ==> w.cache.chain[i].HeadHash() in w.list)
  }

  ghost predicate BeingPooled(w: World, h: Hash) {
    w.pooling.Some? && w.pooling.value in w.cache.tree.nodes && w.cache.tree.nodes[w.pooling.value].key == h
  }

  ghost predicate AllClean(s: State) {
    s.Chained() && forall n :: s.tree.Live(n) ==> Clean(Ancestry(s, n))
  }

  ghost predicate Inv(w: World) {
    w.cache.Inv() && w.cache.Finalized() && Genuine(w.list) && PoolingOk(w) && Pooled(w) && AllClean(w.cache)
  }

  // ---------------------------------------------------------------- steps that neither link nor advance

  ghost predicate SameLive(s: State, t: State) {
    && s.tree.root in s.tree.nodes
    && t.tree.root == s.tree.root && t.chain == s.chain && s.tree.nodes.Keys <= t.tree.nodes.Keys
    && (forall n {:trigger t.tree.nodes[n].key} :: n in s.tree.nodes ==> t.tree.nodes[n].key == s.tree.nodes[n].key)
    && (forall n {:trigger t.tree.nodes[n].block} :: s.tree.Real(n) ==> t.tree.nodes[n].block == s.tree.nodes[n].block)
    && (forall n {:trigger t.tree.nodes[n].parent} :: t.tree.Live(n) ==>
          s.tree.Live(n) && t.tree.nodes[n].parent == s.tree.nodes[n].parent)
  }

  lemma QuietSameLive(s: State, step: Step, t: State)
    requires s.Inv() && Does(s, step, t) && !step.Link? && !step.Advance?
    ensures SameLive(s, t)
  {
    match step
    case NewVirtual(h, v) => VirtualSameLive(s, h, v);
    case Fill(m, blk, p) => FillSameLive(s, m, blk, p);
    case Drop(n) => DetachedSameLive(s, s.tree.Subtree(n));
    case Repair => RepairSameLive(s);
    case _ =>
  }

  lemma VirtualSameLive(s: State, h: Hash, v: Node)
    requires s.tree.Shape() && v !in s.tree.nodes
    ensures SameLive(s, WithVirtual(s, h, v))
  {
    var t := WithVirtual(s, h, v);
    forall n | t.tree.Live(n) ensures s.tree.Live(n) && t.tree.nodes[n].parent == s.tree.nodes[n].parent {
    }
  }

  lemma FillSameLive(s: State, m: Node, blk: Block, p: Node)
    requires CanFill(s.tree, m, blk, p)
    ensures SameLive(s, s.(tree := Filled(s.tree, m, blk, p)))
  {
    assert s.tree.VirtualShape(m);
    var t := s.(tree := Filled(s.tree, m, blk, p));
    forall n | t.tree.Live(n) ensures s.tree.Live(n) && t.tree.nodes[n].parent == s.tree.nodes[n].parent {
    }
  }

  lemma DetachedSameLive(s: State, dead: set<Node>)
    requires s.tree.root in s.tree.nodes
    ensures SameLive(s, Detached(s, dead))
  {
    var t := Detached(s, dead);
    forall n | t.tree.Live(n) ensures s.tree.Live(n) && t.tree.nodes[n].parent == s.tree.nodes[n].parent {
    }
  }

  lemma RepairSameLive(s: State)
    requires s.Inv()
    ensures SameLive(s, Repaired(s, s.head))
  {
    ClosedAtHead(s);
    RepairedClosed(s, s.head);
  }

  lemma SameLiveClean(s: State, t: State)
    requires AllClean(s) && SameLive(s, t) && t.Chained()
    ensures AllClean(t)
  {
    assert KeepsPaths(s, t);
    forall n | t.tree.Live(n) ensures Clean(Ancestry(t, n)) {
      PathKept(s, t, n);
    }
  }

  lemma SameLivePooled(w: World, t: State)
    requires Pooled(w) && PoolingOk(w) && SameLive(w.cache, t) && t.tree.Shape()
    ensures Pooled(w.(cache := t)) && PoolingOk(w.(cache := t))
  {
    assert w.cache.tree.HeadOf(w.cache.tree.root) == t.tree.HeadOf(t.tree.root);
  }

  lemma SameLiveKeeps(w: World, t: State)
    requires Inv(w) && SameLive(w.cache, t) && t.Inv() && t.Finalized()
    ensures Inv(w.(cache := t))
  {
    hide AllClean, Pooled, PoolingOk, SameLive, State.Finalized, Genuine;
    SameLiveClean(w.cache, t);
    SameLivePooled(w, t);
  }

  // ---------------------------------------------------------------- accepting a block

  lemma {:induction false} PathPooled(w: World, n: Node)
    requires w.cache.Chained() && Pooled(w) && w.pooling.None? && w.cache.tree.Live(n)
    ensures forall i :: 0 <= i < |PathBlocks(w.cache, n)| ==> PathBlocks(w.cache, n)[i].HeadHash() in w.list
    decreases Depth(w.cache.tree.nodes[n].key)
  {
    var s := w.cache;
    if n != s.tree.root {
      assert s.LinkShape(n) && s.tree.Hashed(n);
      PathPooled(w, s.tree.nodes[n].parent);
    }
  }

  lemma AncestryCovered(w: World, n: Node)
    requires w.cache.Chained() && Pooled(w) && w.pooling.None? && w.cache.tree.Live(n)
    ensures Covers(w.list, Ancestry(w.cache, n), w.cache.tree.HeadOf(n).time - FILTER_TIME)
  {
    LiveTime(w.cache, n);
    PathPooled(w, n);
  }

  /** Linking n leaves the chains of the other nodes alone. */
  ghost predicate Grows(s: State, n: Node, t: State) {
    && KeepsPaths(s, t) && n in s.tree.nodes && s.tree.nodes.Keys <= t.tree.nodes.Keys
    && (forall m {:trigger t.tree.nodes[m].key} :: m in s.tree.nodes ==> t.tree.nodes[m].key == s.tree.nodes[m].key)
    && (forall m {:trigger t.tree.nodes[m].block} :: m in s.tree.nodes ==>
        t.tree.nodes[m].block == s.tree.nodes[m].block)
    && t.tree.nodes[n].parent == s.tree.nodes[n].parent
    && (forall m {:trigger t.tree.Live(m)} :: m in t.tree.nodes && t.tree.Live(m) ==> m == n || s.tree.Live(m))
    && (forall m {:trigger s.tree.Live(m)} :: m in s.tree.nodes && s.tree.Live(m) ==> t.tree.Live(m))
  }

  lemma LinkGrows(s: State, n: Node, voted: Option<seq<string>>)
    requires Verified(s, n) && s.tree.Real(s.head)
    ensures Grows(s, n, Linked(s, n, voted))
  {
    var t := Linked(s, n, voted);
    forall m | t.tree.Live(m) && s.tree.Live(m)
      ensures t.tree.nodes[m].parent == s.tree.nodes[m].parent && t.tree.nodes[m].block == s.tree.nodes[m].block
    {
    }
  }

  lemma AcceptedChain(w: World, n: Node, t: State)
    requires Inv(w) && w.pooling.None? && Verified(w.cache, n) && Grows(w.cache, n, t) && t.Chained() && t.tree.Live(n)
    requires TxsPass(w.list, w.cache.tree.nodes[n].block.value,
                     w.cache.tree.nodes[w.cache.tree.nodes[n].parent].block.value)
    ensures Clean(Ancestry(t, n)) && Honest(w.cache.tree.nodes[n].block.value)
  {
    var s := w.cache;
    var p, blk := s.tree.nodes[n].parent, s.tree.nodes[n].block.value;
    assert s.LinkShape(n) && s.tree.Placed(n) && t.LinkShape(n);
    AncestryLinked(s, p);
    AncestryCovered(w, p);
    assert ChildOf(blk, s.tree.nodes[p].block.value);
    CleanExtends(w.list, Ancestry(s, p), blk);
    PathKept(s, t, p);
    assert Ancestry(t, n) == Ancestry(s, p) + [blk];
  }

  lemma AcceptClean(s: State, n: Node, t: State)
    requires AllClean(s) && Grows(s, n, t) && t.Chained() && t.tree.Live(n) && Clean(Ancestry(t, n))
    ensures AllClean(t)
  {
    forall m | t.tree.Live(m) ensures Clean(Ancestry(t, m)) {
      if m != n {
        PathKept(s, t, m);
      }
    }
  }

  lemma AcceptPooled(w: World, n: Node, t: State)
    requires Pooled(w) && w.pooling.None? && Grows(w.cache, n, t) && t.tree.Shape()
    ensures Pooled(w.(cache := t, pooling := Some(n)))
  {
    assert w.cache.tree.HeadOf(w.cache.tree.root) == t.tree.HeadOf(t.tree.root);
  }

  lemma AcceptKeeps(w: World, n: Node, t: State)
    requires Inv(w) && w.pooling.None? && Verified(w.cache, n) && Grows(w.cache, n, t)
    requires t.Inv() && t.Finalized() && t.tree.Live(n)
    requires TxsPass(w.list, w.cache.tree.nodes[n].block.value,
                     w.cache.tree.nodes[w.cache.tree.nodes[n].parent].block.value)
    ensures Inv(w.(cache := t, pooling := Some(n)))
  {
    AcceptedChain(w, n, t);
    AcceptClean(w.cache, n, t);
    AcceptPooled(w, n, t);
    hide State.Inv, AllClean, Pooled;
    assert t.tree.Hashed(n);
  }

  // ---------------------------------------------------------------- moving the root

  /** The root of t is the child c of the root of s. */
  ghost predicate Moved(s: State, c: Node, t: State) {
    && s.Chained() && t.Chained()
    && Shrinks(s.tree, t.tree) && s.tree.root !in t.tree.cached && t.tree.root == c
    && s.tree.Live(c) && s.tree.nodes[c].parent == s.tree.root
    && t.chain == s.chain + [s.tree.nodes[c].block.value]
  }

  lemma AdvanceMoves(s: State, c: Node, t: State)
    requires CanChoose(s, c) && AdvancesTo(s, c, t) && t.Chained()
    ensures Moved(s, c, t)
  {
    AdvancesEffect(s, c, t);
  }

  lemma AdvanceClean(s: State, c: Node, t: State)
    requires AllClean(s) && Moved(s, c, t)
    ensures AllClean(t)
  {
    forall n | t.tree.Live(n) ensures Clean(Ancestry(t, n)) {
      AncestryMoved(s, c, t, n);
    }
  }

  lemma AncestryMoved(s: State, c: Node, t: State, n: Node)
    requires Moved(s, c, t) && t.tree.Live(n)
    ensures s.tree.Live(n) && Ancestry(t, n) == Ancestry(s, n)
  {
    PathShrinks(s, c, t, n);
    hide State.Chained, Shrinks, PathBlocks;
    Regroup(s.chain, [s.tree.nodes[c].block.value], PathBlocks(t, n));
  }

  lemma AdvancePooled(w: World, c: Node, t: State)
    requires Pooled(w) && Moved(w.cache, c, t)
    ensures Pooled(w.(cache := t))
  {
    assert w.cache.LinkShape(c) && w.cache.tree.Hashed(c);
  }

  lemma AdvanceKeeps(w: World, c: Node, t: State)
    requires Inv(w) && CanChoose(w.cache, c) && AdvancesTo(w.cache, c, t) && t.Inv() && t.Finalized()
    ensures Inv(w.(cache := t))
  {
    AdvanceMoves(w.cache, c, t);
    AdvanceClean(w.cache, c, t);
    AdvancePooled(w, c, t);
    hide State.Inv, AllClean, Pooled;
  }

  lemma PoolKeeps(w: World)
    requires Inv(w) && w.pooling.Some?
    ensures Inv(w.(list := WithBlock(w.list, w.cache.tree.nodes[w.pooling.value].block.value), pooling := None))
  {
  }

  lemma ClearKeeps(w: World)
    requires Inv(w)
    ensures Inv(w.(list := Cleared(w.list, w.cache.tree.HeadOf(w.cache.tree.root))))
  {
    var s := w.cache;
    forall n | s.tree.Live(n) && w.pooling != Some(n) && !AtGenesis(s, n)
      ensures s.tree.nodes[n].key in Cleared(w.list, s.tree.HeadOf(s.tree.root))
    {
      LiveTime(s, n);
      assert s.tree.Hashed(n);
    }
  }

  // ---------------------------------------------------------------- runs

  lemma EventKeepsInv(w: World, e: Event, v: World)
    requires Inv(w) && Happens(w, e, v)
    ensures Inv(v)
  {
    match e
    case Move(step) =>
      StepKeepsInv(w.cache, step, v.cache);
      StepExtends(w.cache, step, v.cache);
      MoveKeeps(w, step, v.cache);
    case Accept(n, voted) =>
      StepKeepsInv(w.cache, Link(n, voted), v.cache);
      StepExtends(w.cache, Link(n, voted), v.cache);
      LinkGrows(w.cache, n, voted);
      AcceptKeeps(w, n, v.cache);
    case Pool => PoolKeeps(w);
    case Clear => ClearKeeps(w);
  }

  lemma MoveKeeps(w: World, step: Step, t: State)
    requires Inv(w) && Does(w.cache, step, t) && !step.Link? && t.Inv() && t.Finalized()
    ensures Inv(w.(cache := t))
  {
    if step.Advance? {
      AdvanceKeeps(w, Branch(w.cache, step.node), t);
    } else {
      QuietSameLive(w.cache, step, t);
      SameLiveKeeps(w, t);
    }
  }

  datatype History = History(worlds: seq<World>, events: seq<Event>)

  ghost predicate Leads(h: History, w: World, v: World) {
    && |h.worlds| == |h.events| + 1
    && h.worlds[0] == w && h.worlds[|h.events|] == v
    && forall i :: 0 <= i < |h.events| ==> Happens(h.worlds[i], h.events[i], h.worlds[i + 1])
  }

  lemma {:induction false} RunKeepsInv(h: History, w: World, v: World, i: nat)
    requires Leads(h, w, v) && Inv(w) && i <= |h.events|
    ensures Inv(h.worlds[i])
  {
    if i > 0 {
      RunKeepsInv(h, w, v, i - 1);
      EventKeepsInv(h.worlds[i - 1], h.events[i - 1], h.worlds[i]);
    }
  }

  /**
   No replay: after any run, on the whole chain that ends in any live block, an ordinary transaction
   occurs at one position of one block.
   */
  lemma NoReplayOnAnyRun(h: History, w: World, v: World, n: Node)
    requires Leads(h, w, v) && Inv(w) && v.cache.tree.Live(n)
    ensures v.cache.Chained() && NoReplay(Ancestry(v.cache, n)) && Consecutive(Ancestry(v.cache, n))
  {
    RunKeepsInv(h, w, v, |h.events|);
    AncestryLinked(v.cache, n);
  }
}
