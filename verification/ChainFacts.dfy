/** Further invariants on which the recursion of addExistingBlock relies. */
module ChainFacts {
  import opened Options
  import opened Blocks
  import opened BlockTree
  import opened BlockTreeAdd
  import opened BlockTreeLink
  import opened BlockTreeRoot
  import opened CacheRuns
  import opened AdvanceFacts
  import opened NumberIndex
  import opened Replay
  import opened SortedTxs
  import opened ChainRuns
  import opened ForkSwitch

  /** A node that has left the maps has only linked children left: it is a former root, or it is empty. */
  ghost predicate Retired(t: Tree) {
    forall n, c :: n in t.nodes && !t.Present(n) && c in t.nodes[n].children ==> c in t.nodes && t.nodes[c].linked
  }

  lemma PrunedRetired(t: Tree, dead: set<Node>)
    requires Retired(t)
    ensures Retired(Pruned(t, dead))
  {
    var u := Pruned(t, dead);
    forall n, c | n in u.nodes && !u.Present(n) && c in u.nodes[n].children ensures c in u.nodes && u.nodes[c].linked {
      assert n !in dead && !t.Present(n);
    }
  }

  lemma NewRootRetired(s: State, c: Node)
    requires CanReroot(s, c) && Retired(s.tree)
    ensures Retired(NewRoot(s, c).tree)
  {
    var u := NewRoot(s, c).tree;
    forall n, x | n in u.nodes && !u.Present(n) && x in u.nodes[n].children ensures x in u.nodes && u.nodes[x].linked {
      assert n == s.tree.root || !s.tree.Present(n);
    }
  }

  lemma SweptRetired(s: State)
    requires s.tree.Shape() && Retired(s.tree)
    ensures Retired(Swept(s).tree)
  {
    hide Tree.Shape, OutdatedNodes, OutdatedVirtuals;
    PrunedRetired(s.tree, OutdatedNodes(s.tree));
    EmptiedVirtuals(s.tree);
    WithoutRetired(Pruned(s.tree, OutdatedNodes(s.tree)), OutdatedVirtuals(s.tree));
  }

  lemma WithoutRetired(t: Tree, gone: set<Node>)
    requires Retired(t) && forall v :: v in gone ==> v in t.nodes && t.nodes[v].children == {}
    ensures Retired(t.(virtuals := t.virtuals - gone))
  {
    var u := t.(virtuals := t.virtuals - gone);
    forall n, c | n in u.nodes && !u.Present(n) && c in u.nodes[n].children ensures c in u.nodes && u.nodes[c].linked {
      assert n !in gone;
    }
  }

  lemma AdvanceRetired(s: State, c: Node, t: State)
    requires CanChoose(s, c) && AdvancesTo(s, c, t) && Retired(s.tree)
    ensures Retired(t.tree)
  {
    AdvancedInv(s, c);
    PrunedRetired(s.tree, Siblings(s.tree, c));
    NewRootRetired(Chosen(s, c), c);
    SweptRetired(NewRoot(Chosen(s, c), c));
  }

  /** Every live block has producers to schedule its children. */
  ghost predicate Staffed(s: State) {
    s.Shape() && forall n :: s.tree.Live(n) ==> s.notes[n].active != [] && s.notes[n].pending != []
  }

  /** s and t have the same linked blocks. */
  ghost predicate SameBlocks(s: State, t: State) {
    && s.tree.nodes.Keys <= t.tree.nodes.Keys
    && (forall n :: t.tree.Real(n) && t.tree.nodes[n].linked ==>
          n in s.tree.nodes && s.tree.nodes[n].linked && s.tree.nodes[n].block == t.tree.nodes[n].block)
    && (forall n :: s.tree.Real(n) && s.tree.nodes[n].linked ==>
          t.tree.nodes[n].linked && t.tree.nodes[n].block == s.tree.nodes[n].block)
  }

  /** Live nodes of t were live in s and have kept their lists, or lists taken from another live node. */
  ghost predicate SameStaff(s: State, t: State) {
    && s.Shape() && t.Shape()
    && forall n :: t.tree.Live(n) ==>
         && s.tree.Live(n)
         && (t.notes[n].active == s.notes[n].active || t.notes[n].active == s.notes[s.tree.root].pending)
         && t.notes[n].pending == s.notes[n].pending
  }

  lemma QuietKeepsMore(s: State, step: Step, t: State)
    requires s.Inv() && Does(s, step, t) && t.Shape() && !step.Link? && !step.Advance?
    requires SameLive(s, t) && Retired(s.tree)
    ensures SameBlocks(s, t) && SameStaff(s, t) && Retired(t.tree)
  {
    hide SameBlocks, SameStaff, Retired, SameLive, State.HeadIsBest, State.IndexClosed, State.Witnesses, State.Serials;
    match step
    case NewVirtual(h, v) => VirtualKeepsMore(s, h, v);
    case Fill(m, blk, p) => FillKeepsMore(s, m, blk, p);
    case Drop(n) => DetachedKeepsMore(s, s.tree.Subtree(n));
    case Repair => RepairKeepsMore(s, t);
    case _ => SameTreeKeepsMore(s, t);
  }

  lemma SameTreeKeepsMore(s: State, t: State)
    requires s.Shape() && t.Shape() && Retired(s.tree) && t.tree == s.tree
    requires forall n :: n in s.notes ==>
               && (t.notes[n].active == s.notes[n].active || t.notes[n].active == s.notes[s.tree.root].pending)
               && t.notes[n].pending == s.notes[n].pending
    ensures SameBlocks(s, t) && SameStaff(s, t) && Retired(t.tree)
  {
  }

  lemma VirtualKeepsMore(s: State, h: Hash, v: Node)
    requires s.Shape() && v !in s.tree.nodes && Retired(s.tree)
    ensures var t := WithVirtual(s, h, v);
            SameBlocks(s, t) && (t.Shape() && SameLive(s, t) ==> SameStaff(s, t)) && Retired(t.tree)
  {
    var t := WithVirtual(s, h, v);
    forall n, c | n in t.tree.nodes && !t.tree.Present(n) && c in t.tree.nodes[n].children
      ensures c in t.tree.nodes && t.tree.nodes[c].linked
    {
      assert n in s.tree.nodes && !s.tree.Present(n);
    }
  }

  lemma FillKeepsMore(s: State, m: Node, blk: Block, p: Node)
    requires s.Shape() && CanFill(s.tree, m, blk, p) && Retired(s.tree)
    ensures var t := s.(tree := Filled(s.tree, m, blk, p));
            SameBlocks(s, t) && (t.Shape() && SameLive(s, t) ==> SameStaff(s, t)) && Retired(t.tree)
  {
    assert s.tree.VirtualShape(m);
    var t := s.(tree := Filled(s.tree, m, blk, p));
    forall n, c | n in t.tree.nodes && !t.tree.Present(n) && c in t.tree.nodes[n].children
      ensures c in t.tree.nodes && t.tree.nodes[c].linked
    {
      assert n in s.tree.nodes && !s.tree.Present(n);
    }
  }

  lemma DetachedKeepsMore(s: State, dead: set<Node>)
    requires s.Shape() && Retired(s.tree)
    ensures var t := Detached(s, dead);
            SameBlocks(s, t) && (t.Shape() && SameLive(s, t) ==> SameStaff(s, t)) && Retired(t.tree)
  {
    PrunedRetired(s.tree, dead);
  }

  lemma RepairKeepsMore(s: State, t: State)
    requires s.Inv() && t == Repaired(s, s.head) && Retired(s.tree)
    ensures SameBlocks(s, t) && SameStaff(s, t) && Retired(t.tree)
  {
    ClosedAtHead(s);
    RepairedClosed(s, s.head);
  }

  lemma AdvanceKeepsMore(s: State, c: Node, t: State)
    requires CanChoose(s, c) && AdvancesTo(s, c, t) && s.Shape() && t.Shape() && Retired(s.tree)
    ensures SameBlocks(s, t) && SameStaff(s, t) && Retired(t.tree)
  {
    hide State.Inv, AdvancesTo, Retired, SameBlocks, SameStaff, Shrinks;
    AdvanceRetired(s, c, t);
    AdvancesEffect(s, c, t);
    ShrinksKeepsMore(s, t);
  }

  lemma ShrinksKeepsMore(s: State, t: State)
    requires s.Shape() && t.Shape() && Shrinks(s.tree, t.tree) && SameLists(s.notes, t.notes)
    ensures SameBlocks(s, t) && SameStaff(s, t)
  {
    hide Tree.Shape;
  }

  // ---------------------------------------------------------------- events

  ghost predicate Extras(w: World) {
    && Retired(w.cache.tree) && Staffed(w.cache) && SaneBlocks(w.cache) && SaneIndex(w.list)
    && (w.pooling.Some? ==> w.cache.tree.Real(w.pooling.value) && w.cache.tree.nodes[w.pooling.value].linked)
  }

  /** What an accepted block brings along: a usable list of producers, and transactions that can be ordered. */
  ghost predicate Usable(w: World, e: Event) {
    e.Accept? ==>
      && e.voted != Some([])
      && e.node in w.cache.tree.nodes && w.cache.tree.Real(e.node) &&
         AllSane(w.cache.tree.nodes[e.node].block.value.txs)
  }

  lemma KeepsExtras(w: World, t: State)
    requires Extras(w) && SameBlocks(w.cache, t) && SameStaff(w.cache, t) && Retired(t.tree)
    ensures Extras(w.(cache := t))
  {
    var s := w.cache;
    assert s.tree.Live(s.tree.root);
    forall n | t.tree.Real(n) && t.tree.nodes[n].linked ensures AllSane(t.tree.nodes[n].block.value.txs) {
      assert s.tree.Real(n);
    }
  }

  lemma LinkedRetired(s: State, n: Node, voted: Option<seq<string>>)
    requires Verified(s, n) && s.tree.Real(s.head) && Retired(s.tree)
    ensures Retired(Linked(s, n, voted).tree)
  {
    var t := Linked(s, n, voted).tree;
    forall m, c | m in t.nodes && !t.Present(m) && c in t.nodes[m].children ensures c in t.nodes && t.nodes[c].linked {
      assert !s.tree.Present(m) && c in s.tree.nodes[m].children;
    }
  }

  lemma LinkedStaffed(s: State, n: Node, voted: Option<seq<string>>)
    requires Verified(s, n) && s.tree.Real(s.head) && Staffed(s) && voted != Some([])
    ensures Staffed(Linked(s, n, voted))
  {
    LinkedTree(s, n, voted);
    assert s.LinkShape(n);
    var t := Linked(s, n, voted);
    forall m | t.tree.Live(m) ensures t.notes[m].active != [] && t.notes[m].pending != [] {
      assert m != n ==> s.tree.Live(m);
    }
  }

  lemma AcceptKeepsExtras(w: World, n: Node, voted: Option<seq<string>>)
    requires Extras(w) && Verified(w.cache, n) && w.cache.tree.Real(w.cache.head)
    requires voted != Some([]) && AllSane(w.cache.tree.nodes[n].block.value.txs)
    ensures Extras(w.(cache := Linked(w.cache, n, voted), pooling := Some(n)))
  {
    LinkedRetired(w.cache, n, voted);
    LinkedStaffed(w.cache, n, voted);
    assert w.cache.tree.Hashed(n);
  }

  lemma EventKeepsExtras(w: World, e: Event, v: World)
    requires Inv(w) && Inv(v) && Extras(w) && Happens(w, e, v) && Usable(w, e)
    ensures Extras(v)
  {
    hide Retired, Staffed, SaneBlocks, SaneIndex, AllClean, Pooled, Genuine;
    match e
    case Move(step) => MoveKeepsExtras(w, step, v.cache);
    case Accept(n, voted) => AcceptKeepsExtras(w, n, voted);
    case Pool => PoolKeepsExtras(w, v);
    case Clear => ClearKeepsExtras(w, v);
  }

  lemma PoolKeepsExtras(w: World, v: World)
    requires Extras(w) && Happens(w, Pool, v)
    ensures Extras(v)
  {
    hide Retired, Staffed, SaneBlocks, SaneIndex, WithBlock;
    PoolKeepsSane(w);
  }

  lemma ClearKeepsExtras(w: World, v: World)
    requires Extras(w) && Happens(w, Clear, v)
    ensures Extras(v)
  {
    hide Retired, Staffed, SaneBlocks, SaneIndex, Cleared;
    ClearKeepsSane(w.list, w.cache.tree.HeadOf(w.cache.tree.root));
  }

  lemma PoolKeepsSane(w: World)
    requires SaneBlocks(w.cache) && SaneIndex(w.list)
    requires w.pooling.Some? && w.cache.tree.Real(w.pooling.value) && w.cache.tree.nodes[w.pooling.value].linked
    ensures SaneIndex(WithBlock(w.list, w.cache.tree.nodes[w.pooling.value].block.value))
  {
  }

  lemma ClearKeepsSane(list: BlockIndex, root: BlockHead)
    requires SaneIndex(list)
    ensures SaneIndex(Cleared(list, root))
  {
  }

  lemma MoveKeepsMore(s: State, step: Step, t: State)
    requires s.Inv() && t.Shape() && Retired(s.tree) && Does(s, step, t) && !step.Link?
    ensures SameBlocks(s, t) && SameStaff(s, t) && Retired(t.tree)
  {
    hide Retired, SameBlocks, SameStaff, SameLive, AdvancesTo;
    if step.Advance? {
      AdvanceKeepsMore(s, Branch(s, step.node), t);
    } else {
      QuietSameLive(s, step, t);
      QuietKeepsMore(s, step, t);
    }
  }

  lemma MoveKeepsExtras(w: World, step: Step, t: State)
    requires w.cache.Inv() && t.Shape() && Extras(w) && Does(w.cache, step, t) && !step.Link?
    ensures Extras(w.(cache := t))
  {
    hide Retired, Staffed, SaneBlocks, SaneIndex, SameBlocks, SameStaff, Does, State.Inv, State.Shape;
    MoveKeepsMore(w.cache, step, t);
    KeepsExtras(w, t);
  }

  /** The invariants of the cache and the index, and the further ones. */
  ghost predicate Sound(w: World) {
    Inv(w) && Extras(w)
  }

  ghost predicate AllUsable(h: History) {
    |h.worlds| == |h.events| + 1 && forall i :: 0 <= i < |h.events| ==> Usable(h.worlds[i], h.events[i])
  }

  lemma {:induction false} RunIsSound(h: History, w: World, v: World, i: nat)
    requires Leads(h, w, v) && AllUsable(h) && Sound(w) && i <= |h.events|
    ensures Sound(h.worlds[i])
  {
    hide Inv, Extras, Happens, Usable;
    if i > 0 {
      RunIsSound(h, w, v, i - 1);
      EventKeepsInv(h.worlds[i - 1], h.events[i - 1], h.worlds[i]);
      EventKeepsExtras(h.worlds[i - 1], h.events[i - 1], h.worlds[i]);
    }
  }

  /** A fresh cache above a clean chain, with an index that holds the window behind its last block. */
  lemma InitialSound(root: Node, chain: seq<Block>, pending: seq<string>, list: BlockIndex)
    requires chain != [] && chain[|chain| - 1].head.time >= 0 && Consecutive(chain) && Clean(chain) && pending != []
    requires Genuine(list) && SaneIndex(list) && Covers(list, chain, chain[|chain| - 1].head.time - FILTER_TIME)
    requires AllSane(chain[|chain| - 1].txs)
    ensures Sound(World(Initial(root, chain, pending), list, None))
  {
    InitialInv(root, chain, pending);
    var s := Initial(root, chain, pending);
    assert PathBlocks(s, root) == [] && Ancestry(s, root) == chain;
  }
}
