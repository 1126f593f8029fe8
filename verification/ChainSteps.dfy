/** The stages of adding a block to the chain: verification, linking, pooling, and then its children. */
module ChainSteps {
  import opened Options
  import opened Sequences
  import opened Blocks
  import opened BlockTree
  import opened BlockTreeLink
  import opened BlockTreeRoot
  import opened CacheRuns
  import opened AdvanceFacts
  import opened Replay
  import opened SortedTxs
  import opened ForkSwitch
  import opened ChainRuns
  import opened ChainFacts
  import opened GoInt

  const MAX_BLOCK_TIME_GAP: int := SECOND

  datatype Error =
    | Duplicate | BadBlock | Single | OutOfLimit
    | FutureBlock | OldBlock | WrongParentHash | WrongNumber | WrongTxHash | WrongReceiptHash
    | WrongWitness | DoubleTx | DelayTx | TxDup | BadTx | NotArrivedTx | ExpiredTx | ExecutionFailed

  /** The clock, and the outcome of checks and executions that are not modelled. */
  datatype Env = Env(now: int64,
                     blockOk: Block -> bool,                 // the block's own signature and size
                     receiptsOk: Block -> bool,              // the receipt Merkle root
                     txOk: Tx -> bool,                       // chain id, size and signatures of a transaction
                     noDelay: BlockHead -> bool,             // the rule that rejects delayed transactions applies
                     executes: Block -> bool,                // all transactions run and give the stated receipts
                     voted: Block -> Option<seq<string>>)    // the pending list in the state of a block

  /** VerifyBlockHead */
  function VerifyBlockHead(blk: Block, parent: Block, env: Env): (e: Option<Error>)
    ensures e.None? <==> && blk.head.time <= env.now + MAX_BLOCK_TIME_GAP && ChildOf(blk, parent)
                         && blk.head.txMerkleHash == blk.txs && env.receiptsOk(blk)
  {
    if blk.head.time > env.now + MAX_BLOCK_TIME_GAP then Some(FutureBlock)
    else if blk.head.time <= parent.head.time then Some(OldBlock)
    else if blk.head.parentHash != parent.HeadHash() then Some(WrongParentHash)
    else if blk.head.number != parent.head.number + 1 then Some(WrongNumber)
    else if blk.head.txMerkleHash != blk.txs then Some(WrongTxHash)
    else if !env.receiptsOk(blk) then Some(WrongReceiptHash)
    else None
  }

  /** VerifySelf of a transaction, with the rest of its checks in the environment. */
  predicate TxVerifies(t: Tx, env: Env) {
    t.WellTimed() && t.CheckGas() && env.txOk(t)
  }

  /** What a block must satisfy to be linked below `parent`, whose active list is `active`. */
  ghost predicate Passes(list: BlockIndex, blk: Block, parent: Block, active: seq<string>, env: Env)
    requires parent.head.time >= 0 && active != []
  {
    && VerifyBlockHead(blk, parent, env).None?
    && WitnessOf(blk.head.time, active) == blk.head.producer
    && TxsPass(list, blk, parent)
    && (forall i :: 0 < i < |blk.txs| ==>
        !(env.noDelay(blk.head) && blk.txs[i].delay > 0) && TxVerifies(blk.txs[i], env))
    && env.executes(blk)
  }

  /** What verification comes to, in numbers. */
  lemma PassesExact(list: BlockIndex, blk: Block, parent: Block, active: seq<string>, env: Env)
    requires parent.head.time >= 0 && active != []
    ensures Passes(list, blk, parent, active, env) <==>
            && blk.head.parentHash == Sha3(parent.head) && blk.head.number == parent.head.number + 1
            && parent.head.time < blk.head.time <= env.now + 1_000_000_000
            && blk.head.producer == active[blk.head.time / 3_000_000_000 % |active|]
            && blk.head.txMerkleHash == blk.txs && NoDup(blk.txs)
            && env.receiptsOk(blk) && env.executes(blk)
            && forall i :: 0 < i < |blk.txs| ==>
                 var t := blk.txs[i];
                 && !InChain(list, t, parent.HeadHash(), parent.head.time - 90_000_000_000)
                 && 0 < t.time < t.expiration && t.time <= blk.head.time
                 && (t.isDefer || (blk.head.time < t.expiration && blk.head.time - t.time <= 90_000_000_000))
                 && 100 <= t.gasRatio <= 10000 && 600_000 <= t.gasLimit <= 400_000_000
                 && !(env.noDelay(blk.head) && t.delay > 0) && env.txOk(t)
  {
    hide InChain, NoDup;
  }

  /**
   The list read from the state is never empty, and compareTx can order base transactions. Verification does not
   look at the time and the gas ratio of a base transaction, so a producer could send one that it cannot.
   */
  ghost predicate Regular(env: Env) {
    && (forall b :: env.voted(b) != Some([]))
    && (forall b :: env.executes(b) && b.txs != [] ==> Sane(b.txs[0]))
  }

  lemma VotedList(env: Env, b: Block)
    requires Regular(env)
    ensures env.voted(b) != Some([])
  {
  }

  /** The block with another base transaction. */
  function Rebased(blk: Block, base: Tx): Block
    requires blk.txs != []
  {
    var txs := blk.txs[0 := base];
    Block(blk.head.(txMerkleHash := txs), txs)
  }

  /** No check of verifyBlock but the execution looks at the base transaction. */
  lemma BaseIsUnchecked(list: BlockIndex, blk: Block, parent: Block, active: seq<string>, env: Env, base: Tx)
    requires parent.head.time >= 0 && active != [] && blk.txs != [] && base !in blk.txs
    requires Passes(list, blk, parent, active, env)
    requires var b := Rebased(blk, base);
             env.executes(b) && env.receiptsOk(b) && (env.noDelay(b.head) ==> env.noDelay(blk.head))
    ensures Passes(list, Rebased(blk, base), parent, active, env)
  {
    var b := Rebased(blk, base);
    assert forall i :: 0 < i < |b.txs| ==> b.txs[i] == blk.txs[i];
  }

  /** A cached block that waits below a live parent. */
  ghost predicate Offered(s: State, n: Node) {
    s.Chained() && Unlinked(s, n) && n != s.tree.root && s.tree.nodes[n].parent != null &&
      s.tree.Live(s.tree.nodes[n].parent)
  }

  /** The serial number that addExistingBlock gives to n. */
  ghost function SerialOf(s: State, n: Node): int
    requires Offered(s, n)
  {
    var p := s.tree.nodes[n].parent;
    if s.tree.HeadOf(p).producer != s.tree.HeadOf(n).producer ||
        Slot(s.tree.HeadOf(p).time) != Slot(s.tree.HeadOf(n).time)
    then 0
    else s.notes[p].serialNum + 1
  }

  lemma OfferedTime(s: State, n: Node)
    requires s.Chained() && s.tree.Live(n)
    ensures s.tree.HeadOf(n).time >= 0
  {
    LiveTime(s, n);
  }

  /** n is accepted exactly under this condition. */
  ghost predicate Acceptable(w: World, n: Node, env: Env)
    requires Offered(w.cache, n) && Staffed(w.cache)
  {
    var p := w.cache.tree.nodes[n].parent;
    OfferedTime(w.cache, p);
    && SerialOf(w.cache, n) < BLOCKS_PER_WITNESS
    && Passes(w.list, BlockOf(w.cache, n), BlockOf(w.cache, p), w.cache.notes[p].active, env)
  }

  // ---------------------------------------------------------------- one stage after the other

  lemma NumberHappens(w: World, n: Node)
    requires Sound(w) && w.pooling.None? && Offered(w.cache, n)
    ensures var k := SerialOf(w.cache, n); var v := w.(cache := Numbered(w.cache, n, k));
            && Happens(w, Move(Number(n, k)), v) && Usable(w, Move(Number(n, k))) && Sound(v)
            && Offered(v.cache, n) && v.cache.notes[n].serialNum == k == SerialOf(v.cache, n) && k >= 0
  {
    hide State.Leaves, State.HeadIsBest, State.IndexClosed, State.Witnesses, Pooled, AllClean, Tree.Keyed;
    var k := SerialOf(w.cache, n);
    var v := w.(cache := Numbered(w.cache, n, k));
    EventKeepsInv(w, Move(Number(n, k)), v);
    EventKeepsExtras(w, Move(Number(n, k)), v);
    assert w.cache.tree.Live(w.cache.tree.nodes[n].parent);
  }

  lemma DropHappens(w: World, n: Node)
    requires Sound(w) && w.pooling.None? && Unlinked(w.cache, n)
    ensures var v := w.(cache := Detached(w.cache, w.cache.tree.Subtree(n)));
            Happens(w, Move(Drop(n)), v) && Usable(w, Move(Drop(n))) && Sound(v)
  {
    var v := w.(cache := Detached(w.cache, w.cache.tree.Subtree(n)));
    EventKeepsInv(w, Move(Drop(n)), v);
    EventKeepsExtras(w, Move(Drop(n)), v);
  }

  lemma PassingIsSane(blk: Block, env: Env)
    requires Regular(env) && env.executes(blk) && forall i :: 0 < i < |blk.txs| ==> TxVerifies(blk.txs[i], env)
    ensures AllSane(blk.txs)
  {
    forall t | t in blk.txs ensures Sane(t) {
      var i :| 0 <= i < |blk.txs| && blk.txs[i] == t;
    }
  }

  lemma PassingCanLink(w: World, n: Node, env: Env)
    requires Sound(w) && Offered(w.cache, n) && Acceptable(w, n, env)
    requires 0 <= w.cache.notes[n].serialNum == SerialOf(w.cache, n)
    ensures CanLink(w.cache, n)
  {
    var s, p := w.cache, w.cache.tree.nodes[n].parent;
    OfferedTime(s, p);
    assert s.tree.Hashed(n) && s.tree.Hashed(p) && s.tree.Placed(n);
    assert s.LinkShape(n);
  }

  ghost function Accepted(w: World, n: Node, voted: Option<seq<string>>): World
    requires CanLink(w.cache, n)
  {
    w.(cache := Linked(w.cache, n, voted), pooling := Some(n))
  }

  lemma AcceptHappens(w: World, n: Node, env: Env, voted: Option<seq<string>>)
    requires Sound(w) && w.pooling.None? && Offered(w.cache, n) && Acceptable(w, n, env)
    requires 0 <= w.cache.notes[n].serialNum == SerialOf(w.cache, n)
    requires Regular(env) && voted != Some([])
    ensures CanLink(w.cache, n)
    ensures Happens(w, Accept(n, voted), Accepted(w, n, voted)) && Usable(w, Accept(n, voted))
    ensures Sound(Accepted(w, n, voted))
  {
    PassingCanLink(w, n, env);
    AcceptUsable(w, n, env, voted);
    hide Inv, Extras, Usable, Happens, Accepted;
    EventKeepsInv(w, Accept(n, voted), Accepted(w, n, voted));
    EventKeepsExtras(w, Accept(n, voted), Accepted(w, n, voted));
  }

  lemma AcceptUsable(w: World, n: Node, env: Env, voted: Option<seq<string>>)
    requires CanLink(w.cache, n) && w.pooling.None? && Offered(w.cache, n) && Staffed(w.cache) && Acceptable(w, n, env)
    requires Regular(env) && voted != Some([])
    ensures Happens(w, Accept(n, voted), Accepted(w, n, voted)) && Usable(w, Accept(n, voted))
  {
    PassingIsSane(BlockOf(w.cache, n), env);
  }

  lemma LinkedJustNow(s: State, n: Node, voted: Option<seq<string>>)
    requires CanLink(s, n)
    ensures JustLinked(Linked(s, n, voted), n) && n != s.tree.root
  {
    LinkedKeepsInv(s, n, voted);
    assert Linked(s, n, voted).LinkShape(n);
  }

  // ---------------------------------------------------------------- what happens while n is added

  /** The blocks that have been received but not linked. */
  ghost function Waiting(s: State): set<Node> {
    set n | n in s.tree.cached && n in s.tree.nodes && !s.tree.nodes[n].linked
  }

  /** Adding n accepts n and blocks deeper than n, and brings no new blocks. */
  ghost predicate RoutineEvent(e: Event, n: Node) {
    match e
    case Move(step) => step.Number? || step.Drop? || step.Advance? || step.Switch?
    case Accept(m, _) => m == n || Depth(m.key) > Depth(n.key)
    case Pool => true
    case Clear => false
  }

  ghost predicate Routine(h: History, n: Node) {
    forall i :: 0 <= i < |h.events| ==> RoutineEvent(h.events[i], n)
  }

  /** What a routine step leaves alone. */
  ghost predicate Settles(s: State, t: State, n: Node) {
    && Waiting(t) <= Waiting(s)
    && t.tree.nodes.Keys == s.tree.nodes.Keys
    && (forall m {:trigger t.tree.nodes[m].linked} :: m in s.tree.nodes && s.tree.nodes[m].linked ==>
        t.tree.nodes[m].linked)
    && (forall m {:trigger t.tree.nodes[m].block} :: s.tree.Real(m) ==> t.tree.nodes[m].block == s.tree.nodes[m].block)
    && (forall m {:trigger t.tree.nodes[m].linked} ::
        m in s.tree.nodes && !s.tree.nodes[m].linked && m != n && Depth(m.key) <= Depth(n.key) ==>
          !t.tree.nodes[m].linked)
  }

  lemma SettlesTwice(s: State, t: State, u: State, n: Node)
    requires Settles(s, t, n) && Settles(t, u, n)
    ensures Settles(s, u, n)
  {
  }

  lemma EventSettles(w: World, e: Event, v: World, n: Node)
    requires Happens(w, e, v) && RoutineEvent(e, n)
    ensures Settles(w.cache, v.cache, n)
  {
    hide Settles;
    match e
    case Move(step) => StepSettles(w.cache, step, v.cache, n);
    case Accept(m, voted) => LinkSettles(w.cache, m, voted, n);
    case Pool => NothingSettles(w.cache, n);
    case Clear => NothingSettles(w.cache, n);
  }

  lemma NothingSettles(s: State, n: Node)
    ensures Settles(s, s, n)
  {
  }

  lemma LinkSettles(s: State, m: Node, voted: Option<seq<string>>, n: Node)
    requires CanLink(s, m) && (m == n || Depth(m.key) > Depth(n.key))
    ensures Settles(s, Linked(s, m, voted), n)
  {
    hide State.Inv;
  }

  lemma DetachedSettles(s: State, dead: set<Node>, n: Node)
    ensures Settles(s, Detached(s, dead), n)
  {
  }

  lemma AdvanceSettles(s: State, m: Node, t: State, n: Node)
    requires CanAdvance(s, m) && AdvancesTo(s, Branch(s, m), t)
    ensures Settles(s, t, n)
  {
    hide Settles, Shrinks, AdvancesTo;
    NextChooses(s, m, Branch(s, m));
    AdvancesEffect(s, Branch(s, m), t);
    AdvancesSameNodes(s, Branch(s, m), t);
    ShrinkSettles(s, t, n);
  }

  lemma AdvancesSameNodes(s: State, c: Node, t: State)
    requires CanChoose(s, c) && AdvancesTo(s, c, t)
    ensures t.tree.nodes.Keys == s.tree.nodes.Keys
  {
    AdvancesKeepsInv(s, c, t);
    AdvancesEffect(s, c, t);
  }

  lemma StepSettles(s: State, step: Step, t: State, n: Node)
    requires Does(s, step, t) && (step.Number? || step.Drop? || step.Advance? || step.Switch?)
    ensures Settles(s, t, n)
  {
    hide Settles, State.Inv, AdvancesTo, Tree.Shape, State.Chained;
    match step
    case Advance(m) => AdvanceSettles(s, m, t, n);
    case Drop(m) => DetachedSettles(s, s.tree.Subtree(m), n);
    case _ => SameTreeSettles(s, t, n);
  }

  lemma SameTreeSettles(s: State, t: State, n: Node)
    requires t.tree == s.tree
    ensures Settles(s, t, n)
  {
  }

  lemma ShrinkSettles(s: State, t: State, n: Node)
    requires Shrinks(s.tree, t.tree) && s.tree.nodes.Keys == t.tree.nodes.Keys
    ensures Settles(s, t, n)
  {
  }

  lemma {:induction false} RunSettles(h: History, w: World, v: World, n: Node, i: nat)
    requires Leads(h, w, v) && Routine(h, n) && i <= |h.events|
    ensures Settles(w.cache, h.worlds[i].cache, n)
  {
    hide Settles, Happens;
    if i == 0 {
      NothingSettles(w.cache, n);
    } else {
      RunSettles(h, w, v, n, i - 1);
      EventSettles(h.worlds[i - 1], h.events[i - 1], h.worlds[i], n);
      SettlesTwice(w.cache, h.worlds[i - 1].cache, h.worlds[i].cache, n);
    }
  }

  // ---------------------------------------------------------------- histories of adding n

  ghost predicate Runs(h: History, w: World, v: World) {
    Leads(h, w, v) && AllUsable(h)
  }

  /** h is a history of adding n that leads from w to v. */
  ghost predicate Adds(h: History, w: World, v: World, n: Node) {
    Runs(h, w, v) && Routine(h, n)
  }

  ghost predicate Routinely(w: World, e: Event, v: World, n: Node) {
    Happens(w, e, v) && Usable(w, e) && RoutineEvent(e, n)
  }

  function One(w: World, e: Event, v: World): History {
    History([w, v], [e])
  }

  function After(a: History, b: History): History {
    History(a.worlds + (if b.worlds == [] then [] else b.worlds[1..]), a.events + b.events)
  }

  lemma NothingAdds(w: World, n: Node)
    ensures Adds(History([w], []), w, w, n)
  {
  }

  lemma OneAdds(w: World, e: Event, v: World, n: Node)
    requires Routinely(w, e, v, n)
    ensures Adds(One(w, e, v), w, v, n)
  {
  }

  lemma RunsAfter(a: History, b: History, w: World, v: World, u: World)
    requires Runs(a, w, v) && Runs(b, v, u)
    ensures Runs(After(a, b), w, u)
  {
    hide Happens, Usable;
    var c := After(a, b);
    forall i | 0 <= i < |c.events|
      ensures Happens(c.worlds[i], c.events[i], c.worlds[i + 1]) && Usable(c.worlds[i], c.events[i])
    {
      if i < |a.events| {
        assert c.worlds[i + 1] == a.worlds[i + 1];
      } else {
        var j := i - |a.events|;
        assert c.events[i] == b.events[j] && c.worlds[i + 1] == b.worlds[j + 1];
        assert c.worlds[i] == b.worlds[j];
      }
    }
  }

  lemma AddsAfter(a: History, b: History, w: World, v: World, u: World, n: Node)
    requires Adds(a, w, v, n) && Adds(b, v, u, n)
    ensures Adds(After(a, b), w, u, n)
  {
    hide Happens, Usable, RoutineEvent, Runs;
    RunsAfter(a, b, w, v, u);
  }

  lemma ChildAdds(h: History, w: World, v: World, n: Node, c: Node)
    requires Adds(h, w, v, c) && Depth(c.key) > Depth(n.key)
    ensures Adds(h, w, v, n)
  {
  }

  ghost function TraceHistory(tr: Trace, list: BlockIndex, pooling: Option<Node>): History {
    History(seq(|tr.states|, i requires 0 <= i < |tr.states| => World(tr.states[i], list, pooling)),
            seq(|tr.steps|, i requires 0 <= i < |tr.steps| => Move(tr.steps[i])))
  }

  ghost predicate LinksNothing(tr: Trace) {
    forall i :: 0 <= i < |tr.steps| ==> !tr.steps[i].Link?
  }

  lemma TraceRuns(tr: Trace, s: State, t: State, list: BlockIndex, pooling: Option<Node>)
    requires Connects(tr, s, t) && LinksNothing(tr)
    ensures Runs(TraceHistory(tr, list, pooling), World(s, list, pooling), World(t, list, pooling))
  {
    hide Does;
    var h := TraceHistory(tr, list, pooling);
    forall i | 0 <= i < |h.events| ensures Happens(h.worlds[i], h.events[i], h.worlds[i + 1]) {
      assert Does(tr.states[i], tr.steps[i], tr.states[i + 1]);
    }
  }

  lemma TraceAdds(tr: Trace, s: State, t: State, list: BlockIndex, pooling: Option<Node>, n: Node)
    requires Connects(tr, s, t) && LibSteps(tr, n)
    ensures Adds(TraceHistory(tr, list, pooling), World(s, list, pooling), World(t, list, pooling), n)
  {
    hide Runs;
    TraceRuns(tr, s, t, list, pooling);
  }

  lemma {:induction false} AddsSound(h: History, w: World, v: World, n: Node)
    requires Adds(h, w, v, n) && Sound(w)
    ensures Sound(v) && Settles(w.cache, v.cache, n)
  {
    RunIsSound(h, w, v, |h.events|);
    RunSettles(h, w, v, n, |h.events|);
  }

  // ---------------------------------------------------------------- the children of n

  /** A linked node and one of its children that has not been linked: the child can be added. */
  lemma ChildOffered(w: World, n: Node, c: Node)
    requires Sound(w) && w.cache.tree.Real(n) && w.cache.tree.nodes[n].linked
    requires c in w.cache.tree.nodes[n].children && c in w.cache.tree.nodes && !w.cache.tree.nodes[c].linked
    ensures Offered(w.cache, c) && w.cache.tree.nodes[c].parent == n
  {
    var t := w.cache.tree;
    assert t.Present(n);
    assert n in t.virtuals ==> t.VirtualShape(n);
  }

  /** A leaf has only unlinked children, one level deeper. */
  lemma LeafChildren(s: State, n: Node, c: Node)
    requires s.Inv() && n in s.leaf && c in s.tree.nodes[n].children
    requires forall m :: m in s.tree.nodes ==> s.tree.nodes[m].key == m.key
    ensures c in s.tree.nodes && !s.tree.nodes[c].linked && Depth(c.key) == 1 + Depth(n.key)
  {
    assert s.tree.IsLeaf(n) && s.tree.nodes[c].parent == n;
    assert s.tree.Hashed(c) && s.tree.Placed(c);
  }

  /** n waits below a live parent and carries the serial number it will be linked with. */
  ghost predicate Serialled(s: State, n: Node) {
    Offered(s, n) && 0 <= s.notes[n].serialNum == SerialOf(s, n)
  }

  ghost predicate IsLinked(s: State, n: Node) {
    s.tree.Real(n) && s.tree.nodes[n].linked
  }

  /** The serial number of n does not matter to its verification. */
  lemma NumberedAcceptable(w: World, n: Node, k: int, env: Env)
    requires Offered(w.cache, n) && Staffed(w.cache)
    requires var v := w.(cache := Numbered(w.cache, n, k)); Offered(v.cache, n) && Staffed(v.cache)
    ensures var v := w.(cache := Numbered(w.cache, n, k)); Acceptable(v, n, env) <==> Acceptable(w, n, env)
  {
    assert w.cache.tree.Live(w.cache.tree.nodes[n].parent);
  }

  lemma SettlesLinked(s: State, t: State, n: Node, m: Node)
    requires Settles(s, t, n) && IsLinked(s, m)
    ensures IsLinked(t, m)
  {
  }

  /** What the pool relies on when the accepted block n is handed to it. */
  lemma PoolingReady(w: World, n: Node, m: Node)
    requires Standing(w, m) && w.pooling == Some(n)
    ensures Genuine(w.list) && SaneIndex(w.list) && SaneBlocks(w.cache)
    ensures Head(w.cache, m) && Head(w.cache, n) && Head(w.cache, w.cache.head)
    ensures w.cache.tree.Real(n) && BlockOf(w.cache, n).head.txMerkleHash == BlockOf(w.cache, n).txs
  {
    LinkedIsHead(w.cache, m);
    LinkedIsHead(w.cache, n);
    LinkedIsHead(w.cache, w.cache.head);
  }

  /** The world is sound, and `head` is a linked block that the pool follows. */
  ghost predicate Standing(w: World, head: Node) {
    Sound(w) && IsLinked(w.cache, head)
  }

  lemma StandingAdds(h: History, w: World, v: World, n: Node, head: Node)
    requires Adds(h, w, v, n) && Standing(w, head)
    ensures Standing(v, head)
  {
    AddsSound(h, w, v, n);
    SettlesLinked(w.cache, v.cache, n, head);
  }

  lemma NumberAdds(w: World, n: Node, env: Env, head: Node)
    requires Standing(w, head) && w.pooling.None? && Offered(w.cache, n)
    ensures n in w.cache.notes
    ensures var v := w.(cache := Numbered(w.cache, n, SerialOf(w.cache, n)));
            && Adds(One(w, Move(Number(n, SerialOf(w.cache, n))), v), w, v, n)
            && Standing(v, head) && Serialled(v.cache, n) && SerialOf(v.cache, n) == SerialOf(w.cache, n)
            && Staffed(w.cache) && Staffed(v.cache) && (Acceptable(v, n, env) <==> Acceptable(w, n, env))
  {
    hide Inv, Happens, Usable, Retired, SaneBlocks, SaneIndex;
    NumberHappens(w, n);
    var k := SerialOf(w.cache, n);
    var v := w.(cache := Numbered(w.cache, n, k));
    OneAdds(w, Move(Number(n, k)), v, n);
    NumberedAcceptable(w, n, k, env);
  }

  lemma DropAdds(w: World, n: Node, head: Node)
    requires Standing(w, head) && w.pooling.None? && Unlinked(w.cache, n)
    ensures var v := w.(cache := Detached(w.cache, w.cache.tree.Subtree(n)));
            Adds(One(w, Move(Drop(n)), v), w, v, n) && Standing(v, head)
    ensures w.cache.tree.Shape() && n in w.cache.tree.cached && n != w.cache.tree.root
  {
    hide Inv, Happens, Usable, Retired, SaneBlocks, SaneIndex;
    DropHappens(w, n);
    OneAdds(w, Move(Drop(n)), w.(cache := Detached(w.cache, w.cache.tree.Subtree(n))), n);
  }

  /** The block of n has been linked and waits to be pooled. */
  ghost predicate Fresh(w: World, n: Node) {
    && Sound(w) && w.pooling == Some(n)
    && w.cache.Inv() && w.cache.Finalized() && JustLinked(w.cache, n) && n != w.cache.tree.root
  }

  lemma AcceptAdds(w: World, n: Node, env: Env, voted: Option<seq<string>>, head: Node)
    requires Standing(w, head) && w.pooling.None? && Serialled(w.cache, n) && Staffed(w.cache) && Acceptable(w, n, env)
    requires Regular(env) && voted != Some([])
    ensures CanLink(w.cache, n)
    ensures var v := Accepted(w, n, voted);
            Adds(One(w, Accept(n, voted), v), w, v, n) && Fresh(v, n) && Standing(v, head)
  {
    hide Inv, Happens, Usable, Extras, Acceptable, Adds;
    AcceptHappens(w, n, env, voted);
    var v := Accepted(w, n, voted);
    AcceptFresh(w, n, voted);
    OneAdds(w, Accept(n, voted), v, n);
    StandingAdds(One(w, Accept(n, voted), v), w, v, n, head);
  }

  lemma AcceptFresh(w: World, n: Node, voted: Option<seq<string>>)
    requires CanLink(w.cache, n) && Sound(Accepted(w, n, voted))
    ensures Fresh(Accepted(w, n, voted), n)
  {
    LinkedJustNow(w.cache, n, voted);
  }

  lemma AcceptCanLink(w: World, n: Node, env: Env, head: Node)
    requires Standing(w, head) && Serialled(w.cache, n) && Staffed(w.cache) && Acceptable(w, n, env)
    ensures CanLink(w.cache, n)
  {
    PassingCanLink(w, n, env);
  }

  lemma AcceptedWorld(w: World, n: Node, voted: Option<seq<string>>)
    requires CanLink(w.cache, n)
    ensures Accepted(w, n, voted) == World(Linked(w.cache, n, voted), w.list, Some(n))
  {
  }

  lemma FreshParts(w: World, n: Node)
    requires Fresh(w, n)
    ensures w.cache.Inv() && w.cache.Finalized() && JustLinked(w.cache, n) && n != w.cache.tree.root
  {
  }

  /** Once n has been pooled, the pool follows n or the head of the cache. */
  lemma PoolAdds(w: World, n: Node, was: Node, head: Node)
    requires Standing(w, was) && w.pooling == Some(n) && w.cache.tree.Real(n) && (head == n || head == w.cache.head)
    ensures var v := w.(list := WithBlock(w.list, BlockOf(w.cache, n)), pooling := None);
            Adds(One(w, Pool, v), w, v, n) && Standing(v, head) && IsLinked(v.cache, n)
  {
    var v := w.(list := WithBlock(w.list, BlockOf(w.cache, n)), pooling := None);
    OneAdds(w, Pool, v, n);
    AddsSound(One(w, Pool, v), w, v, n);
  }

  /** How the root moved by `climb` to `mid` once a block was linked, the world `done` then, and what came after it. */
  datatype Acceptance = Acceptance(climb: Trace, mid: State, done: World, rest: History)

  /** n is linked with the list voted on top of its block, UpdateLib follows, and then the pool indexes the block. */
  ghost predicate Accepts(w: World, n: Node, env: Env, climb: Trace, mid: State, v: World) {
    && CanLink(w.cache, n) && w.cache.tree.Real(n)
    && LibUpdated(Linked(w.cache, n, env.voted(BlockOf(w.cache, n))), n, climb, mid, v.cache)
    && v == World(v.cache, WithBlock(w.list, BlockOf(w.cache, n)), None)
  }

  lemma IsAccepted(w: World, n: Node, env: Env, climb: Trace, mid: State, h: History, v: World)
    requires Sound(w) && CanLink(w.cache, n) && w.cache.tree.Real(n)
    requires LibUpdated(Linked(w.cache, n, env.voted(BlockOf(w.cache, n))), n, climb, mid, v.cache)
    requires v.cache.tree.Real(n) && v == World(v.cache, WithBlock(w.list, BlockOf(v.cache, n)), None)
    requires Adds(h, w, v, n)
    ensures Accepts(w, n, env, climb, mid, v)
  {
    hide Sound, CanLink, LibUpdated, Adds, Linked;
    AddsSound(h, w, v, n);
  }

  /** The block the pool follows once n has been pooled is the head of the cache. */
  lemma PoolFollows(s: State, n: Node)
    requires s.Inv() && n in s.leaf
    ensures s.tree.Real(n) && s.tree.Real(s.head) && BlockOf(s, n).head.number <= BlockOf(s, s.head).head.number
  {
    assert s.tree.Live(n) && s.tree.Hashed(n);
  }

  lemma NumberedHead(s: State, n: Node, k: int)
    requires n in s.notes
    ensures Numbered(s, n, k).head == s.head
  {
  }

  lemma DetachedHead(s: State, dead: set<Node>)
    ensures Detached(s, dead).head == s.head
  {
  }

  /** The children of n in `todo` have not been touched. */
  ghost predicate Untouched(s: State, n: Node, todo: set<Node>) {
    forall c :: c in todo ==> c in s.tree.nodes && !s.tree.nodes[c].linked && Depth(c.key) == 1 + Depth(n.key)
  }

  /** A child of n has been added while the others waited. */
  lemma ChildRound(h: History, w: World, v: World, n: Node, c: Node, todo: set<Node>)
    requires Adds(h, w, v, c) && Sound(w) && IsLinked(w.cache, n) && Untouched(w.cache, n, todo) && c in todo
    ensures Adds(h, w, v, n) && IsLinked(v.cache, n) && Untouched(v.cache, n, todo - {c})
    ensures Waiting(v.cache) <= Waiting(w.cache)
  {
    hide Adds, Sound;
    AddsSound(h, w, v, c);
    ChildAdds(h, w, v, n, c);
  }

  /** n has been linked, so it waits no longer. */
  lemma LinkedWaitsNoLonger(h: History, w: World, v: World, n: Node)
    requires Adds(h, w, v, n) && Sound(w) && Offered(w.cache, n) && IsLinked(v.cache, n)
    ensures Waiting(v.cache) < Waiting(w.cache)
  {
    hide Adds, Sound;
    AddsSound(h, w, v, n);
    assert n in Waiting(w.cache) && n !in Waiting(v.cache);
  }

  lemma LimitIsNotAcceptable(w: World, n: Node, env: Env)
    requires Offered(w.cache, n) && Staffed(w.cache) && SerialOf(w.cache, n) >= BLOCKS_PER_WITNESS
    ensures !Acceptable(w, n, env)
  {
  }

  lemma SerialledIsOffered(s: State, n: Node)
    requires Serialled(s, n)
    ensures Offered(s, n) && Unlinked(s, n)
  {
  }

  lemma StandingIsSound(w: World, head: Node)
    requires Standing(w, head)
    ensures Sound(w) && Staffed(w.cache)
  {
  }

  /** What holds of the children of a new leaf n, from which the recursion starts. */
  lemma ChildrenUntouched(s: State, n: Node)
    requires s.Inv() && n in s.leaf && forall m :: m in s.tree.nodes ==> s.tree.nodes[m].key == m.key
    ensures n in s.tree.nodes && Untouched(s, n, s.tree.nodes[n].children)
  {
    assert s.tree.IsLeaf(n);
    forall c | c in s.tree.nodes[n].children
      ensures c in s.tree.nodes && !s.tree.nodes[c].linked && Depth(c.key) == 1 + Depth(n.key)
    {
      LeafChildren(s, n, c);
    }
  }

  lemma ChildIsOffered(w: World, n: Node, c: Node, todo: set<Node>, head: Node)
    requires Standing(w, head) && IsLinked(w.cache, n) && Untouched(w.cache, n, todo) && c in todo
    requires n in w.cache.tree.nodes && c in w.cache.tree.nodes[n].children
    ensures Offered(w.cache, c)
  {
    ChildOffered(w, n, c);
  }

  lemma LinkedIsNode(s: State, n: Node)
    requires IsLinked(s, n)
    ensures n in s.tree.nodes
  {
  }

  lemma UntouchedLess(s: State, n: Node, todo: set<Node>, less: set<Node>)
    requires Untouched(s, n, todo) && less <= todo
    ensures Untouched(s, n, less)
  {
  }

  lemma EventKeepsLinked(w: World, e: Event, v: World, m: Node)
    requires Sound(w) && Sound(v) && Happens(w, e, v) && IsLinked(w.cache, m)
    ensures IsLinked(v.cache, m)
  {
    hide State.Inv, State.Finalized, AllClean, Pooled, Retired, Staffed, SaneBlocks, SaneIndex, Does, IsLinked,
        SameBlocks;
    match e
    case Move(step) => MoveKeepsLinked(w, step, v, m);
    case Accept(n, voted) => AcceptKeepsLinked(w, n, voted, v, m);
    case _ =>
  }

  lemma MoveKeepsLinked(w: World, step: Step, v: World, m: Node)
    requires Sound(w) && Sound(v) && Does(w.cache, step, v.cache) && !step.Link? && IsLinked(w.cache, m)
    ensures IsLinked(v.cache, m)
  {
    hide *;
    SoundParts(w);
    SoundParts(v);
    MoveKeepsMore(w.cache, step, v.cache);
    SameBlocksLinked(w.cache, v.cache, m);
  }

  lemma AcceptKeepsLinked(w: World, n: Node, voted: Option<seq<string>>, v: World, m: Node)
    requires Does(w.cache, Link(n, voted), v.cache) && IsLinked(w.cache, m)
    ensures IsLinked(v.cache, m)
  {
    hide State.Inv, IsLinked;
    LinkKeepsLinked(w.cache, n, voted, m);
  }

  lemma SoundParts(w: World)
    requires Sound(w)
    ensures w.cache.Inv() && w.cache.Shape() && Retired(w.cache.tree)
  {
  }

  lemma SoundList(w: World)
    requires Sound(w)
    ensures Genuine(w.list)
  {
  }

  lemma LinkKeepsLinked(s: State, n: Node, voted: Option<seq<string>>, m: Node)
    requires CanLink(s, n) && IsLinked(s, m)
    ensures IsLinked(Linked(s, n, voted), m)
  {
  }

  lemma SameBlocksLinked(s: State, t: State, m: Node)
    requires SameBlocks(s, t) && IsLinked(s, m)
    ensures IsLinked(t, m)
  {
  }

  lemma {:induction false} RunKeepsLinked(h: History, w: World, v: World, m: Node, i: nat)
    requires Runs(h, w, v) && Sound(w) && IsLinked(w.cache, m) && i <= |h.events|
    ensures IsLinked(h.worlds[i].cache, m) && Sound(h.worlds[i])
  {
    hide Sound, IsLinked, Happens, Usable;
    RunIsSound(h, w, v, i);
    if i > 0 {
      RunKeepsLinked(h, w, v, m, i - 1);
      EventKeepsLinked(h.worlds[i - 1], h.events[i - 1], h.worlds[i], m);
    }
  }

  /** Every run keeps the invariants and the pool's head. */
  lemma StandingRuns(h: History, w: World, v: World, head: Node)
    requires Runs(h, w, v) && Standing(w, head)
    ensures Standing(v, head)
  {
    RunKeepsLinked(h, w, v, head, |h.events|);
  }

  lemma StandingParts(w: World, head: Node)
    requires Standing(w, head)
    ensures w.cache.Inv() && w.cache.Finalized()
  {
  }

  lemma AddsIsRuns(h: History, w: World, v: World, n: Node)
    requires Adds(h, w, v, n)
    ensures Runs(h, w, v)
  {
  }
}
