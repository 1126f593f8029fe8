/** No block that could be linked is left waiting once a block has been added. */
module ChainProgress {
  import opened Options
  import opened Blocks
  import opened BlockTree
  import opened BlockTreeAdd
  import opened BlockTreeRoot
  import opened CacheRuns
  import opened AdvanceFacts
  import opened ChainSteps
  import opened BlockCacheImpl

  /** m has a linked parent, has not been linked itself, and is not over the limit of its slot. */
  ghost predicate Waits(s: State, older m: Node) {
    Offered(s, m) && SerialOf(s, m) < BLOCKS_PER_WITNESS
  }

  ghost predicate Idle(s: State) {
    forall m :: !Waits(s, m)
  }

  /** What waits in t waited in s, below the same parent. */
  ghost predicate Steady(s: State, t: State) {
    forall m :: Waits(t, m) ==> Waits(s, m) && t.tree.nodes[m].parent == s.tree.nodes[m].parent
  }

  /** ... and n does not. */
  ghost predicate Calms(s: State, t: State, n: Node) {
    Steady(s, t) && !Waits(t, n)
  }

  /** n has been linked: only its children may wait in addition. */
  ghost predicate Opens(s: State, t: State, n: Node) {
    forall m :: Waits(t, m) ==>
      t.tree.nodes[m].parent == n || (m != n && Waits(s, m) && t.tree.nodes[m].parent == s.tree.nodes[m].parent)
  }

  /** No child of n waits, except those in todo. */
  ghost predicate ChildrenDone(s: State, n: Node, todo: set<Node>) {
    forall m :: Waits(s, m) && s.tree.nodes[m].parent == n ==> m in todo
  }

  // ---------------------------------------------------------------- steps

  /** Whoever leaves the tree or changes its lists, nobody else starts to wait. */
  lemma ShrinkIsSteady(s: State, t: State)
    requires s.Chained() && Shrinks(s.tree, t.tree)
    requires forall m :: s.tree.Live(m) ==> m in t.notes && t.notes[m].serialNum == s.notes[m].serialNum
    ensures Steady(s, t)
  {
    forall m | Waits(t, m) ensures Waits(s, m) && t.tree.nodes[m].parent == s.tree.nodes[m].parent {
      ShrinkKeepsWaiting(s, t, m);
    }
  }

  lemma ShrinkKeepsWaiting(s: State, t: State, m: Node)
    requires s.Chained() && Shrinks(s.tree, t.tree) && Waits(t, m)
    requires forall m :: s.tree.Live(m) ==> m in t.notes && t.notes[m].serialNum == s.notes[m].serialNum
    ensures Waits(s, m) && t.tree.nodes[m].parent == s.tree.nodes[m].parent
  {
    var p := t.tree.nodes[m].parent;
    assert s.tree.Live(p) && s.tree.nodes[m].parent == p;
  }

  lemma NumberIsSteady(s: State, n: Node, k: int)
    requires Offered(s, n)
    ensures Steady(s, Numbered(s, n, k))
  {
    ShrinkIsSteady(s, Numbered(s, n, k));
  }

  lemma DropCalms(s: State, n: Node)
    requires s.Inv() && Unlinked(s, n)
    ensures Calms(s, Detached(s, s.tree.Subtree(n)), n)
  {
    PrunedShrinks(s.tree, s.tree.Subtree(n));
    ShrinkIsSteady(s, Detached(s, s.tree.Subtree(n)));
    assert s.tree.Under(n, n);
  }

  lemma LinkOpens(s: State, n: Node, voted: Option<seq<string>>)
    requires CanLink(s, n)
    ensures Opens(s, Linked(s, n, voted), n)
  {
    var t := Linked(s, n, voted);
    forall m | Waits(t, m) && t.tree.nodes[m].parent != n
      ensures m != n && Waits(s, m) && t.tree.nodes[m].parent == s.tree.nodes[m].parent
    {
      LinkKeepsWaiting(s, n, voted, m);
    }
  }

  lemma LinkKeepsWaiting(s: State, n: Node, voted: Option<seq<string>>, m: Node)
    requires CanLink(s, n) && Waits(Linked(s, n, voted), m) && s.tree.nodes[m].parent != n
    ensures m != n && Waits(s, m)
  {
    var p := s.tree.nodes[m].parent;
    assert s.tree.Live(p);
  }

  lemma LibStepIsSteady(s: State, step: Step, t: State)
    requires s.Inv() && Does(s, step, t) && (step.Advance? || step.Switch?)
    ensures Steady(s, t)
  {
    if step.Advance? {
      AdvanceChooses(s, step.node);
      AdvancesEffect(s, Branch(s, step.node), t);
    }
    ShrinkIsSteady(s, t);
  }

  lemma SteadyTwice(s: State, t: State, u: State)
    requires Steady(s, t) && Steady(t, u)
    ensures Steady(s, u)
  {
    hide Waits;
  }

  lemma {:induction false} LibIsSteady(tr: Trace, s: State, t: State, n: Node, i: nat)
    requires Connects(tr, s, t) && s.Inv() && s.Finalized() && LibSteps(tr, n) && i <= |tr.steps|
    ensures Steady(s, tr.states[i])
    decreases i
  {
    hide State.Inv, State.Finalized, Does, Waits;
    if i > 0 {
      LibIsSteady(tr, s, t, n, i - 1);
      RunIsSafe(tr, s, t, i - 1, i - 1);
      LibStepIsSteady(tr.states[i - 1], tr.steps[i - 1], tr.states[i]);
      SteadyTwice(s, tr.states[i - 1], tr.states[i]);
    }
  }

  lemma LibRunIsSteady(tr: Trace, s: State, t: State, n: Node)
    requires Connects(tr, s, t) && s.Inv() && s.Finalized() && LibSteps(tr, n)
    ensures Steady(s, t)
  {
    hide State.Inv, State.Finalized, Does, Waits;
    LibIsSteady(tr, s, t, n, |tr.steps|);
  }

  lemma NothingIsSteady(s: State)
    ensures Steady(s, s)
  {
  }

  // ---------------------------------------------------------------- adding a block

  lemma OpensThen(s: State, t: State, u: State, n: Node)
    requires Opens(s, t, n) && Steady(t, u)
    ensures Opens(s, u, n)
  {
    hide Waits;
  }

  lemma LimitCalms(s: State, t: State, n: Node)
    requires Steady(s, t) && Offered(t, n) && SerialOf(t, n) >= BLOCKS_PER_WITNESS
    ensures Calms(s, t, n)
  {
    hide Offered;
  }

  lemma SteadyCalms(s: State, t: State, u: State, n: Node)
    requires Steady(s, t) && Calms(t, u, n)
    ensures Calms(s, u, n)
  {
    hide Waits;
  }

  /** Whoever waits below n is one of its children. */
  lemma ChildrenStart(s: State, n: Node)
    requires n in s.tree.nodes
    ensures ChildrenDone(s, n, s.tree.nodes[n].children)
  {
    forall m | Waits(s, m) && s.tree.nodes[m].parent == n ensures m in s.tree.nodes[n].children {
      assert s.tree.Placed(m);
    }
  }

  lemma ChildrenNext(s: State, t: State, n: Node, c: Node, todo: set<Node>)
    requires ChildrenDone(s, n, todo) && Calms(s, t, c)
    ensures ChildrenDone(t, n, todo - {c})
  {
    hide Waits;
  }

  lemma ChildrenSkip(s: State, n: Node, c: Node, todo: set<Node>)
    requires n in s.tree.nodes && c !in s.tree.nodes[n].children && ChildrenDone(s, n, todo)
    ensures ChildrenDone(s, n, todo - {c})
  {
    hide Waits;
    ChildrenStart(s, n);
  }

  lemma CalmIsSteady(s: State, t: State, u: State, n: Node)
    requires Steady(s, t) && Calms(t, u, n)
    ensures Steady(s, u)
  {
    hide Waits;
  }

  /** n was linked, and then its children were dealt with. */
  lemma LinkedCalms(s: State, t: State, u: State, n: Node)
    requires Opens(s, t, n) && Steady(t, u) && ChildrenDone(u, n, {})
    ensures Calms(s, u, n)
  {
    hide Waits;
  }

  // ---------------------------------------------------------------- receiving a block

  /** Only a node that was not cached before may wait in addition. */
  ghost predicate Brings(s: State, t: State) {
    s.tree.cached <= t.tree.cached && forall m :: Waits(t, m) ==> Waits(s, m) || m !in s.tree.cached
  }

  lemma ArrivalBrings(s: State, step: Step, t: State)
    requires s.Inv() && Does(s, step, t) && (step.NewVirtual? || step.Fill?)
    ensures Brings(s, t)
  {
    forall m | Waits(t, m) && m in s.tree.cached ensures Waits(s, m) {
      ArrivalKeepsWaiting(s, step, t, m);
    }
  }

  lemma ArrivalKeepsWaiting(s: State, step: Step, t: State, m: Node)
    requires s.Inv() && Does(s, step, t) && (step.NewVirtual? || step.Fill?) && Waits(t, m) && m in s.tree.cached
    ensures Waits(s, m)
  {
    match step
    case NewVirtual(h, v) => NewVirtualKeepsWaiting(s, h, v, m);
    case Fill(n, blk, p) => FillKeepsWaiting(s, n, blk, p, m);
  }

  lemma NewVirtualKeepsWaiting(s: State, h: Hash, v: Node, m: Node)
    requires s.Chained() && v !in s.tree.nodes && Waits(WithVirtual(s, h, v), m) && m in s.tree.cached
    ensures Waits(s, m)
  {
    assert s.tree.Placed(m);
  }

  lemma FillKeepsWaiting(s: State, n: Node, blk: Block, p: Node, m: Node)
    requires s.Chained() && CanFill(s.tree, n, blk, p) && Waits(s.(tree := Filled(s.tree, n, blk, p)), m)
    requires m in s.tree.cached
    ensures Waits(s, m)
  {
    assert s.tree.Placed(m);
  }

  lemma BringsTwice(s: State, t: State, u: State)
    requires Brings(s, t) && Brings(t, u)
    ensures Brings(s, u)
  {
    hide Waits;
  }

  lemma {:induction false} ReceptionBrings(tr: Trace, s: State, t: State, i: nat)
    requires Connects(tr, s, t) && s.Inv() && s.Finalized() && AddSteps(tr) && i <= |tr.steps|
    ensures Brings(s, tr.states[i])
    decreases i
  {
    hide State.Inv, State.Finalized, Does, Waits;
    if i > 0 {
      ReceptionBrings(tr, s, t, i - 1);
      RunIsSafe(tr, s, t, i - 1, i - 1);
      ArrivalBrings(tr.states[i - 1], tr.steps[i - 1], tr.states[i]);
      BringsTwice(s, tr.states[i - 1], tr.states[i]);
    }
  }

  /** After a block has been received in an idle cache, only it may wait. */
  ghost predicate OnlyWaits(s: State, n: Node) {
    forall m :: Waits(s, m) ==> m == n
  }

  lemma ReceivedWaits(tr: Trace, s: State, t: State, n: Node)
    requires Connects(tr, s, t) && s.Inv() && s.Finalized() && AddSteps(tr)
    requires Idle(s) && t.tree.cached <= s.tree.cached + {n}
    ensures OnlyWaits(t, n)
  {
    ReceptionBrings(tr, s, t, |tr.steps|);
    assert forall m :: Waits(t, m) ==> m in t.tree.cached;
  }

  lemma OrphanIdles(s: State, n: Node)
    requires OnlyWaits(s, n) && n in s.tree.nodes && s.tree.nodes[n].parent != null &&
             s.tree.nodes[n].parent in s.tree.nodes
    requires !s.tree.nodes[s.tree.nodes[n].parent].linked
    ensures Idle(s)
  {
  }

  lemma CalmIdles(s: State, t: State, n: Node)
    requires OnlyWaits(s, n) && Calms(s, t, n)
    ensures Idle(t)
  {
    hide Waits;
  }

  lemma InitialIdle(root: Node, chain: seq<Block>, pending: seq<string>)
    requires chain != []
    ensures Idle(Initial(root, chain, pending))
  {
  }
}
