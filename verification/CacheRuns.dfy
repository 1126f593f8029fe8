/** The block cache as a state machine: what every run keeps. */
module CacheRuns {
  import opened Options
  import opened Blocks
  import opened BlockTree
  import opened BlockTreeAdd
  import opened BlockTreeLink
  import opened BlockTreeRoot
  import opened NumberIndex

  datatype Step =
    | NewVirtual(hash: Hash, node: Node)
    | Fill(node: Node, blk: Block, parent: Node)
    | Drop(node: Node)
    | Number(node: Node, serialNum: int)
    | Link(node: Node, voted: Option<seq<string>>)
    | Switch(node: Node)
    | Advance(node: Node)
    | Repair

  ghost predicate Unlinked(s: State, n: Node) {
    s.Shape() && n in s.tree.cached && !s.tree.nodes[n].linked
  }

  ghost function Numbered(s: State, n: Node, k: int): State
    requires n in s.notes
  {
    s.(notes := s.notes[n := s.notes[n].(serialNum := k)])
  }

  ghost predicate Does(s: State, step: Step, t: State) {
    match step
    case NewVirtual(h, v) =>
      v !in s.tree.nodes && (forall n :: s.tree.Present(n) ==> s.tree.nodes[n].key != h) && t == WithVirtual(s, h, v)
    case Fill(m, blk, p) => CanFill(s.tree, m, blk, p) && t == s.(tree := Filled(s.tree, m, blk, p))
    case Drop(n) => Unlinked(s, n) && t == Detached(s, s.tree.Subtree(n))
    case Number(n, k) => Unlinked(s, n) && t == Numbered(s, n, k)
    case Link(n, voted) => CanLink(s, n) && t == Linked(s, n, voted)
    case Switch(n) => CanSwitch(s, n) && t == Switched(s, n)
    case Advance(n) => CanAdvance(s, n) && AdvancesTo(s, Branch(s, n), t)
    case Repair => s.Inv() && t == Repaired(s, s.head)
  }

  // ---------------------------------------------------------------- single steps

  lemma SubtreeCanPrune(s: State, n: Node)
    requires s.Chained() && Unlinked(s, n)
    ensures CanPrune(s.tree, s.tree.Subtree(n)) && KeepsLeaves(s.tree, s.tree.Subtree(n))
  {
    var t, dead := s.tree, s.tree.Subtree(n);
    forall m | m in dead ensures !t.Live(m) {
      if t.Live(m) {
        LiveAncestor(s, n, m);
      }
    }
    forall p, x | p in dead && x in t.nodes[p].children ensures x in dead {
      assert t.nodes[x].parent == p;
    }
  }

  lemma NumberedShapes(s: State, n: Node, k: int, m: Node)
    requires s.Inv() && Unlinked(s, n) && s.tree.Live(m) && m != s.tree.root
    ensures var t := Numbered(s, n, k); t.LinkShape(m) && t.WitnessShape(m) && t.SerialShape(m)
  {
    hide State.HeadIsBest, State.IndexClosed, State.Leaves, Tree.Keyed;
    assert s.LinkShape(m) && s.WitnessShape(m) && s.SerialShape(m);
  }

  lemma NumberedKeepsInv(s: State, n: Node, k: int)
    requires s.Inv() && Unlinked(s, n)
    ensures Numbered(s, n, k).Inv()
  {
    hide State.HeadIsBest, State.IndexClosed, State.Leaves, State.WitnessShape, State.SerialShape;
    var t := Numbered(s, n, k);
    SameTreeInv(s, t);
    forall m | t.tree.Live(m) && m != t.tree.root ensures t.LinkShape(m) && t.WitnessShape(m) && t.SerialShape(m) {
      NumberedShapes(s, n, k, m);
    }
  }

  /** The siblings of the new root are gone, and linkedRootWitness records its producer. */
  ghost function Chosen(s: State, c: Node): State
    requires s.Shape() && s.tree.Real(c) && c in s.notes
  {
    Detached(s, Siblings(s.tree, c)).(linkedRootWitness := RootWitness(s, c))
  }

  /** updateLinkedRoot: c becomes the root, its siblings and outdated orphans disappear. */
  ghost function Advanced(s: State, c: Node): State
    requires s.Shape() && s.tree.Real(c) && c in s.notes
  {
    var s1 := Chosen(s, c);
    if CanReroot(s1, c) && NewRoot(s1, c).tree.Shape() then Swept(NewRoot(s1, c)) else s
  }

  ghost predicate AdvancesTo(s: State, c: Node, t: State) {
    && s.Shape() && s.tree.Real(c) && c in s.notes
    && c in s.tree.nodes[s.tree.root].children
    && t == Advanced(s, c).(chain := s.chain + [s.tree.nodes[c].block.value])
  }

  ghost predicate CanChoose(s: State, c: Node) {
    s.Inv() && s.tree.Live(c) && c in s.tree.nodes[s.tree.root].children
  }

  lemma ChosenInv(s: State, c: Node)
    requires CanChoose(s, c)
    ensures Chosen(s, c).Inv() && CanReroot(Chosen(s, c), c)
  {
    DetachedSiblings(s, c);
    SameTreeInv(Detached(s, Siblings(s.tree, c)), Chosen(s, c));
    SameNotesInv(Detached(s, Siblings(s.tree, c)), Chosen(s, c));
  }

  lemma AdvancedInv(s: State, c: Node)
    requires CanChoose(s, c)
    ensures var s1 := Chosen(s, c);
            && CanReroot(s1, c) && NewRoot(s1, c).tree.Shape()
            && Advanced(s, c) == Swept(NewRoot(s1, c)) && Advanced(s, c).Inv()
  {
    ChosenInv(s, c);
    NewRootKeepsInv(Chosen(s, c), c);
    SweptKeepsInv(NewRoot(Chosen(s, c), c));
  }

  lemma AdvancesKeepsInv(s: State, c: Node, t: State)
    requires CanChoose(s, c) && AdvancesTo(s, c, t)
    ensures t.Inv()
  {
    AdvancedInv(s, c);
    SameTreeInv(Advanced(s, c), t);
    SameNotesInv(Advanced(s, c), t);
  }

  /** t has lost nodes of s and may have a new root, but every other node it holds is unchanged. */
  ghost predicate Shrinks(s: Tree, t: Tree) {
    && s.nodes.Keys <= t.nodes.Keys
    && t.cached <= s.cached
    && (forall n :: n in s.nodes ==>
          t.nodes[n].key == s.nodes[n].key && t.nodes[n].block == s.nodes[n].block &&
            t.nodes[n].linked == s.nodes[n].linked)
    && (forall n :: n in t.cached && n in s.nodes && n != t.root ==> t.nodes[n].parent == s.nodes[n].parent)
  }

  lemma PrunedShrinks(t: Tree, dead: set<Node>)
    ensures Shrinks(t, Pruned(t, dead))
  {
  }

  lemma SweptShrinks(s: State)
    requires s.tree.Shape()
    ensures Shrinks(s.tree, Swept(s).tree)
    ensures Swept(s).tree.root == s.tree.root && Swept(s).notes == s.notes && Swept(s).head == s.head
  {
    PrunedShrinks(s.tree, OutdatedNodes(s.tree));
  }

  lemma NewRootShrinks(s: State, c: Node)
    requires CanReroot(s, c)
    ensures Shrinks(s.tree, NewRoot(s, c).tree) && s.tree.root !in NewRoot(s, c).tree.cached
    ensures SameLists(s.notes, NewRoot(s, c).notes)
  {
  }

  /** The active and pending lists and the serial numbers are the same. */
  ghost predicate SameLists(a: map<Node, Note>, b: map<Node, Note>) {
    a.Keys == b.Keys && forall n :: n in a ==> b[n] == a[n].(validWitness := b[n].validWitness)
  }

  /** What a move of the root does to the nodes that survive it. */
  lemma AdvancesEffect(s: State, c: Node, t: State)
    requires CanChoose(s, c) && AdvancesTo(s, c, t)
    ensures t.tree.root == c && t.head == s.head && t.witnessNum == s.witnessNum
    ensures t.chain == s.chain + [s.tree.nodes[c].block.value]
    ensures Shrinks(s.tree, t.tree) && s.tree.root !in t.tree.cached && SameLists(s.notes, t.notes)
  {
    AdvancedInv(s, c);
    PrunedShrinks(s.tree, Siblings(s.tree, c));
    NewRootShrinks(Chosen(s, c), c);
    SweptShrinks(NewRoot(Chosen(s, c), c));
    ShrinksTwice(s.tree, Chosen(s, c).tree, NewRoot(Chosen(s, c), c).tree);
    ShrinksTwice(s.tree, NewRoot(Chosen(s, c), c).tree, t.tree);
  }

  lemma ShrinksTwice(s: Tree, t: Tree, u: Tree)
    requires Shrinks(s, t) && Shrinks(t, u) && t.cached <= t.nodes.Keys && s.cached <= s.nodes.Keys
    requires t.root == u.root || t.root !in u.cached
    ensures Shrinks(s, u)
  {
  }

  lemma FinalizesChild(s: State, c: Node, t: State)
    requires s.Chained() && s.Finalized() && s.tree.Live(c) && c in s.tree.nodes[s.tree.root].children
    requires t.tree.Shape() && t.tree.root == c && t.tree.nodes[c].block == s.tree.nodes[c].block
    requires t.chain == s.chain + [s.tree.nodes[c].block.value]
    ensures t.Finalized()
  {
    assert s.tree.nodes[c].parent == s.tree.root;
    assert s.LinkShape(c) && s.tree.Placed(c);
    assert ChildOf(s.tree.nodes[c].block.value, s.chain[|s.chain| - 1]);
  }

  lemma StepKeepsInv(s: State, step: Step, t: State)
    requires s.Inv() && Does(s, step, t)
    ensures t.Inv()
  {
    match step
    case NewVirtual(h, v) => WithVirtualKeepsInv(s, h, v);
    case Fill(m, blk, p) => FilledKeepsInv(s, m, blk, p);
    case Drop(n) =>
      SubtreeCanPrune(s, n);
      DetachedKeepsInv(s, s.tree.Subtree(n));
    case Number(n, k) => NumberedKeepsInv(s, n, k);
    case Link(n, voted) => LinkedKeepsInv(s, n, voted);
    case Switch(n) => SwitchedKeepsInv(s, n);
    case Advance(n) => AdvancesKeepsInv(s, Branch(s, n), t);
    case Repair => RepairKeepsInv(s);
  }

  /** A later cache state extends the irreversible chain, and its head is at least as high. */
  ghost predicate Extends(s: State, t: State) {
    && s.chain <= t.chain
    && s.tree.Real(s.head) && t.tree.Real(t.head)
    && s.tree.HeadOf(s.head).number <= t.tree.HeadOf(t.head).number
  }

  /** The effect of a step that does not move the root on the chain, the root and the head. */
  ghost predicate Quiet(s: State, t: State) {
    && t.chain == s.chain && t.tree.root == s.tree.root
    && (forall n :: s.tree.Real(n) ==> t.tree.Real(n) && t.tree.nodes[n].block == s.tree.nodes[n].block)
    && s.tree.Real(s.head) && t.tree.Real(t.head)
    && (t.head == s.head || t.tree.Beats(t.head, s.head))
  }

  lemma AddIsQuiet(s: State, step: Step, t: State)
    requires s.Shape() && s.tree.Real(s.head) && Does(s, step, t)
    requires step.NewVirtual? || step.Fill? || step.Drop? || step.Number? || step.Switch?
    ensures Quiet(s, t)
  {
  }

  lemma LinkIsQuiet(s: State, n: Node, voted: Option<seq<string>>)
    requires Verified(s, n) && s.tree.Real(s.head)
    ensures Quiet(s, Linked(s, n, voted))
  {
  }

  lemma RepairIsQuiet(s: State)
    requires s.Inv()
    ensures Quiet(s, Repaired(s, s.head))
  {
    ClosedAtHead(s);
    RepairedClosed(s, s.head);
  }

  lemma QuietExtends(s: State, t: State)
    requires s.Finalized() && Quiet(s, t) && t.tree.Shape()
    ensures t.Finalized() && Extends(s, t)
  {
  }

  lemma StepExtends(s: State, step: Step, t: State)
    requires s.Inv() && s.Finalized() && Does(s, step, t) && t.Inv()
    ensures t.Finalized() && Extends(s, t)
  {
    if step.Advance? {
      AdvancesEffect(s, Branch(s, step.node), t);
      FinalizesChild(s, Branch(s, step.node), t);
    } else {
      if step.Link? {
        LinkIsQuiet(s, step.node, step.voted);
      } else if step.Repair? {
        RepairIsQuiet(s);
      } else {
        AddIsQuiet(s, step, t);
      }
      QuietExtends(s, t);
    }
  }

  datatype Trace = Trace(states: seq<State>, steps: seq<Step>)

  /** The trace is a run of the cache from s to t. */
  ghost predicate Connects(tr: Trace, s: State, t: State) {
    && |tr.states| == |tr.steps| + 1
    && tr.states[0] == s && tr.states[|tr.steps|] == t
    && forall i :: 0 <= i < |tr.steps| ==> Does(tr.states[i], tr.steps[i], tr.states[i + 1])
  }

  function Then(a: Trace, b: Trace): Trace
    requires |b.states| > 0
  {
    Trace(a.states + b.states[1..], a.steps + b.steps)
  }

  lemma ConnectsThen(a: Trace, b: Trace, s: State, t: State, u: State)
    requires Connects(a, s, t) && Connects(b, t, u)
    ensures Connects(Then(a, b), s, u)
  {
    var c := Then(a, b);
    forall i | 0 <= i < |c.steps| ensures Does(c.states[i], c.steps[i], c.states[i + 1]) {
      if i < |a.steps| {
        assert c.states[i + 1] == a.states[i + 1];
      } else {
        var j := i - |a.steps|;
        assert c.steps[i] == b.steps[j] && c.states[i + 1] == b.states[j + 1];
        assert c.states[i] == b.states[j];
      }
    }
  }

  /** Every state of every run keeps the invariant, and irreversible blocks stay irreversible. */
  lemma {:induction false} RunIsSafe(tr: Trace, s: State, t: State, i: nat, j: nat)
    requires Connects(tr, s, t) && s.Inv() && s.Finalized() && i <= j <= |tr.steps|
    ensures tr.states[j].Inv() && tr.states[j].Finalized() && Extends(tr.states[i], tr.states[j])
    decreases j
  {
    if j > 0 {
      RunIsSafe(tr, s, t, if i < j then i else j - 1, j - 1);
      StepKeepsInv(tr.states[j - 1], tr.steps[j - 1], tr.states[j]);
      StepExtends(tr.states[j - 1], tr.steps[j - 1], tr.states[j]);
    }
  }
}
