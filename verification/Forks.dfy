/** Two runs of the cache that make different blocks irreversible. */
module Forks {
  import opened Options
  import opened Sequences
  import opened Blocks
  import opened BlockTree
  import opened BlockTreeAdd
  import opened BlockTreeLink
  import opened BlockTreeRoot
  import opened NumberIndex
  import opened CacheRuns
  import opened AdvanceFacts
  import opened Finality
  import opened TreeFacts

  /** What the state of a vote block says about the pending list; other blocks are not asked. */
  type Ballot = BlockHead -> Option<seq<string>>

  /** The pending list of the block with hash h, if it was `start` at the block with hash `base`. */
  ghost function Elected(vote: Ballot, start: seq<string>, base: Hash, h: Hash): seq<string>
    decreases Depth(h)
  {
    if h == base || h.Raw? then start
    else if h.head.number % VOTE_INTERVAL == 0 && vote(h.head).Some? then vote(h.head).value
    else Elected(vote, start, base, h.head.parentHash)
  }

  /** The pending list of every live block is the one the ballots up to it elected. */
  ghost predicate Counted(s: State, vote: Ballot, start: seq<string>, base: Hash) {
    && s.Shape()
    && forall n :: s.tree.Live(n) ==>
         && Depth(base) <= Depth(s.tree.nodes[n].key)
         && s.notes[n].pending == Elected(vote, start, base, s.tree.nodes[n].key)
  }

  /** Executing a block is deterministic: what a link reads depends on the block alone. */
  ghost predicate Reads(step: Step, s: State, vote: Ballot) {
    step.Link? && s.tree.Real(step.node) ==> step.voted == vote(s.tree.HeadOf(step.node))
  }

  ghost predicate ReadsAll(tr: Trace, vote: Ballot) {
    |tr.states| > |tr.steps| && forall i :: 0 <= i < |tr.steps| ==> Reads(tr.steps[i], tr.states[i], vote)
  }

  lemma InitialCounted(root: Node, chain: seq<Block>, pending: seq<string>, vote: Ballot)
    requires chain != [] && Initial(root, chain, pending).Inv()
    ensures Counted(Initial(root, chain, pending), vote, pending, chain[|chain| - 1].HeadHash())
  {
  }

  // ---------------------------------------------------------------- every step counts the ballots

  /** Every live block of t was live in s with the same hash and pending list. */
  ghost predicate NoNewLive(s: State, t: State) {
    && s.Shape() && t.Shape() && t.witnessNum == s.witnessNum
    && forall n :: t.tree.Live(n) ==>
         s.tree.Live(n) && t.tree.nodes[n].key == s.tree.nodes[n].key && t.notes[n].pending == s.notes[n].pending
  }

  lemma StillCounted(s: State, t: State, vote: Ballot, start: seq<string>, base: Hash)
    requires NoNewLive(s, t) && Counted(s, vote, start, base)
    ensures Counted(t, vote, start, base) && t.witnessNum == s.witnessNum
  {
  }

  lemma OthersLinkNothing(s: State, step: Step, t: State)
    requires s.Shape() && t.Shape() && Does(s, step, t) && !step.Link? && !step.Advance? && !step.Repair?
    ensures NoNewLive(s, t)
  {
    hide State.Inv, Tree.Subtree, Linked, Repaired, AdvancesTo;
  }

  lemma AdvanceLinksNothing(s: State, n: Node, t: State)
    requires Does(s, Advance(n), t) && t.Inv()
    ensures NoNewLive(s, t)
  {
    AdvanceChooses(s, n);
    AdvancesEffect(s, Branch(s, n), t);
  }

  lemma LinkCounts(s: State, n: Node, voted: Option<seq<string>>, vote: Ballot, start: seq<string>, base: Hash)
    requires Verified(s, n) && s.tree.Real(s.head) && Linked(s, n, voted).Shape() && Counted(s, vote, start, base)
    requires voted == vote(s.tree.HeadOf(n))
    ensures Counted(Linked(s, n, voted), vote, start, base) && Linked(s, n, voted).witnessNum == s.witnessNum
  {
    hide WitnessOf, Tree.Beats, Extended;
    assert s.tree.Hashed(n) && s.tree.Placed(n);
  }

  lemma RepairCounts(s: State, vote: Ballot, start: seq<string>, base: Hash)
    requires s.Inv() && Counted(s, vote, start, base)
    ensures Counted(Repaired(s, s.head), vote, start, base) && Repaired(s, s.head).witnessNum == s.witnessNum
  {
    hide Elected;
    ClosedAtHead(s);
    RepairedClosed(s, s.head);
  }

  lemma LinkParts(s: State, n: Node, voted: Option<seq<string>>, t: State, vote: Ballot)
    requires Does(s, Link(n, voted), t) && Reads(Link(n, voted), s, vote)
    ensures Verified(s, n) && s.tree.Real(n) && voted == vote(s.tree.HeadOf(n))
    ensures t == Linked(s, n, voted)
  {
    assert s.tree.Hashed(n);
  }

  lemma StepCounts(s: State, step: Step, t: State, vote: Ballot, start: seq<string>, base: Hash)
    requires s.Inv() && t.Inv() && Does(s, step, t) && Reads(step, s, vote) && Counted(s, vote, start, base)
    ensures Counted(t, vote, start, base) && t.witnessNum == s.witnessNum
  {
    hide *;
    InvParts(s);
    InvParts(t);
    match step
    case Link(n, voted) =>
      LinkParts(s, n, voted, t, vote);
      LinkCounts(s, n, voted, vote, start, base);
    case Repair =>
      DidRepair(s, t);
      RepairCounts(s, vote, start, base);
    case Advance(n) =>
      AdvanceLinksNothing(s, n, t);
      StillCounted(s, t, vote, start, base);
    case _ =>
      OthersLinkNothing(s, step, t);
      StillCounted(s, t, vote, start, base);
  }

  lemma DidRepair(s: State, t: State)
    requires s.Shape() && s.tree.Real(s.head) && Does(s, Repair, t)
    ensures t == Repaired(s, s.head)
  {
  }

  lemma {:induction false} RunCounts(tr: Trace, s: State, t: State, i: nat, vote: Ballot, start: seq<string>,
                                     base: Hash)
    requires Connects(tr, s, t) && s.Inv() && s.Finalized() && ReadsAll(tr, vote) && Counted(s, vote, start, base)
    requires i <= |tr.steps|
    ensures Counted(tr.states[i], vote, start, base) && tr.states[i].witnessNum == s.witnessNum
    decreases i
  {
    hide State.Inv, State.Finalized, Does, Reads, Counted;
    if i > 0 {
      RunCounts(tr, s, t, i - 1, vote, start, base);
      RunIsSafe(tr, s, t, i - 1, i);
      RunIsSafe(tr, s, t, i - 1, i - 1);
      assert Does(tr.states[i - 1], tr.steps[i - 1], tr.states[i]) && Reads(tr.steps[i - 1], tr.states[i - 1], vote);
      StepCounts(tr.states[i - 1], tr.steps[i - 1], tr.states[i], vote, start, base);
    }
  }

  // ---------------------------------------------------------------- two runs

  /** When the root of a run is the block before number k of its chain, so are its hash and pending list. */
  lemma RootAt(tr: Trace, s: State, t: State, i: nat, k: nat, vote: Ballot, start: seq<string>, base: Hash)
    requires Connects(tr, s, t) && s.Inv() && s.Finalized() && ReadsAll(tr, vote) && Counted(s, vote, start, base)
    requires i <= |tr.steps| && |tr.states[i].chain| == k
    ensures 0 < k <= |t.chain| && tr.states[i].witnessNum == s.witnessNum
    ensures var u := tr.states[i];
            && u.tree.root in u.notes
            && u.notes[u.tree.root].pending == Elected(vote, start, base, t.chain[k - 1].HeadHash())
  {
    hide Does, Reads, Elected, State.Inv, State.Shape;
    RunIsSafe(tr, s, t, i, |tr.steps|);
    RunIsSafe(tr, s, t, i, i);
    RunCounts(tr, s, t, i, vote, start, base);
    InvParts(tr.states[i]);
    RootNote(tr.states[i]);
    assert tr.states[i].chain == t.chain[..k];
  }

  lemma RootNote(s: State)
    requires s.Shape() && s.Finalized()
    ensures s.tree.Live(s.tree.root) && s.tree.root in s.notes
    ensures s.tree.nodes[s.tree.root].key == s.chain[|s.chain| - 1].HeadHash()
  {
    assert s.tree.Hashed(s.tree.root);
  }

  /**
   Two runs from one state that read the same ballots, and whose irreversible chains agree up to
   number k and differ there: more than a third of the producers who were to confirm block k made
   blocks on both sides, above the one and above the other.
   */
  lemma ForkNeedsAThird(a: Trace, b: Trace, s: State, t: State, u: State, k: nat,
                        vote: Ballot, start: seq<string>, base: Hash)
    returns (i: nat, j: nat, both: set<string>)
    requires Connects(a, s, t) && Connects(b, s, u) && s.Inv() && s.Finalized()
    requires ReadsAll(a, vote) && ReadsAll(b, vote) && Counted(s, vote, start, base)
    requires |s.chain| <= k < |t.chain| && k < |u.chain| && t.chain[..k] == u.chain[..k] && t.chain[k] != u.chain[k]
    requires k > 0 && var list := Elected(vote, start, base, t.chain[k - 1].HeadHash());
             NoDup(list) && |list| == s.witnessNum
    ensures 3 * |both| > s.witnessNum && both <= Elems(Elected(vote, start, base, t.chain[k - 1].HeadHash()))
    ensures i < |a.steps| && a.steps[i].Advance? && Confirms(a.states[i], a.steps[i].node, t.chain[k])
    ensures j < |b.steps| && b.steps[j].Advance? && Confirms(b.states[j], b.steps[j].node, u.chain[k])
    ensures forall w :: w in both ==>
            OwnsAbove(a.states[i], a.steps[i].node, w) && OwnsAbove(b.states[j], b.steps[j].node, w)
  {
    hide Does, Reads, Counted, Elected, State.Inv, State.Finalized, State.Shape, Confirms;
    i := FinalBlockHasQuorum(a, s, t, k, |a.steps|);
    j := FinalBlockHasQuorum(b, s, u, k, |b.steps|);
    RootAt(a, s, t, i, k, vote, start, base);
    RootAt(b, s, u, j, k, vote, start, base);
    assert t.chain[k - 1] == t.chain[..k][k - 1] == u.chain[..k][k - 1] == u.chain[k - 1];
    ConfirmsAdvance(a.states[i], a.steps[i].node, t.chain[k]);
    ConfirmsAdvance(b.states[j], b.steps[j].node, u.chain[k]);
    both := ConflictNeedsAThird(a.states[i], a.steps[i].node, b.states[j], b.steps[j].node);
  }

  /** w made a block between the block that the root moves to and n. */
  ghost predicate OwnsAbove(s: State, n: Node, w: string) {
    CanAdvance(s, n) && Owns(s, Branch(s, n), n, w)
  }

  lemma ConfirmsAdvance(s: State, n: Node, b: Block)
    requires Confirms(s, n, b)
    ensures CanAdvance(s, n)
  {
  }
}
