/** Who is scheduled: every producer in office was elected by an irreversible block. */
module Incumbents {
  import opened Options
  import opened Blocks
  import opened BlockTree
  import opened BlockTreeLink
  import opened BlockTreeRoot
  import opened NumberIndex
  import opened CacheRuns
  import opened AdvanceFacts
  import opened TreeFacts
  import opened Forks

  /** The list that was elected when block k of the chain was made. */
  ghost predicate ElectedAt(chain: seq<Block>, k: int, list: seq<string>, vote: Ballot, start: seq<string>,
                            base: Hash) {
    0 <= k < |chain| && list == Elected(vote, start, base, chain[k].HeadHash())
  }

  ghost predicate Final(chain: seq<Block>, list: seq<string>, vote: Ballot, start: seq<string>, base: Hash) {
    exists k :: ElectedAt(chain, k, list, vote, start, base)
  }

  /** The active list of every live block is one that an irreversible block has elected. */
  ghost predicate InOffice(s: State, vote: Ballot, start: seq<string>, base: Hash) {
    s.Shape() && forall n :: s.tree.Live(n) ==> Final(s.chain, s.notes[n].active, vote, start, base)
  }

  lemma InitialInOffice(root: Node, chain: seq<Block>, pending: seq<string>, vote: Ballot)
    requires chain != [] && Initial(root, chain, pending).Inv()
    ensures InOffice(Initial(root, chain, pending), vote, pending, chain[|chain| - 1].HeadHash())
  {
    assert ElectedAt(chain, |chain| - 1, pending, vote, pending, chain[|chain| - 1].HeadHash());
  }

  lemma StaysFinal(chain: seq<Block>, more: seq<Block>, list: seq<string>, vote: Ballot, start: seq<string>, base: Hash)
    requires Final(chain, list, vote, start, base) && chain <= more
    ensures Final(more, list, vote, start, base)
  {
    hide Elected;
    var k :| ElectedAt(chain, k, list, vote, start, base);
    assert ElectedAt(more, k, list, vote, start, base);
  }

  /** The live blocks of t were live in s, with the same active lists, and no irreversible block is lost. */
  ghost predicate SameOffice(s: State, t: State) {
    && s.Shape() && t.Shape() && s.chain <= t.chain
    && forall n :: t.tree.Live(n) ==> s.tree.Live(n) && t.notes[n].active == s.notes[n].active
  }

  lemma StillInOffice(s: State, t: State, vote: Ballot, start: seq<string>, base: Hash)
    requires SameOffice(s, t) && InOffice(s, vote, start, base)
    ensures InOffice(t, vote, start, base)
  {
    hide Final;
    forall n | t.tree.Live(n) ensures Final(t.chain, t.notes[n].active, vote, start, base) {
      StaysFinal(s.chain, t.chain, s.notes[n].active, vote, start, base);
    }
  }

  lemma OthersKeepOffice(s: State, step: Step, t: State)
    requires s.Shape() && t.Shape() && Does(s, step, t)
    requires !step.Link? && !step.Switch? && !step.Advance? && !step.Repair?
    ensures SameOffice(s, t)
  {
    hide State.Inv, Tree.Subtree, Linked, Repaired, AdvancesTo;
  }

  lemma AdvanceKeepsOffice(s: State, n: Node, t: State)
    requires Does(s, Advance(n), t) && t.Shape()
    ensures SameOffice(s, t)
  {
    hide State.HeadIsBest, State.IndexClosed, State.Witnesses, State.Serials, State.Leaves, Tree.Keyed, ConfirmLimit,
         AdvancesTo;
    AdvanceChooses(s, n);
    AdvancesEffect(s, Branch(s, n), t);
  }

  lemma RepairKeepsOffice(s: State)
    requires s.Inv()
    ensures SameOffice(s, Repaired(s, s.head))
  {
    ClosedAtHead(s);
    RepairedClosed(s, s.head);
  }

  lemma LinkKeepsOffice(s: State, n: Node, voted: Option<seq<string>>, vote: Ballot, start: seq<string>, base: Hash)
    requires Verified(s, n) && s.tree.Real(s.head) && Linked(s, n, voted).Shape() && InOffice(s, vote, start, base)
    ensures InOffice(Linked(s, n, voted), vote, start, base)
  {
    hide WitnessOf, Tree.Beats, Extended, Final;
    var t := Linked(s, n, voted);
    assert s.LinkShape(n);
    forall m | t.tree.Live(m) ensures Final(t.chain, t.notes[m].active, vote, start, base) {
      assert m != n ==> s.tree.Live(m) && t.notes[m] == s.notes[m];
    }
  }

  /** The list that takes over is the one elected up to the root. */
  lemma SwitchKeepsOffice(s: State, n: Node, vote: Ballot, start: seq<string>, base: Hash)
    requires s.Shape() && s.Finalized() && Counted(s, vote, start, base) && InOffice(s, vote, start, base)
    requires n in s.notes && Switched(s, n).Shape()
    ensures InOffice(Switched(s, n), vote, start, base)
  {
    hide Elected;
    RootNote(s);
    var t := Switched(s, n);
    assert ElectedAt(s.chain, |s.chain| - 1, s.notes[s.tree.root].pending, vote, start, base);
    forall m | t.tree.Live(m) ensures Final(t.chain, t.notes[m].active, vote, start, base) {
      assert m != n ==> t.notes[m] == s.notes[m];
    }
  }

  lemma StepKeepsOffice(s: State, step: Step, t: State, vote: Ballot, start: seq<string>, base: Hash)
    requires s.Inv() && s.Finalized() && t.Inv() && Does(s, step, t)
    requires Counted(s, vote, start, base) && InOffice(s, vote, start, base)
    ensures InOffice(t, vote, start, base)
  {
    hide State.Finalized, Counted, InOffice, SameOffice, Linked, Switched, Repaired, AdvancesTo, Tree.Subtree;
    match step
    case Link(n, voted) => LinkKeepsOffice(s, n, voted, vote, start, base);
    case Switch(n) => SwitchKeepsOffice(s, n, vote, start, base);
    case Repair =>
      RepairKeepsOffice(s);
      StillInOffice(s, t, vote, start, base);
    case Advance(n) =>
      AdvanceKeepsOffice(s, n, t);
      StillInOffice(s, t, vote, start, base);
    case _ =>
      OthersKeepOffice(s, step, t);
      StillInOffice(s, t, vote, start, base);
  }

  lemma {:induction false} RunInOffice(tr: Trace, s: State, t: State, i: nat, vote: Ballot, start: seq<string>,
                                       base: Hash)
    requires Connects(tr, s, t) && s.Inv() && s.Finalized() && ReadsAll(tr, vote) && i <= |tr.steps|
    requires Counted(s, vote, start, base) && InOffice(s, vote, start, base)
    ensures InOffice(tr.states[i], vote, start, base)
    decreases i
  {
    hide State.Inv, State.Finalized, Does, Reads, Counted, InOffice;
    if i > 0 {
      RunInOffice(tr, s, t, i - 1, vote, start, base);
      RunIsSafe(tr, s, t, i - 1, i - 1);
      RunIsSafe(tr, s, t, i, i);
      RunCounts(tr, s, t, i - 1, vote, start, base);
      assert Does(tr.states[i - 1], tr.steps[i - 1], tr.states[i]);
      StepKeepsOffice(tr.states[i - 1], tr.steps[i - 1], tr.states[i], vote, start, base);
    }
  }

  /**
   In every state of every run, each live block above the root was made by the producer whose turn it was in a list
   that an irreversible block has elected.
   */
  lemma ScheduledByFinalVote(tr: Trace, s: State, t: State, i: nat, vote: Ballot, start: seq<string>, base: Hash,
                             n: Node) returns (list: seq<string>)
    requires Connects(tr, s, t) && s.Inv() && s.Finalized() && ReadsAll(tr, vote) && i <= |tr.steps|
    requires Counted(s, vote, start, base) && InOffice(s, vote, start, base)
    requires var u := tr.states[i]; u.tree.Live(n) && n != u.tree.root
    ensures var u := tr.states[i];
            && Final(u.chain, list, vote, start, base) && list != []
            && u.tree.Real(n) && u.tree.HeadOf(n).time >= 0
            && u.tree.HeadOf(n).producer == WitnessOf(u.tree.HeadOf(n).time, list)
  {
    hide State.Inv, State.Finalized, Does, Reads, Counted, InOffice, Connects;
    RunInOffice(tr, s, t, i, vote, start, base);
    RunIsSafe(tr, s, t, i, i);
    list := OfficeAt(tr.states[i], n, vote, start, base);
  }

  lemma OfficeAt(s: State, n: Node, vote: Ballot, start: seq<string>, base: Hash) returns (list: seq<string>)
    requires s.Inv() && InOffice(s, vote, start, base) && s.tree.Live(n) && n != s.tree.root
    ensures Final(s.chain, list, vote, start, base) && list != []
    ensures s.tree.Real(n) && s.tree.HeadOf(n).time >= 0
    ensures s.tree.HeadOf(n).producer == WitnessOf(s.tree.HeadOf(n).time, list)
  {
    hide Final;
    assert s.LinkShape(n);
    list := s.notes[s.tree.nodes[n].parent].active;
  }
}
