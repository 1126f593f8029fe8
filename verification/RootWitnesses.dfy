/** The producers of the irreversible blocks since the pending list last changed. */
module RootWitnesses {
  import opened Options
  import opened Sequences
  import opened Blocks
  import opened BlockTree
  import opened BlockTreeAdd
  import opened BlockTreeLink
  import opened BlockTreeRoot
  import opened NumberIndex
  import opened CacheRuns
  import opened AdvanceFacts
  import opened Finality
  import opened TreeFacts
  import opened Forks

  /** From block k of the chain on, no later block changed the elected list. */
  ghost predicate Unchanged(chain: seq<Block>, k: int, vote: Ballot, start: seq<string>, base: Hash)
    requires 0 <= k
  {
    forall j :: k < j < |chain| ==>
      Elected(vote, start, base, chain[j].HeadHash()) == Elected(vote, start, base, chain[j - 1].HeadHash())
  }

  /** Reference: who made the blocks from number `from` of the chain on, after which the list did not change. */
  ghost function Makers(chain: seq<Block>, from: nat, vote: Ballot, start: seq<string>, base: Hash): set<string> {
    set k | from <= k < |chain| && Unchanged(chain, k, vote, start, base) :: chain[k].head.producer
  }

  /** A cache that was started when the chain had `from` blocks. */
  ghost predicate Recorded(s: State, from: nat, vote: Ballot, start: seq<string>, base: Hash) {
    && from <= |s.chain| && NoDup(s.linkedRootWitness)
    && Elems(s.linkedRootWitness) == Makers(s.chain, from, vote, start, base)
  }

  lemma InitialRecorded(root: Node, chain: seq<Block>, pending: seq<string>, vote: Ballot)
    requires chain != []
    ensures Recorded(Initial(root, chain, pending), |chain|, vote, pending, chain[|chain| - 1].HeadHash())
  {
  }

  // ---------------------------------------------------------------- one more irreversible block

  lemma UnchangedNext(chain: seq<Block>, b: Block, k: int, vote: Ballot, start: seq<string>, base: Hash)
    requires chain != [] && 0 <= k < |chain|
    ensures var last := chain[|chain| - 1];
            Unchanged(chain + [b], k, vote, start, base) <==>
            Unchanged(chain, k, vote, start, base) &&
            Elected(vote, start, base, b.HeadHash()) == Elected(vote, start, base, last.HeadHash())
  {
    hide Elected;
    var longer := chain + [b];
    assert longer[|chain|] == b && longer[|chain| - 1] == chain[|chain| - 1];
    if Unchanged(longer, k, vote, start, base) {
      forall j | k < j < |chain|
        ensures Elected(vote, start, base, chain[j].HeadHash()) == Elected(vote, start, base, chain[j - 1].HeadHash())
      {
        assert longer[j] == chain[j] && longer[j - 1] == chain[j - 1];
      }
    }
  }

  lemma MakersNext(chain: seq<Block>, b: Block, from: nat, vote: Ballot, start: seq<string>, base: Hash)
    requires chain != [] && from <= |chain|
    ensures var same := Elected(vote, start, base, b.HeadHash()) ==
                        Elected(vote, start, base, chain[|chain| - 1].HeadHash());
            Makers(chain + [b], from, vote, start, base) ==
            (if same then Makers(chain, from, vote, start, base) else {}) + {b.head.producer}
  {
    hide Elected, Unchanged;
    var longer := chain + [b];
    var same := Elected(vote, start, base, b.HeadHash()) == Elected(vote, start, base, chain[|chain| - 1].HeadHash());
    var before := if same then Makers(chain, from, vote, start, base) else {};
    var now := Makers(longer, from, vote, start, base);
    LastUnchanged(longer, vote, start, base);
    forall k | 0 <= k < |chain| ensures Unchanged(longer, k, vote, start, base) <==>
                                        same && Unchanged(chain, k, vote, start, base) {
      UnchangedNext(chain, b, k, vote, start, base);
    }
    assert longer[|chain|] == b;
    forall w | w in before ensures w in now {
      var k :| from <= k < |chain| && Unchanged(chain, k, vote, start, base) && chain[k].head.producer == w;
      assert longer[k] == chain[k];
    }
    forall w | w in now ensures w in before + {b.head.producer} {
      var k :| from <= k < |longer| && Unchanged(longer, k, vote, start, base) && longer[k].head.producer == w;
      assert k < |chain| ==> longer[k] == chain[k];
    }
  }

  lemma LastUnchanged(chain: seq<Block>, vote: Ballot, start: seq<string>, base: Hash)
    requires chain != []
    ensures Unchanged(chain, |chain| - 1, vote, start, base)
  {
  }

  lemma DidAdvance(s: State, n: Node, t: State)
    requires Does(s, Advance(n), t)
    ensures CanAdvance(s, n) && s.Chained() && s.tree.Live(n) && n != s.tree.root
  {
  }

  /** The list after the root moved to c, and what it was moved from. */
  lemma AdvanceRecords(s: State, n: Node, t: State)
    requires Does(s, Advance(n), t)
    ensures var c := Branch(s, n);
            && s.Shape() && s.tree.Live(c) && s.tree.Real(c)
            && t.chain == s.chain + [s.tree.nodes[c].block.value]
            && t.linkedRootWitness == RootWitness(s, c)
  {
    AdvanceChooses(s, n);
    AdvancedInv(s, Branch(s, n));
  }

  lemma ElemsAppend(list: seq<string>, w: string)
    requires NoDup(list)
    ensures var r := if w in list then list else list + [w]; NoDup(r) && Elems(r) == Elems(list) + {w}
  {
  }

  /** updateLinkedRootWitness in terms of the elected lists. */
  lemma RootWitnessIs(s: State, c: Node, vote: Ballot, start: seq<string>, base: Hash)
    requires s.Shape() && s.Finalized() && s.tree.Live(c) && Counted(s, vote, start, base)
    requires NoDup(s.linkedRootWitness)
    ensures var b := s.tree.nodes[c].block.value;
            var same := Elected(vote, start, base, b.HeadHash()) ==
                        Elected(vote, start, base, s.chain[|s.chain| - 1].HeadHash());
            && c in s.notes && s.tree.root in s.notes && s.tree.Real(c) && NoDup(RootWitness(s, c))
            && Elems(RootWitness(s, c)) == (if same then Elems(s.linkedRootWitness) else {}) + {b.head.producer}
  {
    hide Elected;
    RootNote(s);
    assert s.tree.Hashed(c);
    ElemsAppend(s.linkedRootWitness, s.tree.HeadOf(c).producer);
    ElemsAppend([], s.tree.HeadOf(c).producer);
  }

  lemma AdvanceKeepsRecord(s: State, n: Node, t: State, from: nat, vote: Ballot, start: seq<string>, base: Hash)
    requires Does(s, Advance(n), t) && s.Finalized() && Counted(s, vote, start, base)
    requires Recorded(s, from, vote, start, base)
    ensures Recorded(t, from, vote, start, base)
  {
    hide *;
    DidAdvance(s, n, t);
    var c := Branch(s, n);
    RecordedParts(s, from, vote, start, base);
    ChainIsThere(s);
    AdvanceRecords(s, n, t);
    RootWitnessIs(s, c, vote, start, base);
    MakersNext(s.chain, s.tree.nodes[c].block.value, from, vote, start, base);
    IsRecorded(t, from, vote, start, base);
  }

  lemma ChainIsThere(s: State)
    requires s.Finalized()
    ensures s.chain != []
  {
  }

  lemma RecordedParts(s: State, from: nat, vote: Ballot, start: seq<string>, base: Hash)
    requires Recorded(s, from, vote, start, base)
    ensures from <= |s.chain| && NoDup(s.linkedRootWitness)
    ensures Elems(s.linkedRootWitness) == Makers(s.chain, from, vote, start, base)
  {
  }

  lemma IsRecorded(s: State, from: nat, vote: Ballot, start: seq<string>, base: Hash)
    requires from <= |s.chain| && NoDup(s.linkedRootWitness)
    requires Elems(s.linkedRootWitness) == Makers(s.chain, from, vote, start, base)
    ensures Recorded(s, from, vote, start, base)
  {
  }

  lemma OthersKeepRecord(s: State, step: Step, t: State)
    requires s.Inv() && Does(s, step, t) && !step.Advance?
    ensures t.chain == s.chain && t.linkedRootWitness == s.linkedRootWitness
  {
    OthersKeepChain(s, step, t);
    if step.Repair? {
      ClosedAtHead(s);
      RepairedClosed(s, s.head);
    }
  }

  lemma StepRecords(s: State, step: Step, t: State, from: nat, vote: Ballot, start: seq<string>, base: Hash)
    requires s.Inv() && s.Finalized() && Does(s, step, t) && Counted(s, vote, start, base)
    requires Recorded(s, from, vote, start, base)
    ensures Recorded(t, from, vote, start, base)
  {
    hide *;
    match step
    case Advance(n) => AdvanceKeepsRecord(s, n, t, from, vote, start, base);
    case _ =>
      OthersKeepRecord(s, step, t);
      SameRecord(s, t, from, vote, start, base);
  }

  lemma SameRecord(s: State, t: State, from: nat, vote: Ballot, start: seq<string>, base: Hash)
    requires t.chain == s.chain && t.linkedRootWitness == s.linkedRootWitness && Recorded(s, from, vote, start, base)
    ensures Recorded(t, from, vote, start, base)
  {
  }

  /** In every state of every run linkedRootWitness lists these producers, each once. */
  lemma {:induction false} RunRecords(tr: Trace, s: State, t: State, i: nat, from: nat, vote: Ballot,
                                      start: seq<string>, base: Hash)
    requires Connects(tr, s, t) && s.Inv() && s.Finalized() && ReadsAll(tr, vote) && Counted(s, vote, start, base)
    requires Recorded(s, from, vote, start, base) && i <= |tr.steps|
    ensures Recorded(tr.states[i], from, vote, start, base)
    decreases i
  {
    hide State.Inv, State.Finalized, Does, Reads, Counted, Recorded;
    if i > 0 {
      RunRecords(tr, s, t, i - 1, from, vote, start, base);
      RunIsSafe(tr, s, t, i - 1, i - 1);
      RunCounts(tr, s, t, i - 1, vote, start, base);
      assert Does(tr.states[i - 1], tr.steps[i - 1], tr.states[i]);
      StepRecords(tr.states[i - 1], tr.steps[i - 1], tr.states[i], from, vote, start, base);
    }
  }

  // ---------------------------------------------------------------- when the active list is switched

  /** A root move takes from the producers above the root at most that of the new root. */
  lemma {:induction false} ProducersKept(s: State, t: State, c: Node, n: Node)
    requires s.Chained() && t.Chained() && Shrinks(s.tree, t.tree) && t.tree.root == c && s.tree.Live(c)
    requires s.tree.nodes[c].parent == s.tree.root && s.tree.Live(n) && t.tree.Live(n)
    ensures Producers(s, n) <= Producers(t, n) + Named(s.tree.HeadOf(c).producer)
    decreases Depth(t.tree.nodes[n].key)
  {
    if n == c {
      assert s.LinkShape(c);
      assert n != s.tree.root && Producers(s, s.tree.root) == {};
    } else {
      assert t.LinkShape(n);
      var p := t.tree.nodes[n].parent;
      UnderKept(s, t, c, n);
      UnderKept(s, t, c, p);
      assert s.tree.nodes[n].parent == p;
      ProducersKept(s, t, c, p);
    }
  }

  lemma ConfirmationsAreProducers(s: State, n: Node)
    requires s.Inv() && s.tree.Live(n)
    ensures NoDup(s.notes[n].validWitness) && Elems(s.notes[n].validWitness) <= Producers(s, n)
    ensures |Elems(s.notes[n].validWitness)| == |s.notes[n].validWitness|
  {
    ValidWitnessIsProducers(s, n);
    NoDupCardinality(s.notes[n].validWitness);
  }

  /** The producers with an irreversible block since the pending list changed, or a block above the root up to n. */
  ghost function Backers(s: State, n: Node, from: nat, vote: Ballot, start: seq<string>, base: Hash): set<string>
    requires s.Chained() && s.tree.Live(n)
  {
    Makers(s.chain, from, vote, start, base) + Producers(s, n)
  }

  /** After a root move, those who confirmed it have a block from the new root on. */
  lemma MoveHasBackers(s: State, n: Node, t: State, from: nat, vote: Ballot, start: seq<string>, base: Hash)
    requires Does(s, Advance(n), t) && t.Inv() && t.tree.Live(n) && from <= |s.chain|
    ensures s.Chained() && s.tree.Live(n) && n in s.notes
    ensures Elems(s.notes[n].validWitness) <= Backers(t, n, from, vote, start, base)
  {
    hide *;
    DidAdvance(s, n, t);
    var c := Branch(s, n);
    MoveKeeps(s, n, t);
    InvChained(s);
    InvChained(t);
    ProducersKept(s, t, c, n);
    ConfirmationsAreProducers(s, n);
    LastIsMaker(t.chain, from, vote, start, base);
    NamedOnly(s.tree.HeadOf(c).producer);
    BackersAre(t, n, from, vote, start, base);
  }

  lemma MoveKeeps(s: State, n: Node, t: State)
    requires Does(s, Advance(n), t)
    ensures s.Inv() && s.Chained() && s.tree.Live(n) && n != s.tree.root && n in s.notes
    ensures var c := Branch(s, n);
            && Shrinks(s.tree, t.tree) && t.tree.root == c && s.tree.Live(c) && s.tree.Real(c)
            && s.tree.nodes[c].parent == s.tree.root && t.chain == s.chain + [s.tree.nodes[c].block.value]
            && s.tree.HeadOf(c).producer == t.chain[|t.chain| - 1].head.producer
  {
    DidAdvance(s, n, t);
    AdvanceChooses(s, n);
    AdvancesEffect(s, Branch(s, n), t);
  }

  lemma InvChained(s: State)
    requires s.Inv()
    ensures s.Chained()
  {
  }

  lemma NamedOnly(w: string)
    ensures Named(w) <= {w}
  {
  }

  lemma BackersAre(s: State, n: Node, from: nat, vote: Ballot, start: seq<string>, base: Hash)
    requires s.Chained() && s.tree.Live(n)
    ensures Backers(s, n, from, vote, start, base) == Makers(s.chain, from, vote, start, base) + Producers(s, n)
  {
  }

  lemma LastIsMaker(chain: seq<Block>, from: nat, vote: Ballot, start: seq<string>, base: Hash)
    requires from < |chain|
    ensures chain[|chain| - 1].head.producer in Makers(chain, from, vote, start, base)
  {
    LastUnchanged(chain, vote, start, base);
  }

  /**
   The active list of n is switched only if at least two thirds of the producers back the new one, each with a block
   since the pending list changed. The root has moved by `climb` before.
   */
  lemma SwitchHasBackers(climb: Trace, s: State, t: State, n: Node, from: nat, vote: Ballot, start: seq<string>,
                         base: Hash)
    requires Connects(climb, s, t) && OnlyAdvances(climb, n) && s.Inv() && s.Finalized() && s.tree.Live(n)
    requires t.tree.Live(n) && n in s.notes && n in t.notes && t.tree.root in t.notes && SwitchDue(s, t, n)
    requires |s.notes[n].validWitness| < ConfirmLimit(s.witnessNum) ==> t == s
    requires ReadsAll(climb, vote) && Counted(s, vote, start, base) && Recorded(s, from, vote, start, base)
    ensures t.Inv() && t.witnessNum == s.witnessNum
    ensures |Backers(t, n, from, vote, start, base)| >= ConfirmLimit(t.witnessNum)
  {
    hide State.Inv, State.Finalized, Does, Counted, Recorded, Makers, Producers, Reads, Connects, OnlyAdvances;
    ConnectsParts(climb, s, t);
    var k := |climb.steps|;
    RunIsSafe(climb, s, t, k, k);
    RunCounts(climb, s, t, k, vote, start, base);
    var backers := Backers(t, n, from, vote, start, base);
    if |s.notes[n].validWitness| < ConfirmLimit(s.witnessNum) {
      ConfirmationsAreProducers(s, n);
      RecordedParts(s, from, vote, start, base);
      NoDupCardinality(s.linkedRootWitness);
      UnlistedCounts(s.notes[n].validWitness, s.linkedRootWitness);
      Included(Elems(s.notes[n].validWitness) + Elems(s.linkedRootWitness), backers);
    } else if k == 0 {
      ConfirmationsAreProducers(s, n);
      Included(Elems(s.notes[n].validWitness), backers);
    } else {
      var u := climb.states[k - 1];
      LastStep(climb, s, t, n);
      RunIsSafe(climb, s, t, k - 1, k - 1);
      RunCounts(climb, s, t, k - 1, vote, start, base);
      RunRecords(climb, s, t, k - 1, from, vote, start, base);
      RecordedParts(u, from, vote, start, base);
      DidAdvance(u, n, t);
      MoveHasBackers(u, n, t, from, vote, start, base);
      ConfirmationsAreProducers(u, n);
      EnoughConfirmed(u, n);
      Included(Elems(u.notes[n].validWitness), backers);
    }
  }

  /**
   The switch is due exactly if the lists differ, some block confirms n, and those who confirm n together with those
   who made irreversible blocks since the pending list changed are enough.
   */
  lemma SwitchDueExact(s: State, t: State, n: Node, from: nat, vote: Ballot, start: seq<string>, base: Hash)
    requires s.Witnesses() && s.tree.Live(n) && s.witnessNum >= 0 && Recorded(s, from, vote, start, base)
    requires n in s.notes && n in t.notes && t.tree.root in t.notes
    ensures SwitchDue(s, t, n) <==>
            && t.notes[n].active != t.notes[t.tree.root].pending && s.notes[n].validWitness != []
            && 3 * |Elems(s.notes[n].validWitness) + Makers(s.chain, from, vote, start, base)| > 2 * s.witnessNum
  {
    hide Recorded, Makers, State.Witnesses, ConfirmLimit;
    var confirmed, made := s.notes[n].validWitness, s.linkedRootWitness;
    RecordedParts(s, from, vote, start, base);
    ConfirmedOnce(s, n);
    NoDupCardinality(made);
    NoDupCardinality(confirmed);
    UnlistedCounts(confirmed, made);
    Included(Elems(confirmed), Elems(confirmed) + Elems(made));
    ConfirmLimitExact(s.witnessNum, |Elems(confirmed) + Elems(made)|);
    ConfirmLimitExact(s.witnessNum, 0);
  }

  lemma ConfirmedOnce(s: State, n: Node)
    requires s.Witnesses() && s.tree.Live(n) && n in s.notes
    ensures NoDup(s.notes[n].validWitness)
  {
  }

  lemma ConnectsParts(tr: Trace, s: State, t: State)
    requires Connects(tr, s, t)
    ensures |tr.states| == |tr.steps| + 1 && tr.states[0] == s && tr.states[|tr.steps|] == t
  {
  }

  lemma LastStep(tr: Trace, s: State, t: State, n: Node)
    requires Connects(tr, s, t) && OnlyAdvances(tr, n) && |tr.steps| > 0
    ensures Does(tr.states[|tr.steps| - 1], Advance(n), t)
  {
    assert Does(tr.states[|tr.steps| - 1], tr.steps[|tr.steps| - 1], t);
  }

  lemma EnoughConfirmed(s: State, n: Node)
    requires CanAdvance(s, n)
    ensures |s.notes[n].validWitness| >= ConfirmLimit(s.witnessNum)
  {
  }
}
