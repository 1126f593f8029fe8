/** What follows from the cache invariant: reachability, the slot quota, the fate of the head, finality on every run. */
module TreeFacts {
  import opened Options
  import opened Blocks
  import opened BlockTree
  import opened BlockTreeAdd
  import opened BlockTreeLink
  import opened BlockTreeRoot
  import opened CacheRuns
  import opened AdvanceFacts
  import opened Finality

  // ---------------------------------------------------------------- reachability

  /** A walk over children that starts at the root or at a virtual node. */
  ghost predicate Descends(t: Tree, path: seq<Node>) {
    && path != []
    && (path[0] == t.root || path[0] in t.virtuals)
    && forall i :: 0 <= i < |path| - 1 ==> path[i] in t.nodes && path[i + 1] in t.nodes[path[i]].children
  }

  /** hash2node holds only reachable nodes ... */
  lemma {:induction false} CachedIsReachable(t: Tree, n: Node) returns (path: seq<Node>)
    requires t.Shape() && n in t.cached
    ensures t.Real(n) && Descends(t, path) && path[|path| - 1] == n
    decreases Depth(t.nodes[n].key)
  {
    assert t.Hashed(n);
    if n == t.root {
      path := [n];
    } else {
      var p := t.nodes[n].parent;
      assert t.Placed(n);
      if p in t.virtuals {
        path := [p, n];
      } else {
        var above := CachedIsReachable(t, p);
        path := above + [n];
      }
    }
  }

  /** ... and every reachable node that has a block. */
  lemma {:induction false} ReachableIsCached(t: Tree, path: seq<Node>)
    requires t.Shape() && Descends(t, path)
    ensures t.Present(path[|path| - 1])
    ensures t.Real(path[|path| - 1]) ==> path[|path| - 1] in t.cached
  {
    if |path| == 1 {
      assert path[0] in t.virtuals ==> t.VirtualShape(path[0]);
    } else {
      var above := path[..|path| - 1];
      ReachableIsCached(t, above);
      assert above[|above| - 1] == path[|path| - 2];
    }
  }

  // ---------------------------------------------------------------- the slot quota

  /** Every block from a up to n other than n schedules its child by `list`. */
  ghost predicate ScheduledBy(s: State, a: Node, n: Node, list: seq<string>)
    requires s.Chained() && s.tree.Live(n)
    decreases Depth(s.tree.nodes[n].key)
  {
    n == a || (n != s.tree.root && (assert s.LinkShape(n);
                                    var p := s.tree.nodes[n].parent;
                                    s.notes[p].active == list && ScheduledBy(s, a, p, list)))
  }

  lemma SlotMonotone(x: int, y: int)
    requires 0 <= x <= y
    ensures 0 <= Slot(x) <= Slot(y)
  {
  }

  lemma {:induction false} TimeFrom(s: State, a: Node, n: Node, list: seq<string>)
    requires s.Chained() && s.tree.Live(n) && s.tree.Live(a) && ScheduledBy(s, a, n, list) && s.tree.HeadOf(a).time >= 0
    ensures 0 <= s.tree.HeadOf(a).time <= s.tree.HeadOf(n).time
    decreases Depth(s.tree.nodes[n].key)
  {
    if n != a {
      assert s.LinkShape(n);
      TimeFrom(s, a, s.tree.nodes[n].parent, list);
    }
  }

  /**
   The blocks from a, itself scheduled by the list, up to n in the same slot: one producer made them
   all, and there are at most six of them, since their numbers are consecutive.
   */
  lemma {:induction false} SlotQuota(s: State, a: Node, n: Node, list: seq<string>)
    requires s.Serials() && s.tree.Live(a) && s.tree.Live(n) && ScheduledBy(s, a, n, list)
    requires list != [] && s.tree.HeadOf(a).time >= 0 &&
             s.tree.HeadOf(a).producer == WitnessOf(s.tree.HeadOf(a).time, list)
    requires Slot(s.tree.HeadOf(a).time) == Slot(s.tree.HeadOf(n).time)
    ensures s.tree.HeadOf(n).producer == s.tree.HeadOf(a).producer
    ensures s.notes[n].serialNum == s.notes[a].serialNum + (s.tree.HeadOf(n).number - s.tree.HeadOf(a).number)
    ensures s.tree.HeadOf(n).number - s.tree.HeadOf(a).number + 1 <= 6
    decreases Depth(s.tree.nodes[n].key)
  {
    if n != a {
      assert s.LinkShape(n) && s.SerialShape(n);
      var p := s.tree.nodes[n].parent;
      TimeFrom(s, a, p, list);
      SlotMonotone(s.tree.HeadOf(a).time, s.tree.HeadOf(p).time);
      SlotMonotone(s.tree.HeadOf(p).time, s.tree.HeadOf(n).time);
      SlotQuota(s, a, p, list);
    }
  }

  /** The serial number counts from the first block that its producer made in the slot. */
  lemma SerialExact(s: State, a: Node, n: Node, list: seq<string>)
    requires s.Serials() && s.tree.Live(a) && s.tree.Live(n) && ScheduledBy(s, a, n, list) && a != s.tree.root
    requires list != [] && s.tree.HeadOf(a).time >= 0 &&
             s.tree.HeadOf(a).producer == WitnessOf(s.tree.HeadOf(a).time, list)
    requires Slot(s.tree.HeadOf(a).time) == Slot(s.tree.HeadOf(n).time)
    requires var p := s.tree.nodes[a].parent;
             && p != null && s.tree.Real(p)
             && (s.tree.HeadOf(p).producer != s.tree.HeadOf(a).producer ||
                 Slot(s.tree.HeadOf(p).time) != Slot(s.tree.HeadOf(a).time))
    ensures s.notes[n].serialNum == s.tree.HeadOf(n).number - s.tree.HeadOf(a).number
  {
    SlotQuota(s, a, n, list);
    assert s.LinkShape(a) && s.SerialShape(a);
  }

  // ---------------------------------------------------------------- who survives a move of the root

  lemma {:induction false} UnderKept(s: State, t: State, c: Node, n: Node)
    requires s.Chained() && t.Chained() && Shrinks(s.tree, t.tree) && t.tree.root == c && t.tree.Live(n)
    ensures s.tree.Live(n) && s.tree.Under(c, n)
    decreases Depth(t.tree.nodes[n].key)
  {
    if n != c {
      assert t.LinkShape(n);
      UnderKept(s, t, c, t.tree.nodes[n].parent);
    }
  }

  /** A live node stays live exactly if it descends from the new root; so does the head. */
  lemma Survivors(s: State, c: Node, t: State, n: Node)
    requires CanChoose(s, c) && AdvancesTo(s, c, t)
    ensures t.tree.Live(n) <==> s.tree.Live(n) && s.tree.Under(c, n)
    ensures t.head == s.head
  {
    AdvancesKeepsInv(s, c, t);
    AdvancesEffect(s, c, t);
    if t.tree.Live(n) {
      UnderKept(s, t, c, n);
    } else if s.tree.Live(n) && s.tree.Under(c, n) {
      SurvivorsLive(s, c, t, n);
    }
  }

  /** The head is a highest live block, and an oldest of those, unless it has been pruned and was higher. */
  lemma HeadIsHighest(s: State, n: Node)
    requires s.Inv() && s.tree.Live(n)
    ensures s.tree.Real(n) && s.tree.Real(s.head)
    ensures var a, b := s.tree.nodes[n].block.value.head, s.tree.nodes[s.head].block.value.head;
            a.number < b.number || (a.number == b.number && b.time <= a.time)
  {
    assert s.tree.Hashed(n);
  }

  // ---------------------------------------------------------------- finality on every run

  /** The root moved to the block b because a quorum of its pending producers built on b, up to n. */
  ghost predicate Confirms(s: State, n: Node, b: Block) {
    && CanAdvance(s, n)
    && var c, quorum := Branch(s, n), Elems(s.notes[n].validWitness);
    && s.tree.nodes[c].block == Some(b) && s.tree.nodes[c].parent == s.tree.root
    && quorum <= Elems(s.notes[s.tree.root].pending) && |quorum| >= ConfirmLimit(s.witnessNum)
    && forall w :: w in quorum ==> Owns(s, c, n, w)
  }

  lemma AdvanceConfirms(s: State, n: Node, t: State)
    requires Does(s, Advance(n), t)
    ensures t.chain != [] && t.chain == s.chain + [t.chain[|t.chain| - 1]] && Confirms(s, n, t.chain[|t.chain| - 1])
  {
    hide State.HeadIsBest, State.IndexClosed, State.Witnesses, State.Serials, State.Leaves, Tree.Keyed, Owns,
         ConfirmLimit, AdvancesTo, Shrinks, SameLists;
    AdvanceChooses(s, n);
    AdvancesEffect(s, Branch(s, n), t);
    AdvanceHasQuorum(s, n);
    BranchIsChild(s, Branch(s, n));
  }

  lemma BranchIsChild(s: State, c: Node)
    requires CanChoose(s, c)
    ensures s.tree.Real(c) && s.tree.nodes[c].parent == s.tree.root
  {
    hide State.HeadIsBest, State.IndexClosed, State.Witnesses, State.Serials, State.Leaves, Tree.Keyed;
    assert s.tree.Hashed(c) && s.tree.Placed(c);
  }

  lemma OthersKeepChain(s: State, step: Step, t: State)
    requires s.Inv() && Does(s, step, t) && !step.Advance?
    ensures t.chain == s.chain
  {
    match step
    case Link(n, voted) => LinkIsQuiet(s, n, voted);
    case Repair => RepairIsQuiet(s);
    case _ => AddIsQuiet(s, step, t);
  }

  /** Every block that became irreversible during a run did so at a step at which a quorum confirmed it. */
  lemma {:induction false} FinalBlockHasQuorum(tr: Trace, s: State, t: State, k: nat, j: nat) returns (i: nat)
    requires Connects(tr, s, t) && s.Inv() && s.Finalized() && j <= |tr.steps|
    requires |s.chain| <= k < |tr.states[j].chain|
    ensures i < j && tr.steps[i].Advance? && |tr.states[i].chain| == k
    ensures Confirms(tr.states[i], tr.steps[i].node, tr.states[j].chain[k])
    decreases j
  {
    hide State.Inv, State.Finalized, Confirms, Does;
    RunIsSafe(tr, s, t, j - 1, j - 1);
    var a, b := tr.states[j - 1], tr.states[j];
    assert Does(a, tr.steps[j - 1], b);
    if tr.steps[j - 1].Advance? {
      AdvanceConfirms(a, tr.steps[j - 1].node, b);
    } else {
      OthersKeepChain(a, tr.steps[j - 1], b);
    }
    if k < |a.chain| {
      i := FinalBlockHasQuorum(tr, s, t, k, j - 1);
    } else {
      i := j - 1;
    }
  }
}
