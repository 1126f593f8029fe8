/** What a moving root clears away: orphans that can never be linked, and index entries below it. */
module Housekeeping {
  import opened Options
  import opened Blocks
  import opened BlockTree
  import opened BlockTreeAdd
  import opened BlockTreeDel
  import opened BlockTreeLink
  import opened BlockTreeRoot
  import opened NumberIndex
  import opened CacheRuns
  import opened AdvanceFacts

  /** No live block is numbered below the root. */
  lemma {:induction false} LiveNumber(s: State, n: Node)
    requires s.Chained() && s.tree.Live(n)
    ensures s.tree.HeadOf(n).number >= s.tree.HeadOf(s.tree.root).number
    decreases Depth(s.tree.nodes[n].key)
  {
    if n != s.tree.root {
      assert s.LinkShape(n) && s.tree.Placed(n);
      LiveNumber(s, s.tree.nodes[n].parent);
    }
  }

  // ---------------------------------------------------------------- delSingle

  /** The first block of a chain of orphans. */
  ghost predicate Top(t: Tree, older x: Node) {
    x in t.cached && t.nodes.Keys >= t.cached && t.nodes[x].parent != null && t.nodes[x].parent in t.virtuals
  }

  /** Below the top of one chain of orphans there is no other top. */
  lemma TopsApart(t: Tree, x: Node, y: Node)
    requires t.Shape() && Top(t, x) && Top(t, y) && t.Under(y, x)
    ensures x == y
  {
    if x != y {
      OutdatedApart(t, y, x);
    }
  }

  /** A chain of orphans that starts no higher than the root. */
  ghost predicate Late(t: Tree, x: Node)
    requires t.Shape()
  {
    Top(t, x) && t.Hashed(x) && t.HeadOf(x).number <= t.HeadOf(t.root).number
  }

  lemma LateIsOutdated(t: Tree, x: Node)
    requires t.Shape()
    ensures Late(t, x) <==> Outdated(t, x)
  {
    if x in t.cached {
      assert t.Hashed(x);
    }
  }

  /**
   At every tenth root number, a node is dropped exactly if the chain of orphans that it belongs to starts no higher
   than the root. At other numbers nothing is dropped.
   */
  lemma SweptExact(s: State, n: Node)
    requires s.tree.Shape() && n in s.tree.cached
    ensures s.tree.HeadOf(s.tree.root).number % 10 != 0 ==> Swept(s) == s
    ensures s.tree.HeadOf(s.tree.root).number % 10 == 0 ==>
            (n in Swept(s).tree.cached <==> forall x :: x in s.tree.cached && Late(s.tree, x) ==> !s.tree.Under(x, n))
  {
    hide Outdated, Late;
    forall x | x in s.tree.cached ensures Late(s.tree, x) <==> Outdated(s.tree, x) {
      LateIsOutdated(s.tree, x);
    }
  }

  lemma SweptTopExact(s: State, x: Node)
    requires s.tree.Shape() && Top(s.tree, x) && s.tree.HeadOf(s.tree.root).number % 10 == 0
    ensures s.tree.Real(x)
    ensures x in Swept(s).tree.cached <==> s.tree.HeadOf(x).number > s.tree.HeadOf(s.tree.root).number
  {
    hide Swept;
    SweptExact(s, x);
    assert s.tree.Hashed(x) && s.tree.Under(x, x);
    forall y | y in s.tree.cached && Late(s.tree, y) && s.tree.Under(y, x) ensures y == x {
      TopsApart(s.tree, x, y);
    }
  }

  /** A virtual node goes exactly if it had children and all of them are dropped. */
  lemma SweptVirtualExact(s: State, v: Node)
    requires s.tree.Shape() && v in s.tree.virtuals && s.tree.HeadOf(s.tree.root).number % 10 == 0
    ensures v in Swept(s).tree.virtuals <==>
            s.tree.nodes[v].children == {} || s.tree.nodes[v].children * Swept(s).tree.cached != {}
  {
    hide Swept;
    var t, kids := s.tree, s.tree.nodes[v].children;
    SweptVirtuals(s);
    forall x | x in kids ensures x in Swept(s).tree.cached <==> !Outdated(t, x) {
      assert x in t.cached && t.nodes[x].parent == v;
      SweptTopExact(s, x);
      LateIsOutdated(t, x);
    }
    if x :| x in kids && !Outdated(t, x) {
      assert x in kids * Swept(s).tree.cached;
    }
  }

  lemma SweptVirtuals(s: State)
    requires s.tree.Shape() && s.tree.HeadOf(s.tree.root).number % 10 == 0
    ensures Swept(s).tree.virtuals == s.tree.virtuals - OutdatedVirtuals(s.tree)
  {
  }

  /** A block that delSingle drops for its number could not have been linked below any live block. */
  lemma DroppedNeverLinks(s: State, x: Node, p: Node)
    requires s.Chained() && Outdated(s.tree, x) && s.tree.Live(p)
    ensures s.tree.HeadOf(x).number != s.tree.HeadOf(p).number + 1
  {
    LiveNumber(s, p);
  }

  // ---------------------------------------------------------------- the number index

  /** The number index holds nothing below the root. */
  ghost predicate Trimmed(s: State) {
    s.tree.Real(s.tree.root) && forall k :: k in s.number2node ==> k >= s.tree.HeadOf(s.tree.root).number
  }

  lemma InitialTrimmed(root: Node, chain: seq<Block>, pending: seq<string>)
    requires chain != []
    ensures Trimmed(Initial(root, chain, pending))
  {
  }

  lemma {:induction false} RepairedTrimmed(s: State, it: Node)
    requires Repairing(s, it) && Trimmed(s) && s.tree.HeadOf(it).number >= s.tree.HeadOf(s.tree.root).number
    ensures Trimmed(Repaired(s, it)) && Repaired(s, it).tree == s.tree
    decreases Depth(s.tree.nodes[it].key)
  {
    if !s.Indexed(it) {
      IndexedAtChained(s, it);
      var t := IndexedAt(s, it);
      if s.tree.Live(it) && it != s.tree.root {
        assert s.LinkShape(it) && s.tree.Placed(it);
        LiveNumber(s, s.tree.nodes[it].parent);
        RepairedTrimmed(t, s.tree.nodes[it].parent);
      } else {
        assert s.tree.nodes[it].parent == null;
      }
    }
  }

  lemma RerootIndex(s: State, c: Node)
    requires CanReroot(s, c)
    ensures s.tree.Real(s.tree.root)
    ensures NewRoot(s, c).number2node == s.number2node - {s.tree.HeadOf(s.tree.root).number}
  {
  }

  lemma AdvanceIndex(s: State, c: Node, t: State)
    requires CanChoose(s, c) && AdvancesTo(s, c, t)
    ensures s.tree.Real(s.tree.root) && t.number2node == s.number2node - {s.tree.HeadOf(s.tree.root).number}
  {
    hide State.Inv, State.Shape, CanReroot, NewRoot, Siblings, RootWitness, OutdatedNodes, OutdatedVirtuals;
    AdvancedInv(s, c);
    RerootIndex(Chosen(s, c), c);
  }

  lemma ChildNumber(s: State, c: Node)
    requires CanChoose(s, c)
    ensures s.tree.Real(c) && s.tree.Real(s.tree.root)
    ensures s.tree.HeadOf(c).number == s.tree.HeadOf(s.tree.root).number + 1
  {
    assert s.tree.nodes[c].parent == s.tree.root;
    assert s.LinkShape(c);
  }

  lemma AdvanceTrims(s: State, c: Node, t: State)
    requires CanChoose(s, c) && AdvancesTo(s, c, t) && Trimmed(s)
    ensures Trimmed(t)
  {
    hide CanChoose, AdvancesTo;
    AdvancesEffect(s, c, t);
    AdvanceIndex(s, c, t);
    ChildNumber(s, c);
  }

  lemma StepTrims(s: State, step: Step, t: State)
    requires s.Inv() && Does(s, step, t) && Trimmed(s)
    ensures Trimmed(t)
  {
    match step
    case Advance(n) =>
      AdvanceTrims(s, Branch(s, n), t);
    case Repair =>
      RepairStarts(s);
      assert s.tree.Live(s.tree.root);
      RepairedTrimmed(s, s.head);
    case Link(n, voted) =>
      LinkIsQuiet(s, n, voted);
    case _ =>
      AddIsQuiet(s, step, t);
  }

  /** In no state of a run is a number below the root indexed. */
  lemma {:induction false} RunTrimmed(tr: Trace, s: State, t: State, i: nat)
    requires Connects(tr, s, t) && s.Inv() && s.Finalized() && Trimmed(s) && i <= |tr.steps|
    ensures Trimmed(tr.states[i])
  {
    hide State.Inv, State.Finalized, Does, Trimmed;
    if i > 0 {
      RunTrimmed(tr, s, t, i - 1);
      RunIsSafe(tr, s, t, i - 1, i - 1);
      assert Does(tr.states[i - 1], tr.steps[i - 1], tr.states[i]);
      StepTrims(tr.states[i - 1], tr.steps[i - 1], tr.states[i]);
    }
  }
}
