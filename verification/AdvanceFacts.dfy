/** What the loop of updateLib relies on while the root moves under its feet. */
module AdvanceFacts {
  import opened Sequences
  import opened Blocks
  import opened BlockTree
  import opened BlockTreeAdd
  import opened BlockTreeLink
  import opened BlockTreeRoot
  import opened CacheRuns
  import opened NumberIndex

  /** The next block on the way from the root to n is n's ancestor numbered one above the root. */
  lemma {:induction false} BranchIsAncestor(s: State, n: Node)
    requires s.Chained() && s.tree.Live(n) && n != s.tree.root
    ensures s.tree.HeadOf(s.tree.root).number + 1 <= s.tree.HeadOf(n).number
    ensures Branch(s, n) == Ancestor(s, n, s.tree.HeadOf(s.tree.root).number + 1)
    decreases Depth(s.tree.nodes[n].key)
  {
    assert s.LinkShape(n);
    LiveUnderRoot(s, n);
    var p := s.tree.nodes[n].parent;
    if p != s.tree.root {
      BranchIsAncestor(s, p);
    }
  }

  lemma NewRootCached(s: State, c: Node, n: Node)
    requires CanReroot(s, c)
    ensures n in NewRoot(s, c).tree.cached <==> n in s.tree.cached && n != s.tree.root
    ensures NewRoot(s, c).tree.Live(n) <==> s.tree.Live(n) && n != s.tree.root
  {
  }

  lemma SweptCached(s: State, n: Node)
    requires s.Chained() && s.tree.Live(n)
    ensures n in Swept(s).tree.cached
  {
    OutdatedCanPrune(s);
  }

  lemma ChosenLive(s: State, c: Node, n: Node)
    requires s.Shape() && c in s.tree.nodes[s.tree.root].children && s.tree.Live(n) && s.tree.Under(c, n)
    ensures n != s.tree.root && Chosen(s, c).tree.Live(n)
  {
    assert s.tree.nodes[c].parent == s.tree.root && s.tree.nodes[s.tree.root].parent == null;
  }

  /** The live nodes above the new root stay live. */
  lemma SurvivorsLive(s: State, c: Node, t: State, n: Node)
    requires CanChoose(s, c) && AdvancesTo(s, c, t) && s.tree.Live(n) && s.tree.Under(c, n)
    ensures t.tree.Live(n)
  {
    AdvancedInv(s, c);
    AdvancesEffect(s, c, t);
    ChosenLive(s, c, n);
    NewRootCached(Chosen(s, c), c, n);
    var s2 := NewRoot(Chosen(s, c), c);
    ChosenInv(s, c);
    NewRootKeepsInv(Chosen(s, c), c);
    assert s2.tree.Live(n);
    SweptCached(s2, n);
  }

  /** The walk over parents above the new root is the walk that was there before. */
  lemma {:induction false} AncestorSurvives(s: State, t: State, n: Node, k: int)
    requires s.Chained() && t.Chained() && Shrinks(s.tree, t.tree)
    requires s.tree.Live(n) && t.tree.Live(n) && s.tree.root !in t.tree.cached
    requires s.tree.HeadOf(s.tree.root).number <= t.tree.HeadOf(t.tree.root).number <= k <= s.tree.HeadOf(n).number
    ensures t.tree.HeadOf(n).number == s.tree.HeadOf(n).number
    ensures Ancestor(t, n, k) == Ancestor(s, n, k)
    decreases Depth(s.tree.nodes[n].key)
  {
    if n != t.tree.root && s.tree.HeadOf(n).number != k {
      assert t.LinkShape(n) && s.LinkShape(n);
      AncestorSurvives(s, t, s.tree.nodes[n].parent, k);
    }
  }

  /** `list` holds the ancestors of n above the root, by number. */
  ghost predicate Listed(s: State, n: Node, list: map<int, Node>) {
    && s.Chained() && s.tree.Live(n)
    && (forall k :: k in list ==> k <= s.tree.HeadOf(n).number)
    && (forall k :: s.tree.HeadOf(s.tree.root).number < k <= s.tree.HeadOf(n).number ==>
          k in list && list[k] == Ancestor(s, n, k))
  }

  lemma ListedNext(s: State, n: Node, list: map<int, Node>)
    requires Listed(s, n, list)
    ensures n != s.tree.root <==> s.tree.HeadOf(s.tree.root).number + 1 in list
    ensures n != s.tree.root ==> list[s.tree.HeadOf(s.tree.root).number + 1] == Branch(s, n)
  {
    if n != s.tree.root {
      BranchIsAncestor(s, n);
    }
  }

  lemma AdvanceChooses(s: State, n: Node)
    requires CanAdvance(s, n)
    ensures CanChoose(s, Branch(s, n))
  {
  }

  lemma ListedAdvances(s: State, n: Node, list: map<int, Node>, t: State)
    requires CanAdvance(s, n) && Listed(s, n, list) && AdvancesTo(s, Branch(s, n), t) && t.Chained()
    ensures Listed(t, n, list)
  {
    var c := Branch(s, n);
    AdvancesEffect(s, c, t);
    SurvivorsLive(s, c, t, n);
    LiveUnderRoot(s, c);
    forall k | t.tree.HeadOf(t.tree.root).number < k <= t.tree.HeadOf(n).number
      ensures k in list && list[k] == Ancestor(t, n, k)
    {
      AncestorSurvives(s, t, n, k);
    }
  }

  /** n has no live children and has not switched its active list. */
  ghost predicate JustLinked(s: State, n: Node) {
    && s.Chained() && s.Leaves() && n in s.leaf
    && (n != s.tree.root ==> s.notes[n].active == s.notes[s.tree.nodes[n].parent].active)
  }

  lemma JustLinkedAdvances(s: State, n: Node, t: State)
    requires CanAdvance(s, n) && JustLinked(s, n) && AdvancesTo(s, Branch(s, n), t) && t.Chained() && t.Leaves()
    ensures JustLinked(t, n)
  {
    var c := Branch(s, n);
    AdvancesEffect(s, c, t);
    SurvivorsLive(s, c, t, n);
    LeafSurvives(s, t, n);
    assert n != t.tree.root ==> t.LinkShape(n);
  }

  lemma LeafSurvives(s: State, t: State, n: Node)
    requires s.Shape() && t.Shape() && Shrinks(s.tree, t.tree) && s.tree.IsLeaf(n) && t.tree.Live(n)
    requires s.tree.root !in t.tree.cached
    ensures t.tree.IsLeaf(n)
  {
    forall x | x in t.tree.nodes[n].children ensures t.tree.Live(x) ==> x in s.tree.nodes[n].children {
      assert t.tree.nodes[x].parent == n;
      assert t.tree.Live(x) ==> s.tree.nodes[x].parent == n;
    }
  }

  lemma {:induction false} AncestorParent(s: State, n: Node, k: int)
    requires s.Chained() && s.tree.Live(n)
    requires s.tree.HeadOf(s.tree.root).number < k <= s.tree.HeadOf(n).number
    ensures s.tree.Live(Ancestor(s, n, k)) && Ancestor(s, n, k) != s.tree.root
    ensures Ancestor(s, n, k - 1) == s.tree.nodes[Ancestor(s, n, k)].parent
    decreases Depth(s.tree.nodes[n].key)
  {
    assert s.LinkShape(n);
    if s.tree.HeadOf(n).number != k {
      LiveUnderRoot(s, s.tree.nodes[n].parent);
      AncestorParent(s, s.tree.nodes[n].parent, k);
    }
  }

  /** The walk of updateLib has reached m on its way from n to the root. */
  ghost predicate WalkedTo(s: State, n: Node, m: Node, list: map<int, Node>) {
    && s.Chained() && s.tree.Live(n) && s.tree.Live(m)
    && s.tree.HeadOf(s.tree.root).number <= s.tree.HeadOf(m).number <= s.tree.HeadOf(n).number
    && m == Ancestor(s, n, s.tree.HeadOf(m).number)
    && (forall k :: k in list <==> s.tree.HeadOf(m).number < k <= s.tree.HeadOf(n).number)
    && (forall k :: k in list ==> s.tree.HeadOf(s.tree.root).number < k && list[k] == Ancestor(s, n, k))
  }

  lemma WalkStarts(s: State, n: Node)
    requires s.Chained() && s.tree.Live(n)
    ensures WalkedTo(s, n, n, map[])
  {
    LiveUnderRoot(s, n);
  }

  lemma WalkStep(s: State, n: Node, m: Node, list: map<int, Node>)
    requires WalkedTo(s, n, m, list) && m != s.tree.root
    ensures s.tree.nodes[m].parent != null
    ensures WalkedTo(s, n, s.tree.nodes[m].parent, list[s.tree.HeadOf(m).number := m])
  {
    assert s.LinkShape(m);
    LiveUnderRoot(s, s.tree.nodes[m].parent);
    AncestorParent(s, n, s.tree.HeadOf(m).number);
  }

  lemma WalkEnds(s: State, n: Node, list: map<int, Node>)
    requires WalkedTo(s, n, s.tree.root, list)
    ensures Listed(s, n, list)
  {
  }

  /** What holds in every round of the loop of updateLib. */
  ghost predicate Climbing(s: State, n: Node, list: map<int, Node>) {
    s.Inv() && s.Finalized() && JustLinked(s, n) && Listed(s, n, list)
  }

  /** The root may move towards n, and c is the block it moves to. */
  ghost predicate IsNext(s: State, n: Node, c: Node) {
    CanAdvance(s, n) && c == Branch(s, n)
  }

  /** How many blocks n is above the root. */
  ghost function Height(s: State, n: Node): nat {
    if s.tree.Real(n) && s.tree.Real(s.tree.root) && s.tree.HeadOf(n).number > s.tree.HeadOf(s.tree.root).number
    then s.tree.HeadOf(n).number - s.tree.HeadOf(s.tree.root).number
    else 0
  }

  /** One round of the loop of updateLib. */
  lemma AdvanceRound(s: State, n: Node, list: map<int, Node>, c: Node, t: State)
    requires Climbing(s, n, list) && IsNext(s, n, c) && AdvancesTo(s, c, t)
    ensures Climbing(t, n, list) && Does(s, Advance(n), t)
    ensures t.witnessNum == s.witnessNum && Height(t, n) < Height(s, n)
  {
    AdvanceRoundKeeps(s, n, t);
    ListedAdvances(s, n, list, t);
    JustLinkedAdvances(s, n, t);
    RoundShrinks(s, n, list, c, t);
  }

  lemma RoundShrinks(s: State, n: Node, list: map<int, Node>, c: Node, t: State)
    requires Listed(s, n, list) && IsNext(s, n, c) && AdvancesTo(s, c, t) && Listed(t, n, list)
    requires t.tree.HeadOf(t.tree.root).number == s.tree.HeadOf(s.tree.root).number + 1
    ensures Height(t, n) < Height(s, n)
  {
    hide State.Leaves, State.HeadIsBest, State.IndexClosed, State.Witnesses, State.Serials, Tree.Keyed, Advanced;
    AdvancesEffect(s, c, t);
    ListedNext(s, n, list);
  }

  lemma AdvanceRoundKeeps(s: State, n: Node, t: State)
    requires s.Finalized() && CanAdvance(s, n) && AdvancesTo(s, Branch(s, n), t)
    ensures t.Inv() && t.Finalized() && Does(s, Advance(n), t) && t.witnessNum == s.witnessNum
    ensures t.tree.HeadOf(t.tree.root).number == s.tree.HeadOf(s.tree.root).number + 1
  {
    AdvanceChooses(s, n);
    AdvancesKeepsInv(s, Branch(s, n), t);
    AdvancesEffect(s, Branch(s, n), t);
    FinalizesChild(s, Branch(s, n), t);
    assert s.tree.nodes[Branch(s, n)].parent == s.tree.root && s.LinkShape(Branch(s, n));
  }

  ghost predicate OnlyAdvances(tr: Trace, n: Node) {
    forall i :: 0 <= i < |tr.steps| ==> tr.steps[i] == Advance(n)
  }

  /** The steps of UpdateLib. */
  ghost predicate LibSteps(tr: Trace, n: Node) {
    forall i :: 0 <= i < |tr.steps| ==> tr.steps[i] == Advance(n) || tr.steps[i] == Switch(n)
  }

  lemma AdvancesAreLibSteps(tr: Trace, n: Node)
    requires OnlyAdvances(tr, n)
    ensures LibSteps(tr, n)
  {
  }

  lemma OneMoreAdvance(tr: Trace, n: Node, s: State, t: State, u: State)
    requires Connects(tr, s, t) && OnlyAdvances(tr, n) && Does(t, Advance(n), u)
    ensures var more := Then(tr, Trace([t, u], [Advance(n)])); Connects(more, s, u) && OnlyAdvances(more, n)
  {
    ConnectsThen(tr, Trace([t, u], [Advance(n)]), s, t, u);
  }

  lemma NextChooses(s: State, n: Node, c: Node)
    requires IsNext(s, n, c)
    ensures CanChoose(s, c)
  {
    AdvanceChooses(s, n);
  }

  /** The guard of the loop of updateLib decides whether the root may move. */
  lemma GuardDecides(s: State, n: Node, list: map<int, Node>)
    requires Climbing(s, n, list)
    ensures n in s.notes && s.tree.root in s.notes && s.tree.Real(s.tree.root)
    ensures var k := s.tree.HeadOf(s.tree.root).number + 1;
            if && |s.notes[n].validWitness| >= ConfirmLimit(s.witnessNum)
               && s.notes[n].active == s.notes[s.tree.root].pending
               && k in list
            then IsNext(s, n, list[k])
            else !CanAdvance(s, n)
  {
    ListedNext(s, n, list);
  }

  lemma Unmoved(s: State, n: Node)
    ensures Connects(Trace([s], []), s, s) && OnlyAdvances(Trace([s], []), n)
  {
  }

  /** n's active list gives way to the root's pending list once enough producers have confirmed it. */
  ghost predicate SwitchDue(s: State, t: State, n: Node)
    requires n in s.notes && n in t.notes && t.tree.root in t.notes
  {
    && t.notes[n].active != t.notes[t.tree.root].pending
    && (|| |s.notes[n].validWitness| >= ConfirmLimit(s.witnessNum)
        || (&& s.notes[n].validWitness != []
            && |s.linkedRootWitness| + Unlisted(s.notes[n].validWitness, s.linkedRootWitness)
               >= ConfirmLimit(s.witnessNum)))
  }

  /** UpdateLib: the root has moved to where it is in `mid`, as far as n confirms it; then the list of n is switched. */
  ghost predicate LibUpdated(s: State, n: Node, climb: Trace, mid: State, t: State) {
    && n in s.notes && n in mid.notes && mid.tree.root in mid.notes
    && Connects(climb, s, mid) && OnlyAdvances(climb, n)
    && (if |s.notes[n].validWitness| < ConfirmLimit(s.witnessNum) then mid == s else !CanAdvance(mid, n))
    && t == if SwitchDue(s, mid, n) then Switched(mid, n) else mid
  }

  lemma IsUpdated(s: State, n: Node, climb: Trace, mid: State, t: State)
    requires n in s.notes && n in mid.notes && mid.tree.root in mid.notes
    requires Connects(climb, s, mid) && OnlyAdvances(climb, n)
    requires if |s.notes[n].validWitness| < ConfirmLimit(s.witnessNum) then mid == s else !CanAdvance(mid, n)
    requires t == if SwitchDue(s, mid, n) then Switched(mid, n) else mid
    ensures LibUpdated(s, n, climb, mid, t)
  {
  }

  lemma {:induction false} UnlistedBound(a: seq<string>, b: seq<string>)
    ensures Unlisted(a, b) <= |a|
  {
    if a != [] {
      UnlistedBound(a[1..], b);
    }
  }

  lemma OneMoreName(x: string, names: set<string>)
    ensures |{x} + names| == |names| + if x in names then 0 else 1
  {
    if x in names {
      assert {x} + names == names;
    } else {
      assert |{x} + names| == |{x}| + |names|;
    }
  }

  lemma ElemsFirst(a: seq<string>)
    requires a != []
    ensures Elems(a) == {a[0]} + Elems(a[1..])
  {
    assert a == [a[0]] + a[1..];
  }

  /** With duplicate-free lists, the count of checkUpdateActive is a count of distinct producers. */
  lemma {:induction false} UnlistedCounts(a: seq<string>, b: seq<string>)
    requires NoDup(a)
    ensures |Elems(b)| + Unlisted(a, b) == |Elems(a) + Elems(b)|
  {
    if a != [] {
      var rest := Elems(a[1..]) + Elems(b);
      UnlistedCounts(a[1..], b);
      ElemsFirst(a);
      OneMoreName(a[0], rest);
      assert Elems(a) + Elems(b) == {a[0]} + rest;
      assert a[0] !in a[1..];
    } else {
      assert Elems(a) + Elems(b) == Elems(b);
    }
  }

  lemma CanSwitchLeaf(s: State, n: Node)
    requires s.Inv() && JustLinked(s, n)
    ensures CanSwitch(s, n) && n in s.leaf
  {
  }

  lemma JustLinkedParts(s: State, n: Node)
    requires JustLinked(s, n)
    ensures s.Chained() && s.tree.Live(n) && n in s.notes && s.tree.root in s.notes
  {
    assert s.tree.IsLeaf(n);
  }

  lemma ClimbStarts(s: State, n: Node, list: map<int, Node>)
    requires s.Inv() && s.Finalized() && JustLinked(s, n) && Listed(s, n, list)
    ensures Climbing(s, n, list)
  {
  }

  lemma ClimbParts(s: State, n: Node, list: map<int, Node>)
    requires Climbing(s, n, list)
    ensures s.Inv() && s.Finalized() && JustLinked(s, n)
  {
  }

  lemma OtherListStays(s: State, n: Node)
    requires n in s.notes && s.tree.root in s.notes && s.notes[n].active != s.notes[s.tree.root].pending
    ensures !CanAdvance(s, n)
  {
  }
}
