/** Advancing the root to one of its children keeps the invariant. */
module BlockTreeRoot {
  import opened Sequences
  import opened Blocks
  import opened BlockTree
  import opened BlockTreeAdd
  import opened BlockTreeLink

  /** Every ancestor of a live node is live. */
  lemma {:induction false} LiveAncestor(s: State, a: Node, n: Node)
    requires s.Chained() && s.tree.Live(n) && s.tree.Under(a, n)
    ensures s.tree.Live(a)
    decreases Depth(s.tree.nodes[n].key)
  {
    if n != a {
      LiveParent(s, n);
      LiveAncestor(s, a, s.tree.nodes[n].parent);
    }
  }

  /** Every live node descends from the root, with numbers and times that grow on the way. */
  lemma {:induction false} LiveUnderRoot(s: State, n: Node)
    requires s.Chained() && s.tree.Live(n)
    ensures s.tree.Under(s.tree.root, n)
    ensures n != s.tree.root ==>
              && s.tree.HeadOf(n).number > s.tree.HeadOf(s.tree.root).number
              && s.tree.HeadOf(n).time > s.tree.HeadOf(s.tree.root).time
    decreases Depth(s.tree.nodes[n].key)
  {
    if n != s.tree.root {
      assert s.LinkShape(n);
      LiveUnderRoot(s, s.tree.nodes[n].parent);
    }
  }

  // ---------------------------------------------------------------- the siblings of the new root

  lemma SiblingsCanPrune(t: Tree, c: Node)
    requires t.Shape() && c in t.nodes[t.root].children
    ensures CanPrune(t, Siblings(t, c))
  {
    var dead := Siblings(t, c);
    forall p, x | p in dead && x in t.nodes[p].children ensures x in dead {
      assert x in t.cached && t.nodes[x].parent == p;
      assert t.nodes[c].parent == t.root;
    }
  }

  lemma SiblingsKeepLeaves(s: State, c: Node)
    requires s.Chained() && c in s.tree.nodes[s.tree.root].children && s.tree.Live(c)
    ensures KeepsLeaves(s.tree, Siblings(s.tree, c))
  {
    var t, dead := s.tree, Siblings(s.tree, c);
    forall p | t.Live(p) && p !in dead && !t.IsLeaf(p)
      ensures exists x :: x in t.nodes[p].children && t.Live(x) && x !in dead
    {
      if p == t.root {
        assert t.Under(c, c);
      } else {
        var x :| x in t.nodes[p].children && t.Live(x);
        LiveUnderRoot(s, p);
        assert t.Under(c, p);
        assert t.nodes[x].parent == p;
        assert t.Under(c, x);
      }
    }
  }

  lemma SiblingsLeaveOnly(t: Tree, c: Node)
    requires t.Shape() && c in t.nodes[t.root].children
    ensures Pruned(t, Siblings(t, c)).nodes[t.root].children == {c}
  {
    assert t.Under(c, c);
    forall y | y in t.nodes[t.root].children && y != c ensures y in Siblings(t, c) {
      assert t.nodes[y].parent == t.root && t.nodes[t.root].parent == null;
      assert t.Under(t.root, t.root) && !t.Under(c, t.root);
    }
  }

  lemma DetachedSiblings(s: State, c: Node)
    requires s.Inv() && c in s.tree.nodes[s.tree.root].children && s.tree.Live(c)
    ensures var d := Detached(s, Siblings(s.tree, c));
            d.Inv() && d.tree.Live(c) && d.tree.nodes[d.tree.root].children == {c}
  {
    SiblingsCanPrune(s.tree, c);
    SiblingsKeepLeaves(s, c);
    DetachedKeepsInv(s, Siblings(s.tree, c));
    SiblingsLeaveOnly(s.tree, c);
    assert s.tree.Under(c, c);
  }

  // ---------------------------------------------------------------- the new root

  ghost predicate CanReroot(s: State, c: Node) {
    s.Chained() && s.tree.Live(c) && s.tree.nodes[s.tree.root].children == {c}
  }

  lemma RerootedShape(s: State, c: Node)
    requires CanReroot(s, c)
    ensures Rerooted(s, c).Shape()
  {
    var t := Rerooted(s, c).tree;
    assert s.tree.nodes[c].parent == s.tree.root;
    forall n | n in t.cached ensures t.Placed(n) {
      assert s.tree.Placed(n);
    }
    forall n | n in t.nodes && !t.Present(n) ensures t.nodes[n].parent == null {
      assert s.tree.Placed(s.tree.root);
    }
  }

  lemma RerootedLive(s: State, c: Node, n: Node)
    requires CanReroot(s, c) && Rerooted(s, c).tree.Live(n) && n != c
    ensures s.tree.Live(n) && n != s.tree.root
    ensures s.tree.nodes[n].parent != null && s.tree.nodes[n].parent != s.tree.root
    ensures s.LinkShape(n)
  {
    assert s.tree.Placed(n);
  }

  lemma RerootedChained(s: State, c: Node)
    requires CanReroot(s, c)
    ensures Rerooted(s, c).Chained()
  {
    RerootedShape(s, c);
    LiveUnderRoot(s, c);
    var t := Rerooted(s, c);
    forall n | t.tree.Live(n) && n != t.tree.root ensures t.LinkShape(n) {
      RerootedLive(s, c, n);
    }
  }

  lemma RerootedLeaves(s: State, c: Node)
    requires CanReroot(s, c) && s.Leaves()
    ensures Rerooted(s, c).Leaves()
  {
    var t := Rerooted(s, c);
    forall n | n in t.leaf ensures t.tree.IsLeaf(n) {
      assert s.tree.IsLeaf(n);
    }
    forall n | t.tree.IsLeaf(n) ensures n in t.leaf {
      assert s.tree.Live(n);
      forall x | x in s.tree.nodes[n].children ensures !s.tree.Live(x) {
        assert s.tree.nodes[x].parent == n;
        assert !t.tree.Live(x);
      }
    }
  }

  lemma RerootedHead(s: State, c: Node)
    requires CanReroot(s, c) && s.HeadIsBest()
    ensures Rerooted(s, c).HeadIsBest()
  {
    RerootedShape(s, c);
    var t := Rerooted(s, c);
    forall n | t.tree.Live(n) ensures !t.tree.Beats(n, t.head) {
      assert s.tree.Live(n) && !s.tree.Beats(n, s.head);
    }
  }

  lemma RerootedIndex(s: State, c: Node)
    requires CanReroot(s, c) && s.IndexClosed()
    ensures Rerooted(s, c).IndexClosed()
  {
    RerootedShape(s, c);
    var t := Rerooted(s, c);
    forall k | k in t.number2node ensures t.IndexEntry(k) {
      assert s.IndexEntry(k);
    }
    forall n | t.tree.Live(n) && n != t.tree.root && t.Indexed(n)
      ensures t.tree.Real(t.tree.nodes[n].parent) && t.Indexed(t.tree.nodes[n].parent)
    {
      RerootedLive(s, c, n);
      assert s.Indexed(n);
      LiveUnderRoot(s, s.tree.nodes[n].parent);
    }
  }

  lemma RerootedKeyed(s: State, c: Node)
    requires CanReroot(s, c) && s.tree.Keyed()
    ensures Rerooted(s, c).tree.Keyed()
  {
    var t := Rerooted(s, c).tree;
    assert forall n :: t.Present(n) ==> s.tree.Present(n) && t.nodes[n].key == s.tree.nodes[n].key;
  }

  lemma RerootedSerials(s: State, c: Node)
    requires CanReroot(s, c) && s.Serials()
    ensures Rerooted(s, c).Serials()
  {
    RerootedChained(s, c);
    var t := Rerooted(s, c);
    forall n | t.tree.Live(n) && n != t.tree.root ensures t.SerialShape(n) {
      RerootedLive(s, c, n);
      assert s.SerialShape(n);
    }
  }

  // ---------------------------------------------------------------- ValidWitness below the new root

  /** removeValidWitness visits a node exactly if it visits the parent and the producer differs. */
  lemma ExposedStep(s: State, c: Node, n: Node)
    requires CanReroot(s, c) && s.tree.Live(n) && n != c && n != s.tree.root
    ensures s.LinkShape(n)
    ensures n in Exposed(s.tree, c, c) <==>
              s.tree.nodes[n].parent in Exposed(s.tree, c, c) && s.tree.HeadOf(n).producer != s.tree.HeadOf(c).producer
  {
    assert s.LinkShape(n);
  }

  /** The three ways in which the lists of a node and its parent can lose the name w. */
  lemma StrippedWitness(vw: seq<string>, pw: seq<string>, v: string, w: string, active: seq<string>)
    requires Elems(vw) == (Elems(pw) + Named(v)) * Elems(active) && "" !in pw
    ensures v != w ==> Elems(Without(vw, w)) == (Elems(Without(pw, w)) + Named(v)) * Elems(active)
    ensures v == w ==> Elems(vw) == (Elems(Without(pw, w)) + Named(v)) * Elems(active)
  {
    WithoutElems(vw, w);
    WithoutElems(pw, w);
    assert Elems(Without(vw, w)) == Elems(vw) - {w};
    assert Elems(Without(pw, w)) == Elems(pw) - {w};
  }

  ghost function NewRoot(s: State, c: Node): State
    requires CanReroot(s, c)
  {
    Rerooted(Stripped(s, Exposed(s.tree, c, c), s.tree.HeadOf(c).producer), c)
  }

  lemma StrippedCanReroot(s: State, c: Node, targets: set<Node>, w: string)
    requires CanReroot(s, c)
    ensures CanReroot(Stripped(s, targets, w), c)
  {
    var t := Stripped(s, targets, w);
    forall n | t.tree.Live(n) && n != t.tree.root ensures t.LinkShape(n) {
      assert s.LinkShape(n);
    }
  }

  lemma StrippedSerials(s: State, c: Node, targets: set<Node>, w: string)
    requires CanReroot(s, c) && s.Serials()
    ensures Stripped(s, targets, w).Serials()
  {
    StrippedCanReroot(s, c, targets, w);
    var t := Stripped(s, targets, w);
    forall n | t.tree.Live(n) && n != t.tree.root ensures t.SerialShape(n) {
      assert s.SerialShape(n);
    }
  }

  lemma EmptyIfNoElems(v: seq<string>)
    ensures Elems(v) == {} <==> v == []
  {
    if v != [] {
      assert v[0] in Elems(v);
    }
  }

  lemma NewRootOwnWitness(s: State, c: Node)
    requires CanReroot(s, c) && s.Witnesses()
    ensures c in Exposed(s.tree, c, c)
    ensures Without(s.notes[c].validWitness, s.tree.HeadOf(c).producer) == []
  {
    var w := s.tree.HeadOf(c).producer;
    assert s.tree.nodes[c].parent == s.tree.root;
    assert s.WitnessShape(c);
    WithoutElems(s.notes[c].validWitness, w);
    var v := Without(s.notes[c].validWitness, w);
    assert Elems(s.notes[c].validWitness) <= {w};
    assert Elems(v) == Elems(s.notes[c].validWitness) - {w};
    EmptyIfNoElems(v);
  }

  lemma NewRootWitness(s: State, c: Node, n: Node)
    requires CanReroot(s, c) && s.Witnesses() && NewRoot(s, c).Shape()
    requires NewRoot(s, c).tree.Live(n) && n != c
    ensures NewRoot(s, c).WitnessShape(n)
  {
    RerootedLive(s, c, n);
    ExposedStep(s, c, n);
    var p, w := s.tree.nodes[n].parent, s.tree.HeadOf(c).producer;
    assert s.WitnessShape(n);
    StrippedWitness(s.notes[n].validWitness, s.notes[p].validWitness, s.tree.HeadOf(n).producer, w, s.notes[n].active);
  }

  lemma NewRootWitnesses(s: State, c: Node)
    requires CanReroot(s, c) && s.Witnesses()
    ensures NewRoot(s, c).Witnesses()
  {
    var w := s.tree.HeadOf(c).producer;
    StrippedCanReroot(s, c, Exposed(s.tree, c, c), w);
    RerootedShape(Stripped(s, Exposed(s.tree, c, c), w), c);
    NewRootOwnWitness(s, c);
    var t := NewRoot(s, c);
    forall n | t.tree.Live(n) && n != t.tree.root ensures t.WitnessShape(n) {
      NewRootWitness(s, c, n);
    }
    forall n | t.tree.Live(n) ensures NoDup(t.notes[n].validWitness) && "" !in t.notes[n].validWitness {
      assert s.tree.Live(n);
      WithoutElems(s.notes[n].validWitness, w);
    }
  }

  lemma NewRootKeepsInv(s: State, c: Node)
    requires s.Inv() && CanReroot(s, c)
    ensures NewRoot(s, c).Inv()
  {
    var s1 := Stripped(s, Exposed(s.tree, c, c), s.tree.HeadOf(c).producer);
    StrippedCanReroot(s, c, Exposed(s.tree, c, c), s.tree.HeadOf(c).producer);
    StrippedSerials(s, c, Exposed(s.tree, c, c), s.tree.HeadOf(c).producer);
    SameTreeInv(s, s1);
    RerootedLeaves(s1, c);
    RerootedHead(s1, c);
    RerootedIndex(s1, c);
    RerootedSerials(s1, c);
    RerootedKeyed(s1, c);
    NewRootWitnesses(s, c);
  }

  // ---------------------------------------------------------------- orphans

  lemma OutdatedCanPrune(s: State)
    requires s.Chained()
    ensures CanPrune(s.tree, OutdatedNodes(s.tree))
    ensures forall n :: n in OutdatedNodes(s.tree) ==> !s.tree.Live(n)
  {
    var t, dead := s.tree, OutdatedNodes(s.tree);
    forall n | n in dead ensures !t.Live(n) {
      var x :| x in t.cached && Outdated(t, x) && t.Under(x, n);
      if t.Live(n) {
        LiveAncestor(s, x, n);
        LiveParent(s, x);
      }
    }
    forall p, y | p in dead && y in t.nodes[p].children ensures y in dead {
      var x :| x in t.cached && Outdated(t, x) && t.Under(x, p);
      assert t.nodes[y].parent == p;
      assert t.Under(x, y);
    }
  }

  lemma OutdatedKeepLeaves(s: State)
    requires s.Chained()
    ensures KeepsLeaves(s.tree, OutdatedNodes(s.tree))
  {
    OutdatedCanPrune(s);
  }

  lemma WithoutVirtualsShape(t: Tree, gone: set<Node>)
    requires t.Shape() && gone <= t.virtuals && forall v :: v in gone ==> t.nodes[v].children == {}
    ensures t.(virtuals := t.virtuals - gone).Shape()
    ensures t.Keyed() ==> t.(virtuals := t.virtuals - gone).Keyed()
  {
    var u := t.(virtuals := t.virtuals - gone);
    forall n | n in u.cached ensures u.Placed(n) {
      assert t.Placed(n);
    }
  }

  lemma OutdatedVirtualsEmpty(t: Tree, v: Node)
    requires t.Shape() && v in OutdatedVirtuals(t)
    ensures Pruned(t, OutdatedNodes(t)).nodes[v].children == {}
  {
    forall x | x in t.nodes[v].children ensures x in OutdatedNodes(t) {
      assert t.Under(x, x);
    }
  }

  /** Virtual nodes without children can go. */
  lemma WithoutVirtualsInv(s: State, gone: set<Node>)
    requires s.Inv() && gone <= s.tree.virtuals && forall v :: v in gone ==> s.tree.nodes[v].children == {}
    ensures s.(tree := s.tree.(virtuals := s.tree.virtuals - gone)).Inv()
  {
    WithoutVirtualsShape(s.tree, gone);
    SubLiveInv(s, s.(tree := s.tree.(virtuals := s.tree.virtuals - gone)));
  }

  lemma SweptKeepsInv(s: State)
    requires s.Inv()
    ensures Swept(s).Inv()
  {
    hide State.Inv, OutdatedVirtuals, OutdatedNodes, CanPrune, KeepsLeaves;
    var t := s.tree;
    InvChained(s);
    if t.HeadOf(t.root).number % DEL_SINGLE_BLOCK_TIME == 0 {
      OutdatedCanPrune(s);
      OutdatedKeepLeaves(s);
      DetachedKeepsInv(s, OutdatedNodes(t));
      EmptiedVirtuals(t);
      WithoutVirtualsInv(Detached(s, OutdatedNodes(t)), OutdatedVirtuals(t));
    }
  }

  lemma InvChained(s: State)
    requires s.Inv()
    ensures s.Chained() && s.Leaves()
  {
  }

  lemma EmptiedVirtuals(t: Tree)
    requires t.Shape()
    ensures OutdatedVirtuals(t) <= t.virtuals
    ensures forall v :: v in OutdatedVirtuals(t) ==> v in t.nodes && Pruned(t, OutdatedNodes(t)).nodes[v].children == {}
  {
    forall v | v in OutdatedVirtuals(t) ensures v in t.nodes && Pruned(t, OutdatedNodes(t)).nodes[v].children == {} {
      OutdatedVirtualsEmpty(t, v);
    }
  }
}
