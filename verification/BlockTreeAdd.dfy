/**
 Operations that link nothing keep the invariant: adding a block, removing subtrees, dropping
 virtual nodes.
 */
module BlockTreeAdd {
  import opened Blocks
  import opened BlockTree

  /** The live nodes of t are live in s with the same blocks, parents and notes. */
  ghost predicate SubLive(s: State, t: State) {
    && s.Shape() && t.Shape()
    && t.tree.root == s.tree.root && t.head == s.head && t.number2node == s.number2node
    && (forall n :: t.tree.Live(n) ==>
          && s.tree.Live(n)
          && t.tree.nodes[n].parent == s.tree.nodes[n].parent
          && t.notes[n] == s.notes[n])
    && (forall n :: n in s.tree.nodes ==>
          && n in t.tree.nodes
          && t.tree.nodes[n].linked == s.tree.nodes[n].linked
          && (s.tree.Real(n) ==> t.tree.nodes[n].block == s.tree.nodes[n].block))
  }

  lemma SubLiveParent(s: State, t: State, n: Node)
    requires SubLive(s, t) && s.Chained()
    requires t.tree.Live(n) && n != t.tree.root
    ensures t.tree.nodes[n].parent != null && t.tree.Live(t.tree.nodes[n].parent)
  {
    assert s.LinkShape(n);
  }

  lemma SubLiveChained(s: State, t: State)
    requires SubLive(s, t) && s.Chained()
    ensures t.Chained()
  {
    forall n | t.tree.Live(n) && n != t.tree.root ensures t.LinkShape(n) {
      SubLiveParent(s, t, n);
    }
  }

  lemma SubLiveHead(s: State, t: State)
    requires SubLive(s, t) && s.HeadIsBest()
    ensures t.HeadIsBest()
  {
  }

  lemma SubLiveIndex(s: State, t: State)
    requires SubLive(s, t) && s.IndexClosed()
    ensures t.IndexClosed()
  {
  }

  lemma SubLiveWitnesses(s: State, t: State)
    requires SubLive(s, t) && s.Witnesses() && s.Chained()
    requires forall n :: n in t.tree.nodes && !t.tree.nodes[n].linked ==> t.notes[n].validWitness == []
    ensures t.Witnesses()
  {
    forall n | t.tree.Live(n) && n != t.tree.root ensures t.WitnessShape(n) {
      SubLiveParent(s, t, n);
      assert s.WitnessShape(n);
    }
  }

  lemma SubLiveSerials(s: State, t: State)
    requires SubLive(s, t) && t.Chained() && s.Serials()
    ensures t.Serials()
  {
    forall n | t.tree.Live(n) && n != t.tree.root ensures t.SerialShape(n) {
      SubLiveParent(s, t, n);
      assert s.SerialShape(n);
    }
  }

  lemma SubLiveInv(s: State, t: State)
    requires SubLive(s, t) && t.tree.Keyed() && t.Leaves() && s.Inv()
    requires forall n :: n in t.tree.nodes && !t.tree.nodes[n].linked ==> t.notes[n].validWitness == []
    ensures t.Inv()
  {
    SubLiveChained(s, t);
    SubLiveHead(s, t);
    SubLiveIndex(s, t);
    SubLiveWitnesses(s, t);
    SubLiveSerials(s, t);
  }

  lemma InitialInv(root: Node, chain: seq<Block>, pending: seq<string>)
    requires chain != [] && chain[|chain| - 1].head.time >= 0
    requires forall i :: 0 < i < |chain| ==> ChildOf(chain[i], chain[i - 1])
    ensures Initial(root, chain, pending).Inv() && Initial(root, chain, pending).Finalized()
  {
    var s := Initial(root, chain, pending);
    assert forall n :: s.tree.Live(n) ==> n == root;
    assert s.tree.Shape();
    assert s.Chained() && s.Leaves() && s.HeadIsBest() && s.IndexClosed();
  }

  // ---------------------------------------------------------------- a new virtual node

  lemma WithVirtualSubLive(s: State, h: Hash, v: Node)
    requires s.Shape() && v !in s.tree.nodes
    ensures SubLive(s, WithVirtual(s, h, v))
  {
    var t := WithVirtual(s, h, v).tree;
    forall n | n in t.cached ensures t.Placed(n) {
      assert s.tree.Placed(n);
    }
    forall n | n in t.nodes && !t.Present(n) ensures t.nodes[n].parent == null {
      assert s.tree.nodes[n].parent == null;
    }
  }

  lemma WithVirtualLeaves(s: State, h: Hash, v: Node)
    requires s.Shape() && s.Leaves() && v !in s.tree.nodes
    ensures WithVirtual(s, h, v).Leaves()
  {
  }

  lemma WithVirtualKeepsInv(s: State, h: Hash, v: Node)
    requires s.Inv() && v !in s.tree.nodes
    requires forall n :: s.tree.Present(n) ==> s.tree.nodes[n].key != h
    ensures WithVirtual(s, h, v).Inv()
  {
    WithVirtualSubLive(s, h, v);
    WithVirtualLeaves(s, h, v);
    SubLiveInv(s, WithVirtual(s, h, v));
  }

  // ---------------------------------------------------------------- a block arrives

  lemma FilledShape(t: Tree, m: Node, blk: Block, p: Node)
    requires CanFill(t, m, blk, p)
    ensures m != p && Filled(t, m, blk, p).Shape()
  {
    assert Depth(t.nodes[m].key) == 1 + Depth(t.nodes[p].key);
  }

  lemma FilledKeyed(t: Tree, m: Node, blk: Block, p: Node)
    requires CanFill(t, m, blk, p) && t.Keyed()
    ensures Filled(t, m, blk, p).Keyed()
  {
  }

  lemma FilledSubLive(s: State, m: Node, blk: Block, p: Node)
    requires CanFill(s.tree, m, blk, p) && s.Shape()
    ensures SubLive(s, s.(tree := Filled(s.tree, m, blk, p)))
  {
    FilledShape(s.tree, m, blk, p);
  }

  lemma FilledLeaves(s: State, m: Node, blk: Block, p: Node)
    requires CanFill(s.tree, m, blk, p) && s.Shape() && s.Leaves()
    ensures s.(tree := Filled(s.tree, m, blk, p)).Leaves()
  {
    FilledShape(s.tree, m, blk, p);
  }

  lemma FilledKeepsInv(s: State, m: Node, blk: Block, p: Node)
    requires CanFill(s.tree, m, blk, p) && s.Inv()
    ensures s.(tree := Filled(s.tree, m, blk, p)).Inv()
  {
    FilledKeyed(s.tree, m, blk, p);
    FilledSubLive(s, m, blk, p);
    FilledLeaves(s, m, blk, p);
    SubLiveInv(s, s.(tree := Filled(s.tree, m, blk, p)));
  }

  // ---------------------------------------------------------------- removal

  ghost predicate CanPrune(t: Tree, dead: set<Node>) {
    && t.Shape()
    && dead <= t.cached
    && t.root !in dead
    && (forall p, c {:trigger c in t.nodes[p].children} :: p in dead && c in t.nodes[p].children ==> c in dead)
  }

  lemma PrunedShape(t: Tree, dead: set<Node>)
    requires CanPrune(t, dead)
    ensures Pruned(t, dead).Shape()
  {
    var u := Pruned(t, dead);
    forall n | n in u.cached ensures u.Placed(n) {
      assert t.Placed(n);
    }
    forall n | n in u.nodes && !u.Present(n) ensures u.nodes[n].parent == null {
      assert !t.Present(n) ==> t.nodes[n].parent == null;
    }
  }

  lemma DetachedSubLive(s: State, dead: set<Node>)
    requires s.Shape() && CanPrune(s.tree, dead)
    ensures SubLive(s, Detached(s, dead))
  {
    PrunedShape(s.tree, dead);
  }

  /** No live node outside `dead` becomes a leaf. */
  ghost predicate KeepsLeaves(t: Tree, dead: set<Node>) {
    forall p :: t.Live(p) && p !in dead && !t.IsLeaf(p) ==>
      exists c :: c in t.nodes[p].children && t.Live(c) && c !in dead
  }

  lemma DetachedLeaves(s: State, dead: set<Node>)
    requires s.Shape() && CanPrune(s.tree, dead) && s.Leaves() && KeepsLeaves(s.tree, dead)
    ensures Detached(s, dead).Leaves()
  {
    hide Tree.Shape;
    var u := Detached(s, dead);
    forall n | n in u.leaf ensures u.tree.IsLeaf(n) {
      assert s.tree.IsLeaf(n);
    }
    forall n | u.tree.Live(n) && !s.tree.IsLeaf(n) ensures !u.tree.IsLeaf(n) {
      var c :| c in s.tree.nodes[n].children && s.tree.Live(c) && c !in dead;
      assert c in u.tree.nodes[n].children && u.tree.Live(c);
    }
    assert forall n :: u.tree.IsLeaf(n) ==> u.tree.Live(n) && n !in dead;
  }

  lemma DetachedKeepsInv(s: State, dead: set<Node>)
    requires s.Inv() && CanPrune(s.tree, dead) && KeepsLeaves(s.tree, dead)
    ensures Detached(s, dead).Inv()
  {
    hide *;
    InvParts(s);
    DetachedTree(s, dead);
    DetachedSubLive(s, dead);
    DetachedLeaves(s, dead);
    DetachedNotes(s, dead);
    SubLiveInv(s, Detached(s, dead));
  }

  lemma InvParts(s: State)
    requires s.Inv()
    ensures s.Shape() && s.tree.Shape() && s.tree.Keyed() && s.Leaves() && s.Witnesses()
    ensures s.tree.Real(s.head) && s.tree.Real(s.tree.root)
  {
  }

  lemma DetachedTree(s: State, dead: set<Node>)
    requires s.tree.Shape() && s.tree.Keyed() && CanPrune(s.tree, dead)
    ensures Detached(s, dead).tree.Keyed()
  {
    PrunedShape(s.tree, dead);
  }

  lemma DetachedNotes(s: State, dead: set<Node>)
    requires s.Shape() && s.Witnesses()
    ensures var t := Detached(s, dead);
            forall n :: n in t.tree.nodes && !t.tree.nodes[n].linked ==> n in t.notes && t.notes[n].validWitness == []
  {
  }
}
