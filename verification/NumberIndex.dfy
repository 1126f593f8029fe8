/** The lazily repaired number index agrees with the walk over parents. */
module NumberIndex {
  import opened Options
  import opened Blocks
  import opened BlockTree
  import opened BlockTreeLink
  import opened BlockTreeRoot

  /** The index is closed under parents except that `it`, the parent of what was indexed last, may be missing. */
  ghost predicate ClosedAbove(s: State, it: Node) {
    && s.tree.Shape()
    && s.tree.Real(s.head)
    && s.tree.Real(it)
    && (forall k :: k in s.number2node ==> s.IndexEntry(k))
    && (s.tree.HeadOf(it).number + 1 in s.number2node ==>
          s.tree.nodes[s.number2node[s.tree.HeadOf(it).number + 1]].parent == it)
    && (forall n {:trigger s.tree.nodes[n].parent} ::
          s.tree.Live(n) && n != s.tree.root && s.Indexed(n) && s.tree.nodes[n].parent != it ==>
            s.tree.Real(s.tree.nodes[n].parent) && s.Indexed(s.tree.nodes[n].parent))
  }

  ghost predicate Walkable(s: State, it: Node) {
    && s.Chained()
    && s.tree.Real(s.head)
    && s.tree.Real(it) && s.tree.nodes[it].linked
    && s.tree.HeadOf(it).number <= s.tree.HeadOf(s.head).number
  }

  ghost function IndexedAt(s: State, it: Node): State
    requires s.tree.Real(it)
  {
    s.(number2node := s.number2node[s.tree.HeadOf(it).number := it])
  }

  lemma IndexedAtChained(s: State, it: Node)
    requires s.Chained() && s.tree.Real(it)
    ensures IndexedAt(s, it).Chained()
  {
    var t := IndexedAt(s, it);
    forall n | t.tree.Live(n) && n != t.tree.root ensures t.LinkShape(n) {
      assert s.LinkShape(n);
    }
  }

  /** Indexing `it` moves the gap to its parent. */
  lemma IndexedAtStep(s: State, it: Node)
    requires Walkable(s, it) && s.tree.Live(it) && it != s.tree.root && ClosedAbove(s, it)
    ensures ClosedAbove(IndexedAt(s, it), s.tree.nodes[it].parent)
  {
    var t := IndexedAt(s, it);
    assert s.LinkShape(it);
    forall n | t.tree.Live(n) && n != t.tree.root && t.Indexed(n) && t.tree.nodes[n].parent != s.tree.nodes[it].parent
      ensures t.tree.Real(t.tree.nodes[n].parent) && t.Indexed(t.tree.nodes[n].parent)
    {
      assert n != it && s.Indexed(n);
      assert s.LinkShape(n);
    }
    forall k | k in t.number2node ensures t.IndexEntry(k) {
      assert k != s.tree.HeadOf(it).number ==> s.IndexEntry(k);
    }
  }

  lemma IndexedAtEnd(s: State, it: Node)
    requires Walkable(s, it) && ClosedAbove(s, it)
    requires !s.tree.Live(it) || it == s.tree.root
    requires !s.tree.Live(it) ==> it == s.head
    ensures IndexedAt(s, it).IndexClosed()
  {
    var t := IndexedAt(s, it);
    forall n | t.tree.Live(n) && n != t.tree.root && t.Indexed(n)
      ensures t.tree.Real(t.tree.nodes[n].parent) && t.Indexed(t.tree.nodes[n].parent)
    {
      assert s.LinkShape(n);
      LiveUnderRoot(s, n);
      assert n != it && s.Indexed(n);
    }
    forall k | k in t.number2node ensures t.IndexEntry(k) {
      assert k != s.tree.HeadOf(it).number ==> s.IndexEntry(k);
    }
  }

  lemma {:induction false} RepairedClosed(s: State, it: Node)
    requires Walkable(s, it) && ClosedAbove(s, it)
    requires s.tree.Live(it) || it == s.head
    ensures var t := Repaired(s, it);
            && t == s.(number2node := t.number2node)
            && t.IndexClosed() && t.Indexed(it)
            && forall k :: k > s.tree.HeadOf(it).number ==>
                 (k in t.number2node <==> k in s.number2node) &&
                 (k in s.number2node ==> t.number2node[k] == s.number2node[k])
    decreases Depth(s.tree.nodes[it].key)
  {
    if s.Indexed(it) {
    } else if s.tree.Live(it) && it != s.tree.root {
      assert s.LinkShape(it);
      IndexedAtChained(s, it);
      IndexedAtStep(s, it);
      RepairedClosed(IndexedAt(s, it), s.tree.nodes[it].parent);
    } else {
      IndexedAtEnd(s, it);
      assert s.tree.nodes[it].parent == null;
    }
  }

  lemma {:induction false} AncestorIndexed(s: State, n: Node, k: int)
    requires s.Chained() && s.IndexClosed() && s.tree.Live(n) && s.Indexed(n)
    requires s.tree.HeadOf(s.tree.root).number <= k <= s.tree.HeadOf(n).number
    ensures k in s.number2node && s.number2node[k] == Ancestor(s, n, k)
    decreases Depth(s.tree.nodes[n].key)
  {
    if n != s.tree.root && s.tree.HeadOf(n).number != k {
      assert s.LinkShape(n);
      AncestorIndexed(s, s.tree.nodes[n].parent, k);
    }
  }

  /** Ancestor is the ancestor with the given number. */
  lemma {:induction false} AncestorNumber(s: State, n: Node, k: int)
    requires s.Chained() && s.tree.Live(n)
    requires s.tree.HeadOf(s.tree.root).number <= k <= s.tree.HeadOf(n).number
    ensures var a := Ancestor(s, n, k); s.tree.Live(a) && s.tree.Under(a, n) && s.tree.HeadOf(a).number == k
    decreases Depth(s.tree.nodes[n].key)
  {
    if n != s.tree.root && s.tree.HeadOf(n).number != k {
      assert s.LinkShape(n);
      AncestorNumber(s, s.tree.nodes[n].parent, k);
    }
  }

  lemma {:induction false} AncestorSame(s: State, t: State, n: Node, k: int)
    requires s.Chained() && t.Chained() && t.tree == s.tree && s.tree.Live(n)
    requires s.tree.HeadOf(s.tree.root).number <= k <= s.tree.HeadOf(n).number
    ensures Ancestor(t, n, k) == Ancestor(s, n, k)
    decreases Depth(s.tree.nodes[n].key)
  {
    if n != s.tree.root && s.tree.HeadOf(n).number != k {
      assert s.LinkShape(n);
      AncestorSame(s, t, s.tree.nodes[n].parent, k);
    }
  }

  lemma ClosedAtHead(s: State)
    requires s.IndexClosed() && s.HeadIsBest() && s.Chained()
    ensures Walkable(s, s.head) && ClosedAbove(s, s.head)
  {
    forall k | k in s.number2node ensures k <= s.tree.HeadOf(s.head).number {
      assert s.IndexEntry(k);
    }
  }

  /** The invariant does not depend on the irreversible chain or on linkedRootWitness. */
  lemma SameNotesInv(s: State, t: State)
    requires t.tree == s.tree && t.notes == s.notes && t.head == s.head && t.leaf == s.leaf
    requires s.Inv() && t.IndexClosed()
    ensures t.Inv()
  {
    forall n | t.tree.Live(n) && n != t.tree.root ensures t.LinkShape(n) && t.WitnessShape(n) && t.SerialShape(n) {
      assert s.LinkShape(n) && s.WitnessShape(n) && s.SerialShape(n);
    }
  }

  /** The repair keeps the invariant, whether or not the head is live. */
  lemma RepairKeepsInv(s: State)
    requires s.Inv()
    ensures Repaired(s, s.head).Inv()
  {
    ClosedAtHead(s);
    RepairedClosed(s, s.head);
    SameNotesInv(s, Repaired(s, s.head));
  }

  /** After the repair the index finds the head's ancestor of every number between root and head. */
  lemma LookupIsAncestor(s: State, k: int)
    requires s.Inv() && s.tree.Live(s.head)
    requires s.tree.HeadOf(s.tree.root).number <= k <= s.tree.HeadOf(s.head).number
    ensures var t := Repaired(s, s.head);
            k in t.number2node && t.number2node[k] == Ancestor(s, s.head, k)
  {
    ClosedAtHead(s);
    RepairedClosed(s, s.head);
    RepairKeepsInv(s);
    AncestorIndexed(Repaired(s, s.head), s.head, k);
    AncestorSame(s, Repaired(s, s.head), s.head, k);
  }

  /** The loop of GetBlockByNumber has come from the head to `it`. */
  ghost predicate Repairing(s: State, it: Node) {
    Walkable(s, it) && (s.tree.Live(it) || it == s.head)
  }

  lemma RepairStarts(s: State)
    requires s.Inv()
    ensures Repairing(s, s.head)
  {
  }

  /** One round of that loop: `it` is indexed, and its parent comes next. */
  lemma RepairStep(s: State, it: Node)
    requires Repairing(s, it) && !s.Indexed(it)
    ensures var t, p := IndexedAt(s, it), s.tree.nodes[it].parent;
            t.tree == s.tree &&
            if p == null then Repaired(s, it) == t
            else
              && Repairing(t, p) && Repaired(s, it) == Repaired(t, p)
              && Depth(s.tree.nodes[p].key) < Depth(s.tree.nodes[it].key)
  {
    IndexedAtChained(s, it);
    if s.tree.Live(it) && it != s.tree.root {
      assert s.LinkShape(it);
    } else {
      assert s.tree.nodes[it].parent == null;
    }
  }

  lemma RepairDone(s: State, it: Node)
    requires s.tree.Shape() && s.tree.Real(it) && s.Indexed(it)
    ensures Repaired(s, it) == s
  {
  }

  /**
   What GetBlockByNumber promises about the index and the answer. A head that has been pruned has no parent any more:
   it is found itself, and below it whatever the index held before.
   */
  ghost predicate IsLookup(s: State, num: int, t: State, r: Option<Block>) {
    && s.Inv()
    && var found := s.tree.HeadOf(s.tree.root).number <= num <= s.tree.HeadOf(s.head).number;
    && t == (if found then Repaired(s, s.head) else s)
    && (!found ==> r == None)
    && (r.Some? ==> r.value.head.number == num)
    && (found && s.tree.Live(s.head) ==> r == s.tree.nodes[Ancestor(s, s.head, num)].block)
    && (found && !s.tree.Live(s.head) ==>
          r == if num == s.tree.HeadOf(s.head).number then s.tree.nodes[s.head].block else IndexedBlock(s, num))
  }

  ghost function IndexedBlock(s: State, num: int): Option<Block> {
    if num in s.number2node && s.number2node[num] in s.tree.nodes then s.tree.nodes[s.number2node[num]].block else None
  }

  /** The repair ends at a head that has been pruned. */
  lemma PrunedHeadEnds(s: State)
    requires s.Inv() && !s.tree.Live(s.head)
    ensures Repaired(s, s.head) == IndexedAt(s, s.head)
  {
    var k := s.tree.HeadOf(s.head).number;
    assert s.tree.nodes[s.head].parent == null;
    if s.Indexed(s.head) {
      assert s.number2node[k := s.head] == s.number2node;
    }
  }

  lemma AnswerHasNumber(s: State, num: int)
    requires s.Inv() && num in s.number2node
    ensures var b := IndexedBlock(s, num); b.Some? && b.value.head.number == num
  {
    assert s.IndexEntry(num);
  }

  lemma RepairingIsReal(s: State, it: Node)
    requires Repairing(s, it)
    ensures s.tree.Shape() && s.tree.Real(it) && it in s.tree.nodes
  {
  }

  lemma LookupOutside(s: State, num: int)
    requires s.Inv()
    requires s.tree.Real(s.head) && s.tree.Real(s.tree.root)
    requires num < s.tree.HeadOf(s.tree.root).number || num > s.tree.HeadOf(s.head).number
    ensures IsLookup(s, num, s, None)
  {
  }

  lemma EntriesAreNodes(s: State, num: int)
    requires s.Inv() && num in s.number2node
    ensures s.number2node[num] in s.tree.nodes
  {
    assert s.IndexEntry(num);
  }

  /** What the repaired index holds is the answer. */
  lemma LookupInside(s: State, num: int, r: Option<Block>)
    requires s.Inv() && s.tree.Real(s.head) && s.tree.Real(s.tree.root)
    requires s.tree.HeadOf(s.tree.root).number <= num <= s.tree.HeadOf(s.head).number
    requires var t := Repaired(s, s.head);
             && (num in t.number2node ==> t.number2node[num] in t.tree.nodes)
             && r == if num in t.number2node then t.tree.nodes[t.number2node[num]].block else None
    ensures IsLookup(s, num, Repaired(s, s.head), r)
  {
    hide Repaired;
    ClosedAtHead(s);
    RepairedClosed(s, s.head);
    RepairKeepsInv(s);
    if num in Repaired(s, s.head).number2node {
      AnswerHasNumber(Repaired(s, s.head), num);
    }
    if s.tree.Live(s.head) {
      LookupIsAncestor(s, num);
    } else {
      PrunedHeadEnds(s);
      if num in s.number2node {
        EntriesAreNodes(s, num);
      }
    }
  }
}
