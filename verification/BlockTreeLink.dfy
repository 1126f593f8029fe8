/** Linking a verified block and switching its active list keep the invariant. */
module BlockTreeLink {
  import opened Sequences
  import opened Options
  import opened Blocks
  import opened BlockTree

  lemma {:induction false} WithoutElems(s: seq<string>, w: string)
    ensures forall x :: x in Without(s, w) <==> x in s && x != w
    ensures NoDup(s) ==> NoDup(Without(s, w))
  {
    if s != [] {
      WithoutElems(s[1..], w);
      assert s == [s[0]] + s[1..];
      assert NoDup(s) ==> s[0] !in s[1..] && NoDup(s[1..]);
    }
  }

  lemma {:induction false} RestrictedElems(s: seq<string>, t: seq<string>)
    ensures forall x :: x in Restricted(s, t) <==> x in s && x in t
    ensures NoDup(s) ==> NoDup(Restricted(s, t))
  {
    if s != [] {
      RestrictedElems(s[1..], t);
      assert s == [s[0]] + s[1..];
      assert NoDup(s) ==> s[0] !in s[1..] && NoDup(s[1..]);
    }
  }

  lemma RestrictedWitness(vw: seq<string>, pw: seq<string>, w: string, active: seq<string>, list: seq<string>)
    requires Elems(vw) == (Elems(pw) + Named(w)) * Elems(active)
    requires Elems(pw) <= Elems(active) && w in active
    ensures Elems(Restricted(vw, list)) == (Elems(pw) + Named(w)) * Elems(list)
  {
    RestrictedElems(vw, list);
    assert Elems(vw) == Elems(pw) + Named(w);
  }

  lemma ExtendedWitness(pw: seq<string>, w: string, active: seq<string>)
    requires Elems(pw) <= Elems(active) && w in active && NoDup(pw)
    ensures Elems(Extended(pw, w)) == (Elems(pw) + Named(w)) * Elems(active)
    ensures NoDup(Extended(pw, w))
    ensures "" !in pw ==> "" !in Extended(pw, w)
  {
  }

  /** ValidWitness never leaves the active list. */
  lemma ValidWitnessIsActive(s: State, n: Node)
    requires s.Witnesses() && s.tree.Live(n)
    ensures Elems(s.notes[n].validWitness) <= Elems(s.notes[n].active)
  {
    if n != s.tree.root {
      assert s.WitnessShape(n);
    }
  }

  /** Leaves, head and index do not depend on the notes. */
  lemma SameTreeInv(s: State, t: State)
    requires t.tree == s.tree && t.head == s.head && t.number2node == s.number2node && t.leaf == s.leaf
    requires s.Leaves() && s.HeadIsBest() && s.IndexClosed()
    ensures t.Leaves() && t.HeadIsBest() && t.IndexClosed()
  {
    assert forall k :: k in t.number2node ==> s.IndexEntry(k) ==> t.IndexEntry(k);
    forall m | t.tree.Live(m) && m != t.tree.root && t.Indexed(m)
      ensures t.tree.Real(t.tree.nodes[m].parent) && t.Indexed(t.tree.nodes[m].parent)
    {
      assert s.Indexed(m);
    }
  }

  // ---------------------------------------------------------------- Link

  /** Link as the sequence of its field updates. */
  lemma LinkedParts(s: State, n: Node, voted: Option<seq<string>>, note: Note)
    requires s.tree.Real(s.head) && s.tree.Real(n) && n in s.notes
    requires s.tree.nodes[n].parent in s.tree.nodes && s.tree.nodes[n].parent in s.notes
    requires note == Linked(s, n, voted).notes[n]
    ensures var s1 := s.(head := if s.tree.Beats(n, s.head) then n else s.head);
            var s2 := s1.(leaf := s1.leaf - {s.tree.nodes[n].parent} + {n});
            var s3 := WithNote(s2, n, note);
            WithPlace(s3, n, s3.tree.nodes[n].(linked := true)) == Linked(s, n, voted)
  {
  }

  lemma LinkedTree(s: State, n: Node, voted: Option<seq<string>>)
    requires Verified(s, n) && s.tree.Real(s.head)
    ensures Linked(s, n, voted).Shape()
    ensures s.tree.Keyed() ==> Linked(s, n, voted).tree.Keyed()
  {
    var t := Linked(s, n, voted).tree;
    forall m | m in t.cached ensures t.Placed(m) {
      assert s.tree.Placed(m);
    }
    forall m | m in t.nodes && !t.Present(m) ensures t.nodes[m].parent == null {
      assert s.tree.nodes[m].parent == null;
    }
  }

  /** No live node hangs below a node that is not live. */
  lemma LiveParent(s: State, m: Node)
    requires s.Chained() && s.tree.Live(m) && m != s.tree.root
    ensures s.tree.nodes[m].parent != null && s.tree.Live(s.tree.nodes[m].parent)
  {
    assert s.LinkShape(m);
  }

  lemma LinkedChained(s: State, n: Node, voted: Option<seq<string>>)
    requires Verified(s, n) && s.tree.Real(s.head)
    ensures Linked(s, n, voted).Chained()
  {
    LinkedTree(s, n, voted);
    var t := Linked(s, n, voted);
    forall m | t.tree.Live(m) && m != t.tree.root ensures t.LinkShape(m) {
      if m != n {
        LiveParent(s, m);
      }
    }
  }

  /** The new node has no live child, its parent has one, and the others keep theirs. */
  lemma LinkedLeaf(s: State, n: Node, voted: Option<seq<string>>, m: Node)
    requires Verified(s, n) && s.tree.Real(s.head)
    ensures var t, p := Linked(s, n, voted).tree, s.tree.nodes[n].parent;
            t.IsLeaf(m) <==> m == n || (m != p && s.tree.IsLeaf(m))
  {
    var t, p := Linked(s, n, voted).tree, s.tree.nodes[n].parent;
    assert s.tree.Placed(n) && n in t.nodes[p].children;
    forall c | s.tree.Live(m) && c in s.tree.nodes[m].children && c == n ensures m == p {
      assert s.tree.nodes[c].parent == m;
    }
    forall c | c in s.tree.nodes[n].children ensures !s.tree.Live(c) && c != n {
      if s.tree.Live(c) {
        LiveParent(s, c);
      }
    }
  }

  lemma LinkedLeaves(s: State, n: Node, voted: Option<seq<string>>)
    requires Verified(s, n) && s.tree.Real(s.head) && s.Leaves()
    ensures Linked(s, n, voted).Leaves()
  {
    assert s.tree.nodes[n].parent != n;
    hide Tree.IsLeaf;
    var t := Linked(s, n, voted);
    forall m | t.tree.IsLeaf(m) || m in t.leaf ensures t.tree.IsLeaf(m) && m in t.leaf {
      LinkedLeaf(s, n, voted, m);
    }
  }

  lemma LinkedWitness(s: State, n: Node, voted: Option<seq<string>>)
    requires Verified(s, n) && s.tree.Real(s.head) && s.Witnesses()
    requires Linked(s, n, voted).Shape()
    ensures Linked(s, n, voted).WitnessShape(n) && NoDup(Linked(s, n, voted).notes[n].validWitness)
    ensures "" !in Linked(s, n, voted).notes[n].validWitness
  {
    var p := s.tree.nodes[n].parent;
    ValidWitnessIsActive(s, p);
    ExtendedWitness(s.notes[p].validWitness, s.tree.HeadOf(n).producer, s.notes[p].active);
    assert Linked(s, n, voted).notes[n].validWitness == Extended(s.notes[p].validWitness, s.tree.HeadOf(n).producer);
  }

  lemma LinkedWitnesses(s: State, n: Node, voted: Option<seq<string>>)
    requires Verified(s, n) && s.tree.Real(s.head) && s.Witnesses()
    ensures Linked(s, n, voted).Witnesses()
  {
    LinkedTree(s, n, voted);
    LinkedWitness(s, n, voted);
    var t := Linked(s, n, voted);
    forall m | t.tree.Live(m) && m != t.tree.root && m != n ensures t.WitnessShape(m) {
      LiveParent(s, m);
      assert s.WitnessShape(m);
    }
    forall m | t.tree.Live(m) ensures NoDup(t.notes[m].validWitness) && "" !in t.notes[m].validWitness {
      assert m == n || s.tree.Live(m);
    }
  }

  lemma LinkedHead(s: State, n: Node, voted: Option<seq<string>>)
    requires Verified(s, n) && s.HeadIsBest()
    ensures Linked(s, n, voted).HeadIsBest()
  {
    LinkedTree(s, n, voted);
    var t := Linked(s, n, voted);
    forall m | t.tree.Live(m) ensures !t.tree.Beats(m, t.head) {
      assert m == n || (s.tree.Live(m) && !s.tree.Beats(m, s.head));
    }
  }

  lemma LinkedIndex(s: State, n: Node, voted: Option<seq<string>>)
    requires Verified(s, n) && s.IndexClosed()
    ensures Linked(s, n, voted).IndexClosed()
  {
    LinkedTree(s, n, voted);
    var t := Linked(s, n, voted);
    forall k | k in t.number2node ensures t.IndexEntry(k) {
      assert s.IndexEntry(k);
    }
    forall m | t.tree.Live(m) && m != t.tree.root && t.Indexed(m)
      ensures t.tree.Real(t.tree.nodes[m].parent) && t.Indexed(t.tree.nodes[m].parent)
    {
      assert s.IndexEntry(t.tree.HeadOf(m).number);
      assert s.tree.Live(m) && s.Indexed(m) && s.tree.nodes[m].parent == t.tree.nodes[m].parent;
    }
  }

  lemma LinkedSerials(s: State, n: Node, voted: Option<seq<string>>)
    requires Verified(s, n) && s.tree.Real(s.head) && s.Serials()
    requires s.SerialShape(n) && 0 <= s.notes[n].serialNum < BLOCKS_PER_WITNESS
    ensures Linked(s, n, voted).Serials()
  {
    LinkedChained(s, n, voted);
    var t := Linked(s, n, voted);
    forall m | t.tree.Live(m) && m != t.tree.root ensures t.SerialShape(m) {
      if m != n {
        LiveParent(s, m);
        assert s.SerialShape(m);
      }
    }
  }

  lemma LinkedKeepsInv(s: State, n: Node, voted: Option<seq<string>>)
    requires CanLink(s, n)
    ensures Linked(s, n, voted).Inv()
  {
    LinkedTree(s, n, voted);
    LinkedChained(s, n, voted);
    LinkedLeaves(s, n, voted);
    LinkedWitnesses(s, n, voted);
    LinkedHead(s, n, voted);
    LinkedIndex(s, n, voted);
    LinkedSerials(s, n, voted);
  }

  // ---------------------------------------------------------------- switch of the active list

  lemma SwitchedChained(s: State, n: Node)
    requires s.Chained() && s.Leaves() && n in s.leaf
    ensures Switched(s, n).Chained()
  {
    var t := Switched(s, n);
    forall m | t.tree.Live(m) && m != t.tree.root ensures t.LinkShape(m) {
      LiveParent(s, m);
      assert s.tree.Placed(m);
    }
  }

  lemma SwitchedWitness(s: State, n: Node)
    requires s.Chained() && s.Witnesses() && s.tree.Live(n) && n != s.tree.root
    requires s.notes[n].active == s.notes[s.tree.nodes[n].parent].active
    ensures Switched(s, n).WitnessShape(n)
  {
    var p, list := s.tree.nodes[n].parent, s.notes[s.tree.root].pending;
    assert s.LinkShape(n) && s.WitnessShape(n);
    ValidWitnessIsActive(s, p);
    RestrictedWitness(s.notes[n].validWitness, s.notes[p].validWitness, s.tree.HeadOf(n).producer, s.notes[n].active,
                      list);
    assert p != n;
  }

  /** No live node hangs below a leaf, so the shape of the other nodes is untouched. */
  lemma SwitchedOtherWitness(s: State, n: Node, m: Node)
    requires s.Chained() && s.Leaves() && s.Witnesses() && n in s.leaf && s.tree.Live(m) && m != s.tree.root && m != n
    ensures Switched(s, n).WitnessShape(m)
  {
    hide NoDup;
    assert s.tree.Placed(m) && s.WitnessShape(m);
    assert s.tree.nodes[m].parent != n;
  }

  lemma SwitchedLists(s: State, n: Node)
    requires s.Leaves() && s.Witnesses() && n in s.leaf
    ensures forall m :: s.tree.Live(m) ==>
              var list := Switched(s, n).notes[m].validWitness; NoDup(list) && "" !in list
  {
    hide NoDup;
    RestrictedElems(s.notes[n].validWitness, s.notes[s.tree.root].pending);
  }

  lemma SwitchedWitnesses(s: State, n: Node)
    requires s.Chained() && s.Leaves() && s.Witnesses() && n in s.leaf
    requires n != s.tree.root ==> s.notes[n].active == s.notes[s.tree.nodes[n].parent].active
    ensures Switched(s, n).Witnesses()
  {
    hide NoDup;
    SwitchedLists(s, n);
    var t := Switched(s, n);
    forall m | t.tree.Live(m) && m != t.tree.root ensures t.WitnessShape(m) {
      if m == n {
        SwitchedWitness(s, n);
      } else {
        SwitchedOtherWitness(s, n, m);
      }
    }
  }

  lemma SwitchedSerials(s: State, n: Node)
    requires s.Serials() && s.Leaves() && n in s.leaf
    ensures Switched(s, n).Serials()
  {
    SwitchedChained(s, n);
    var t := Switched(s, n);
    forall m | t.tree.Live(m) && m != t.tree.root ensures t.SerialShape(m) {
      assert s.tree.Live(m) && s.SerialShape(m);
    }
  }

  lemma SwitchedKeepsInv(s: State, n: Node)
    requires CanSwitch(s, n)
    ensures Switched(s, n).Inv()
  {
    SwitchedChained(s, n);
    SwitchedWitnesses(s, n);
    SwitchedSerials(s, n);
    SameTreeInv(s, Switched(s, n));
  }
}
