/** removeValidWitness as a recursion over children. */
module BlockTreeStrip {
  import opened Blocks
  import opened BlockTree
  import opened BlockTreeDel

  /** The nodes that removeValidWitness(r) reaches from one of `tops`. */
  ghost function ExposedFrom(t: Tree, tops: set<Node>, r: Node): set<Node>
    requires t.Shape() && r in t.cached
  {
    set n | n in t.cached && exists x :: x in tops && n in Exposed(t, x, r)
  }

  /** A path from b to n passes through a child of b. */
  lemma {:induction false} ShieldedVia(t: Tree, b: Node, x: Node, r: Node, n: Node)
    requires t.Shape() && r in t.cached && b in t.cached && x in t.nodes[b].children
    requires n in t.cached && t.Under(x, n)
    ensures Shielded(t, b, r, n) <==> Shielded(t, x, r, n) || (b != r && t.HeadOf(b).producer == t.HeadOf(r).producer)
    decreases Depth(t.nodes[n].key)
  {
    assert t.nodes[x].parent == b && t.Placed(x) && t.Placed(n);
    UnderDepth(t, x, n);
    if n != x {
      var p := t.nodes[n].parent;
      assert p == x || t.nodes[p].parent != null;
      ShieldedVia(t, b, x, r, p);
    }
  }

  lemma ExposedStops(t: Tree, b: Node, r: Node)
    requires t.Shape() && r in t.cached && b in t.cached
    requires b != r && t.HeadOf(b).producer == t.HeadOf(r).producer
    ensures Exposed(t, b, r) == {}
  {
    forall n | n in t.cached && t.Under(b, n) ensures Shielded(t, b, r, n) {
      if n != b {
        var x := UnderChild(t, b, n);
        ShieldedVia(t, b, x, r, n);
      }
    }
  }

  lemma ExposedRecursion(t: Tree, b: Node, r: Node)
    requires t.Shape() && r in t.cached && b in t.cached
    requires b == r || t.HeadOf(b).producer != t.HeadOf(r).producer
    ensures Exposed(t, b, r) == {b} + ExposedFrom(t, t.nodes[b].children, r)
  {
    assert t.Under(b, b);
    forall n | n in t.cached && n != b
      ensures n in Exposed(t, b, r) <==> n in ExposedFrom(t, t.nodes[b].children, r)
    {
      if n in Exposed(t, b, r) {
        var x := UnderChild(t, b, n);
        ShieldedVia(t, b, x, r, n);
        assert n in Exposed(t, x, r);
      }
      if n in ExposedFrom(t, t.nodes[b].children, r) {
        var x :| x in t.nodes[b].children && n in Exposed(t, x, r);
        ShieldedVia(t, b, x, r, n);
        assert t.nodes[x].parent == b;
        UnderStep(t, b, x, n);
      }
    }
  }

  lemma {:induction false} WithoutTwice(v: seq<string>, w: string)
    ensures Without(Without(v, w), w) == Without(v, w)
  {
    if v != [] {
      WithoutTwice(v[1..], w);
      var rest := Without(v[1..], w);
      if v[0] != w {
        assert Without(v, w)[0] == v[0] && Without(v, w)[1..] == rest;
      } else {
        assert Without(v, w) == rest;
      }
    }
  }

  lemma StrippedTwice(s: State, a: set<Node>, b: set<Node>, w: string)
    ensures Stripped(Stripped(s, a, w), b, w) == Stripped(s, a + b, w)
  {
    var u, v := Stripped(Stripped(s, a, w), b, w), Stripped(s, a + b, w);
    assert u.notes.Keys == v.notes.Keys;
    forall m | m in u.notes ensures u.notes[m] == v.notes[m] {
      WithoutTwice(s.notes[m].validWitness, w);
    }
  }

  lemma StrippedOne(s: State, n: Node, w: string)
    requires n in s.notes
    ensures Stripped(s, {n}, w) == WithNote(s, n, s.notes[n].(validWitness := Without(s.notes[n].validWitness, w)))
  {
    var u, v := Stripped(s, {n}, w), WithNote(s, n, s.notes[n].(validWitness := Without(s.notes[n].validWitness, w)));
    assert u.notes == v.notes;
  }

  lemma ExposedFromNext(t: Tree, tops: set<Node>, c: Node, r: Node)
    requires t.Shape() && r in t.cached
    ensures ExposedFrom(t, tops + {c}, r) == ExposedFrom(t, tops, r) + Exposed(t, c, r)
    ensures ExposedFrom(t, {}, r) == {}
  {
  }

  lemma StrippedNone(s: State, w: string)
    ensures Stripped(s, {}, w) == s
  {
    assert Stripped(s, {}, w).notes == s.notes;
  }

  /** One more child visited. */
  lemma StrippedNext(s: State, gone: set<Node>, c: Node, r: Node, w: string)
    requires s.tree.Shape() && r in s.tree.cached
    ensures Stripped(Stripped(s, ExposedFrom(s.tree, gone, r), w), Exposed(s.tree, c, r), w)
            == Stripped(s, ExposedFrom(s.tree, gone + {c}, r), w)
  {
    ExposedFromNext(s.tree, gone, c, r);
    StrippedTwice(s, ExposedFrom(s.tree, gone, r), Exposed(s.tree, c, r), w);
  }

  /** removeValidWitness on a node it does not stop at: the node, then its children. */
  lemma StrippedAll(s: State, b: Node, r: Node, w: string)
    requires s.tree.Shape() && r in s.tree.cached && b in s.tree.cached && b in s.notes
    requires b == r || s.tree.HeadOf(b).producer != s.tree.HeadOf(r).producer
    ensures var u := WithNote(s, b, s.notes[b].(validWitness := Without(s.notes[b].validWitness, w)));
            Stripped(u, ExposedFrom(s.tree, s.tree.nodes[b].children, r), w) == Stripped(s, Exposed(s.tree, b, r), w)
  {
    StrippedOne(s, b, w);
    ExposedRecursion(s.tree, b, r);
    StrippedTwice(s, {b}, ExposedFrom(s.tree, s.tree.nodes[b].children, r), w);
  }

  lemma StrippedTree(s: State, targets: set<Node>, w: string)
    ensures Stripped(s, targets, w).tree == s.tree
  {
  }

  lemma WithNoteTree(s: State, n: Node, note: Note)
    ensures WithNote(s, n, note).tree == s.tree
  {
  }
}
