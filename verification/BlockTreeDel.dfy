/** Removing subtrees one after the other, as the recursive deletions of the cache do. */
module BlockTreeDel {
  import opened Blocks
  import opened BlockTree
  import opened BlockTreeAdd
  import opened BlockTreeLink

  /** The cached nodes at or below one of `tops`. */
  ghost function Below(t: Tree, tops: set<Node>): set<Node>
    requires t.Shape()
  {
    set n | n in t.cached && exists x :: x in tops && t.Under(x, n)
  }

  lemma {:induction false} UnderDepth(t: Tree, a: Node, n: Node)
    requires t.Shape() && t.Present(n) && t.Under(a, n)
    ensures t.Present(a) && (a != n ==> Depth(t.nodes[a].key) < Depth(t.nodes[n].key))
    decreases Depth(t.nodes[n].key)
  {
    if a != n {
      assert t.Placed(n);
      UnderDepth(t, a, t.nodes[n].parent);
    }
  }

  lemma SiblingsApart(t: Tree, p: Node, x: Node, y: Node)
    requires t.Shape() && t.Present(p) && x in t.nodes[p].children && y in t.nodes[p].children && x != y
    ensures !t.Under(x, y)
  {
    assert t.nodes[x].parent == p && t.nodes[y].parent == p;
    assert t.Placed(x);
    if t.Under(x, y) {
      UnderDepth(t, x, p);
    }
  }

  lemma BelowCanPrune(t: Tree, tops: set<Node>)
    requires t.Shape() && forall x :: x in tops ==> !t.Under(x, t.root)
    ensures CanPrune(t, Below(t, tops))
  {
    var dead := Below(t, tops);
    forall p, c | p in dead && c in t.nodes[p].children ensures c in dead {
      var x :| x in tops && t.Under(x, p);
      assert t.nodes[c].parent == p;
      assert t.Under(x, c);
    }
  }

  /** Pruning elsewhere does not change who is an ancestor of whom. */
  lemma {:induction false} UnderPruned(t: Tree, dead: set<Node>, a: Node, n: Node)
    requires CanPrune(t, dead) && Pruned(t, dead).Shape() && t.Present(n) && n !in dead
    ensures Pruned(t, dead).Present(n)
    ensures Pruned(t, dead).Under(a, n) == t.Under(a, n)
    decreases Depth(t.nodes[n].key)
  {
    var p := t.nodes[n].parent;
    if n != a && p != null {
      assert t.Placed(n);
      UnderPruned(t, dead, a, p);
    }
  }

  lemma PrunedTwice(t: Tree, d: set<Node>, e: set<Node>)
    requires d <= t.cached && e <= t.cached - d && t.cached !! t.virtuals
    ensures Pruned(Pruned(t, d), e) == Pruned(t, d + e)
  {
    var u, v := Pruned(Pruned(t, d), e), Pruned(t, d + e);
    assert u.cached == v.cached;
    assert u.nodes.Keys == v.nodes.Keys;
    forall m | m in u.nodes ensures u.nodes[m] == v.nodes[m] {
      if m !in d + e && t.Present(m) {
        assert t.nodes[m].children - d - e == t.nodes[m].children - (d + e);
      }
    }
  }

  lemma DetachedNothing(s: State)
    requires s.tree.Shape()
    ensures Below(s.tree, {}) == {} && Detached(s, {}) == s
  {
    var d := Detached(s, {});
    forall m | m in s.tree.nodes ensures d.tree.nodes[m] == s.tree.nodes[m] {
      assert s.tree.nodes[m].children - {} == s.tree.nodes[m].children;
    }
    assert d.tree.nodes == s.tree.nodes;
    assert d.leaf == s.leaf;
  }

  /** One more subtree removed. */
  lemma DetachedNext(s: State, tops: set<Node>, c: Node)
    requires s.tree.Shape() && c in s.tree.cached
    requires forall x :: x in tops + {c} ==> !s.tree.Under(x, s.tree.root)
    requires forall x :: x in tops ==> !s.tree.Under(x, c)
    ensures var d := Detached(s, Below(s.tree, tops));
            && d.tree.Shape() && c in d.tree.cached && c != s.tree.root
            && d.tree.Subtree(c) <= s.tree.Subtree(c)
            && Detached(d, d.tree.Subtree(c)) == Detached(s, Below(s.tree, tops + {c}))
  {
    var t, dead := s.tree, Below(s.tree, tops);
    BelowCanPrune(t, tops);
    PrunedShape(t, dead);
    var u := Pruned(t, dead);
    var e := u.Subtree(c);
    forall n | n in u.cached ensures n in e <==> t.Under(c, n) {
      UnderPruned(t, dead, c, n);
    }
    assert dead + e == Below(t, tops + {c}) by {
      forall n | n in t.cached ensures n in dead + e <==> n in Below(t, tops + {c}) {
        if n in Below(t, tops + {c}) && n !in dead {
          var x :| x in tops + {c} && t.Under(x, n);
          assert x == c;
        }
      }
    }
    PrunedTwice(t, dead, e);
    assert s.leaf - dead - e == s.leaf - (dead + e);
  }

  /** The same for the children of one node. */
  lemma DetachedNextChild(s: State, p: Node, gone: set<Node>, c: Node)
    requires s.tree.Shape() && s.tree.Present(p)
    requires gone + {c} <= s.tree.nodes[p].children && c !in gone
    ensures var d := Detached(s, Below(s.tree, gone));
            && d.tree.Shape() && c in d.tree.cached && c != d.tree.root
            && d.tree.Subtree(c) <= s.tree.Subtree(c)
            && Detached(d, d.tree.Subtree(c)) == Detached(s, Below(s.tree, gone + {c}))
  {
    forall x | x in gone + {c} ensures !s.tree.Under(x, s.tree.root) {
      assert s.tree.nodes[x].parent == p && s.tree.nodes[s.tree.root].parent == null;
    }
    forall x | x in gone ensures !s.tree.Under(x, c) {
      SiblingsApart(s.tree, p, x, c);
    }
    DetachedNext(s, gone, c);
  }

  lemma SubtreeOfChild(t: Tree, n: Node, c: Node)
    requires t.Shape() && n in t.cached && c in t.nodes[n].children
    ensures c in t.cached && t.Subtree(c) < t.Subtree(n)
  {
    assert t.nodes[c].parent == n && t.Placed(c);
    forall m | m in t.Subtree(c) ensures m in t.Subtree(n) {
      UnderStep(t, n, c, m);
    }
    assert n !in t.Subtree(c) by {
      if t.Under(c, n) {
        UnderDepth(t, c, n);
      }
    }
    assert t.Under(n, n);
  }

  /** A proper descendant of n lies at or below a child of n. */
  lemma {:induction false} UnderChild(t: Tree, n: Node, m: Node) returns (x: Node)
    requires t.Shape() && t.Present(m) && t.Under(n, m) && n != m
    ensures t.Present(n) && x in t.nodes[n].children && t.Under(x, m)
    decreases Depth(t.nodes[m].key)
  {
    assert t.Placed(m);
    var p := t.nodes[m].parent;
    if p == n {
      x := m;
    } else {
      x := UnderChild(t, n, p);
    }
  }

  lemma BelowChildren(t: Tree, n: Node)
    requires t.Shape() && n in t.cached
    ensures Below(t, t.nodes[n].children) == t.Subtree(n) - {n}
  {
    forall m | m in t.cached ensures m in Below(t, t.nodes[n].children) <==> m in t.Subtree(n) - {n} {
      if m in Below(t, t.nodes[n].children) {
        var x :| x in t.nodes[n].children && t.Under(x, m);
        assert t.nodes[x].parent == n;
        UnderStep(t, n, x, m);
        assert t.Placed(x);
        UnderDepth(t, x, m);
      } else if m in t.Subtree(n) - {n} {
        var x := UnderChild(t, n, m);
      }
    }
  }

  lemma {:induction false} UnderStep(t: Tree, n: Node, x: Node, m: Node)
    requires t.Shape() && t.Present(m) && t.Under(x, m) && t.Present(x) && t.nodes[x].parent == n
    ensures t.Under(n, m)
    decreases Depth(t.nodes[m].key)
  {
    if m != x {
      UnderStep(t, n, x, t.nodes[m].parent);
    }
  }

  /** A leaf of the tree leaves it. */
  ghost function Unhooked(s: State, n: Node): State
    requires n in s.tree.nodes && s.tree.nodes[n].parent != null && s.tree.nodes[n].parent in s.tree.nodes
  {
    var p := s.tree.nodes[n].parent;
    s.(tree := s.tree.(nodes := s.tree.nodes[p := s.tree.nodes[p].(children := s.tree.nodes[p].children - {n})]
                                            [n := s.tree.nodes[n].(parent := null)],
                       cached := s.tree.cached - {n}),
       leaf := s.leaf - {n})
  }

  lemma UnhookedIsDetached(s: State, n: Node)
    requires s.tree.Shape() && n in s.tree.cached && n != s.tree.root && s.tree.nodes[n].children == {}
    ensures s.tree.nodes[n].parent != null && s.tree.nodes[n].parent != n
    ensures Unhooked(s, n) == Detached(s, {n})
  {
    assert s.tree.Placed(n);
    assert Depth(s.tree.nodes[s.tree.nodes[n].parent].key) < Depth(s.tree.nodes[n].key);
    var u, v := Unhooked(s, n), Detached(s, {n});
    assert u.tree.nodes.Keys == v.tree.nodes.Keys;
    forall m | m in u.tree.nodes ensures u.tree.nodes[m] == v.tree.nodes[m] {
      if m != n && m != s.tree.nodes[n].parent && s.tree.Present(m) {
        assert n !in s.tree.nodes[m].children;
      }
    }
  }

  /** del: once the children are gone, removing n completes the removal of its subtree. */
  lemma DetachedLast(s: State, n: Node)
    requires s.tree.Shape() && n in s.tree.cached && n != s.tree.root
    ensures var d := Detached(s, Below(s.tree, s.tree.nodes[n].children));
            && d.tree.Shape() && n in d.tree.cached && d.tree.nodes[n].children == {}
            && d.tree.nodes[n].parent == s.tree.nodes[n].parent != null
            && Unhooked(d, n) == Detached(s, s.tree.Subtree(n))
  {
    var t := s.tree;
    var dead := Below(t, t.nodes[n].children);
    assert t.Placed(n);
    BelowChildren(t, n);
    forall x | x in t.nodes[n].children ensures !t.Under(x, t.root) {
      assert t.nodes[x].parent == n;
      assert t.nodes[t.root].parent == null;
    }
    BelowCanPrune(t, t.nodes[n].children);
    PrunedShape(t, dead);
    forall x | x in t.nodes[n].children ensures x in dead {
      assert t.Under(x, x);
    }
    UnhookedIsDetached(Detached(s, dead), n);
    PrunedTwice(t, dead, {n});
    assert dead + {n} == t.Subtree(n) by {
      assert t.Under(n, n);
    }
    assert s.leaf - dead - {n} == s.leaf - t.Subtree(n);
  }

  /** The siblings of c and their descendants are what lies below the other children of the root. */
  lemma SiblingsAreBelow(t: Tree, c: Node)
    requires t.Shape() && c in t.nodes[t.root].children
    ensures Siblings(t, c) == Below(t, t.nodes[t.root].children - {c})
  {
    assert t.nodes[c].parent == t.root && t.nodes[t.root].parent == null;
    forall n | n in t.cached ensures n in Siblings(t, c) <==> n in Below(t, t.nodes[t.root].children - {c}) {
      if n in Siblings(t, c) {
        var x := UnderChild(t, t.root, n);
      }
      if n in Below(t, t.nodes[t.root].children - {c}) {
        var x :| x in t.nodes[t.root].children - {c} && t.Under(x, n);
        assert t.nodes[x].parent == t.root;
        UnderStep(t, t.root, x, n);
        OneChildOnly(t, x, c, n);
      }
    }
  }

  lemma {:induction false} OneChildOnly(t: Tree, x: Node, c: Node, n: Node)
    requires t.Shape() && t.Present(n) && t.Under(x, n)
    requires x in t.nodes[t.root].children && c in t.nodes[t.root].children && x != c
    ensures !t.Under(c, n) && n != t.root
    decreases Depth(t.nodes[n].key)
  {
    assert t.nodes[x].parent == t.root && t.nodes[c].parent == t.root && t.nodes[t.root].parent == null;
    if n == x {
      SiblingsApart(t, t.root, c, x);
    } else if n == c {
      SiblingsApart(t, t.root, x, c);
    } else {
      OneChildOnly(t, x, c, t.nodes[n].parent);
    }
  }

  // ---------------------------------------------------------------- orphans

  ghost function OutdatedIn(t: Tree, nodes: set<Node>): set<Node>
    requires t.Shape()
  {
    set x | x in nodes && Outdated(t, x)
  }

  lemma SweptNext(t: Tree, gone: set<Node>, seen: set<Node>, x: Node)
    requires t.Shape()
    ensures gone + OutdatedIn(t, seen + {x}) == gone + OutdatedIn(t, seen) + (if Outdated(t, x) then {x} else {})
    ensures gone + OutdatedIn(t, {}) == gone
    ensures OutdatedIn(t, seen + {x}) != {} <==> OutdatedIn(t, seen) != {} || Outdated(t, x)
  {
    OutdatedInNext(t, seen, x);
  }

  lemma OutdatedInNext(t: Tree, nodes: set<Node>, x: Node)
    requires t.Shape()
    ensures OutdatedIn(t, nodes + {x}) == OutdatedIn(t, nodes) + (if Outdated(t, x) then {x} else {})
    ensures OutdatedIn(t, {}) == {}
  {
  }

  /** An outdated orphan is below no other cached node, nor is the root below it. */
  lemma OutdatedApart(t: Tree, x: Node, y: Node)
    requires t.Shape() && x in t.cached && y in t.cached && x != y
    requires t.nodes[y].parent != null && t.nodes[y].parent in t.virtuals
    ensures !t.Under(x, y)
  {
    assert t.nodes[t.nodes[y].parent].parent == null;
  }

  lemma OutdatedNotRoot(t: Tree, x: Node)
    requires t.Shape() && Outdated(t, x)
    ensures !t.Under(x, t.root)
  {
    assert t.nodes[t.root].parent == null;
  }

  lemma OutdatedNext(s: State, gone: set<Node>, c: Node)
    requires s.tree.Shape() && (forall x :: x in gone ==> Outdated(s.tree, x)) && Outdated(s.tree, c) && c !in gone
    ensures var d := Detached(s, Below(s.tree, gone));
            && d.tree.Shape() && c in d.tree.cached && c != s.tree.root
            && Detached(d, d.tree.Subtree(c)) == Detached(s, Below(s.tree, gone + {c}))
  {
    forall x | x in gone + {c} ensures !s.tree.Under(x, s.tree.root) {
      OutdatedNotRoot(s.tree, x);
    }
    forall x | x in gone ensures !s.tree.Under(x, c) {
      OutdatedApart(s.tree, x, c);
    }
    DetachedNext(s, gone, c);
  }

  /** The children of a virtual node that remain once the outdated orphans in `gone` are removed. */
  lemma RemainingChildren(s: State, gone: set<Node>, v: Node)
    requires s.tree.Shape() && v in s.tree.virtuals && forall x :: x in gone ==> Outdated(s.tree, x)
    ensures Detached(s, Below(s.tree, gone)).tree.nodes[v].children == s.tree.nodes[v].children - gone
  {
    forall y | y in s.tree.nodes[v].children ensures y in Below(s.tree, gone) <==> y in gone {
      assert s.tree.nodes[y].parent == v;
      assert s.tree.Under(y, y);
      if y in Below(s.tree, gone) {
        var x :| x in gone && s.tree.Under(x, y);
        if x != y {
          OutdatedApart(s.tree, x, y);
        }
      }
    }
  }

  lemma EmptiedVirtual(t: Tree, v: Node)
    requires t.Shape() && v in t.virtuals
    ensures v in OutdatedVirtuals(t) <==>
              OutdatedIn(t, t.nodes[v].children) != {} && t.nodes[v].children - OutdatedIn(t, t.nodes[v].children) == {}
  {
    var kids := t.nodes[v].children;
    assert kids == kids * OutdatedIn(t, kids) + (kids - OutdatedIn(t, kids));
    if v in OutdatedVirtuals(t) {
      assert kids == OutdatedIn(t, kids);
    }
  }

  /** The outdated orphans below the virtual nodes in `seen`. */
  ghost function OutdatedUnder(t: Tree, seen: set<Node>): set<Node>
    requires t.Shape()
  {
    set x | x in t.cached && Outdated(t, x) && t.nodes[x].parent in seen
  }

  lemma OutdatedUnderNext(t: Tree, seen: set<Node>, v: Node)
    requires t.Shape() && v in t.virtuals
    ensures OutdatedUnder(t, seen + {v}) == OutdatedUnder(t, seen) + OutdatedIn(t, t.nodes[v].children)
    ensures OutdatedUnder(t, {}) == {}
  {
    forall x | x in t.cached && Outdated(t, x) && t.nodes[x].parent == v ensures x in t.nodes[v].children {
      assert t.Placed(x);
    }
    forall x | x in t.nodes[v].children ensures t.nodes[x].parent == v {
    }
  }

  /** The virtual nodes whose hashes have been visited. */
  ghost function Visited(t: Tree, todo: set<Hash>): set<Node>
    requires t.Shape()
  {
    set v | v in t.virtuals && t.nodes[v].key !in todo
  }

  /** delSingle visits one more virtual node. */
  lemma VisitedNext(s: State, todo: set<Hash>, v: Node)
    requires s.tree.Shape() && v in s.tree.virtuals && s.tree.nodes[v].key in todo
    requires forall u :: u in s.tree.virtuals && s.tree.nodes[u].key == s.tree.nodes[v].key ==> u == v
    ensures OutdatedUnder(s.tree, Visited(s.tree, todo - {s.tree.nodes[v].key}))
            == OutdatedUnder(s.tree, Visited(s.tree, todo)) + OutdatedIn(s.tree, s.tree.nodes[v].children)
    ensures forall x :: x in OutdatedUnder(s.tree, Visited(s.tree, todo)) ==>
            Outdated(s.tree, x) && s.tree.nodes[x].parent != v
  {
    assert Visited(s.tree, todo - {s.tree.nodes[v].key}) == Visited(s.tree, todo) + {v};
    OutdatedUnderNext(s.tree, Visited(s.tree, todo), v);
  }

  lemma OutdatedUnderAll(t: Tree)
    requires t.Shape()
    ensures Below(t, OutdatedUnder(t, t.virtuals)) == OutdatedNodes(t)
  {
    forall n | n in t.cached ensures n in OutdatedNodes(t) <==> n in Below(t, OutdatedUnder(t, t.virtuals)) {
      if n in OutdatedNodes(t) {
        var x :| x in t.cached && Outdated(t, x) && t.Under(x, n);
        assert x in OutdatedUnder(t, t.virtuals);
      }
    }
  }

  lemma CachedNode(t: Tree, n: Node)
    requires t.Shape() && n in t.cached
    ensures n in t.nodes && t.Present(n) && t.Real(n)
  {
    assert t.Hashed(n);
  }

  lemma RootIsPresent(t: Tree)
    requires t.Shape()
    ensures t.Present(t.root) && t.root in t.nodes
  {
  }
}
