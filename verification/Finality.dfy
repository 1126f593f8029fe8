/** What ValidWitness means, and why a root that moved cannot be contested. */
module Finality {
  import opened Sequences
  import opened Blocks
  import opened BlockTree
  import opened BlockTreeAdd
  import opened BlockTreeLink
  import opened BlockTreeRoot

  // ---------------------------------------------------------------- ValidWitness

  /** Reference: the producers after the root up to n that every active list on the way admits. */
  ghost function Confirmed(s: State, n: Node): set<string>
    requires s.Chained() && s.tree.Live(n)
    decreases Depth(s.tree.nodes[n].key)
  {
    if n == s.tree.root then {}
    else
      assert s.LinkShape(n);
      (Confirmed(s, s.tree.nodes[n].parent) + Named(s.tree.HeadOf(n).producer)) * Elems(s.notes[n].active)
  }

  /** The producers of the blocks after the root up to n. */
  ghost function Producers(s: State, n: Node): set<string>
    requires s.Chained() && s.tree.Live(n)
    decreases Depth(s.tree.nodes[n].key)
  {
    if n == s.tree.root then {}
    else
      assert s.LinkShape(n);
      Producers(s, s.tree.nodes[n].parent) + Named(s.tree.HeadOf(n).producer)
  }

  /** No block after the root up to n changed its active list. */
  ghost predicate NoSwitch(s: State, n: Node)
    requires s.Chained() && s.tree.Live(n)
    decreases Depth(s.tree.nodes[n].key)
  {
    n == s.tree.root ||
    (assert s.LinkShape(n);
     s.notes[n].active == s.notes[s.tree.nodes[n].parent].active && NoSwitch(s, s.tree.nodes[n].parent))
  }

  lemma {:induction false} ValidWitnessExact(s: State, n: Node)
    requires s.Chained() && s.Witnesses() && s.tree.Live(n)
    ensures Elems(s.notes[n].validWitness) == Confirmed(s, n)
    decreases Depth(s.tree.nodes[n].key)
  {
    if n != s.tree.root {
      assert s.LinkShape(n) && s.WitnessShape(n);
      ValidWitnessExact(s, s.tree.nodes[n].parent);
    }
  }

  /** ValidWitness lists only producers after the root, and all of them if no active list was switched. */
  lemma {:induction false} ValidWitnessIsProducers(s: State, n: Node)
    requires s.Chained() && s.Witnesses() && s.tree.Live(n)
    ensures Elems(s.notes[n].validWitness) <= Producers(s, n)
    ensures NoSwitch(s, n) ==> Elems(s.notes[n].validWitness) == Producers(s, n)
    decreases Depth(s.tree.nodes[n].key)
  {
    if n != s.tree.root {
      assert s.LinkShape(n) && s.WitnessShape(n);
      var p := s.tree.nodes[n].parent;
      ValidWitnessIsProducers(s, p);
      ValidWitnessIsActive(s, p);
    }
  }

  // ---------------------------------------------------------------- quorums

  lemma {:induction false} NoDupCardinality(v: seq<string>)
    requires NoDup(v)
    ensures |Elems(v)| == |v|
  {
    if v != [] {
      var u := v[..|v| - 1];
      NoDupCardinality(u);
      assert v == u + [v[|v| - 1]];
      assert Elems(v) == Elems(u) + {v[|v| - 1]};
    }
  }

  /** n's branch above the root holds a block by w. */
  ghost predicate Owns(s: State, c: Node, n: Node, w: string)
    requires s.tree.Shape() && s.tree.Present(n)
  {
    exists m :: m in s.tree.nodes && s.tree.Live(m) && s.tree.Under(c, m) && s.tree.Under(m, n) &&
        s.tree.HeadOf(m).producer == w
  }

  lemma {:induction false} ProducerOwnsBlock(s: State, n: Node, w: string)
    requires s.Chained() && s.tree.Live(n) && n != s.tree.root && w in Producers(s, n)
    ensures Owns(s, Branch(s, n), n, w)
    decreases Depth(s.tree.nodes[n].key)
  {
    assert s.LinkShape(n);
    var p := s.tree.nodes[n].parent;
    if w == s.tree.HeadOf(n).producer {
      assert s.tree.Under(n, n);
    } else {
      ProducerOwnsBlock(s, p, w);
      var m :| m in s.tree.nodes && s.tree.Live(m) && s.tree.Under(Branch(s, p), m) && s.tree.Under(m, p) &&
          s.tree.HeadOf(m).producer == w;
      assert s.tree.Under(m, n);
    }
  }

  /** A root only moves when two thirds of the pending producers, each once, confirmed the new root. */
  lemma AdvanceHasQuorum(s: State, n: Node)
    requires CanAdvance(s, n)
    ensures var quorum := Elems(s.notes[n].validWitness);
            && quorum <= Elems(s.notes[s.tree.root].pending)
            && |quorum| >= ConfirmLimit(s.witnessNum)
            && forall w :: w in quorum ==> Owns(s, Branch(s, n), n, w)
  {
    NoDupCardinality(s.notes[n].validWitness);
    ValidWitnessIsActive(s, n);
    ValidWitnessIsProducers(s, n);
    forall w | w in Elems(s.notes[n].validWitness) ensures Owns(s, Branch(s, n), n, w) {
      ProducerOwnsBlock(s, n, w);
    }
  }

  /** The limit is the least number of producers that is more than two thirds of them. */
  lemma ConfirmLimitExact(n: nat, k: int)
    ensures k >= ConfirmLimit(n) <==> 3 * k > 2 * n
  {
  }

  /** The root may move exactly if more than two thirds of the producers confirm n, under the root's pending list. */
  lemma CanAdvanceExact(s: State, n: Node)
    requires s.Inv() && s.tree.Live(n) && s.witnessNum >= 0
    ensures CanAdvance(s, n) <==>
            && n != s.tree.root && s.notes[n].active == s.notes[s.tree.root].pending
            && 3 * |Confirmed(s, n)| > 2 * s.witnessNum
  {
    ValidWitnessExact(s, n);
    NoDupCardinality(s.notes[n].validWitness);
    ConfirmLimitExact(s.witnessNum, |s.notes[n].validWitness|);
  }

  /** Two quorums of the same list of producers share more than a third of it. */
  lemma QuorumsIntersect(q: set<string>, r: set<string>, producers: seq<string>)
    requires NoDup(producers)
    requires q <= Elems(producers) && r <= Elems(producers)
    requires |q| >= ConfirmLimit(|producers|) && |r| >= ConfirmLimit(|producers|)
    ensures 3 * |q * r| > |producers|
  {
    NoDupCardinality(producers);
    Included(q + r, Elems(producers));
    assert |q + r| == |q| + |r| - |q * r|;
  }

  lemma {:induction false} Included(a: set<string>, b: set<string>)
    requires a <= b
    ensures |a| <= |b|
  {
    if a != {} {
      var x :| x in a;
      Included(a - {x}, b - {x});
    }
  }

  /**
   If two caches whose roots carry the same pending list each move their root, more than a third of
   the listed producers made a block on the branches that both moves confirmed.
   */
  lemma ConflictNeedsAThird(s: State, n: Node, t: State, m: Node) returns (both: set<string>)
    requires CanAdvance(s, n) && CanAdvance(t, m)
    requires s.notes[s.tree.root].pending == t.notes[t.tree.root].pending
    requires NoDup(s.notes[s.tree.root].pending)
    requires s.witnessNum == t.witnessNum == |s.notes[s.tree.root].pending|
    ensures 3 * |both| > s.witnessNum
    ensures both <= Elems(s.notes[s.tree.root].pending)
    ensures forall w :: w in both ==> Owns(s, Branch(s, n), n, w) && Owns(t, Branch(t, m), m, w)
  {
    AdvanceHasQuorum(s, n);
    AdvanceHasQuorum(t, m);
    var q, r := Elems(s.notes[n].validWitness), Elems(t.notes[m].validWitness);
    QuorumsIntersect(q, r, s.notes[s.tree.root].pending);
    both := q * r;
  }
}
