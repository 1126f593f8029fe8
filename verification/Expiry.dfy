/** Every ordinary transaction of a block that a run links is in time for its block. */
module Expiry {
  import opened Options
  import opened Blocks
  import opened BlockTree
  import opened BlockTreeLink
  import opened CacheRuns
  import opened TreeFacts
  import opened Replay
  import opened ChainRuns

  ghost predicate Timed(b: Block) {
    forall i, t :: Ordinary(b, i, t) ==> t.InTime(b.head.time)
  }

  lemma PassingIsTimed(list: BlockIndex, blk: Block, parent: Block)
    requires TxsPass(list, blk, parent)
    ensures Timed(blk)
  {
    forall i, t | Ordinary(blk, i, t) ensures t.InTime(blk.head.time) {
      TimesExact(t, blk.head.time);
    }
  }

  /** The blocks on the chains that end in live blocks. */
  ghost predicate Known(s: State, b: Block) {
    b in s.chain || exists n :: n in s.tree.nodes && s.tree.Live(n) && s.tree.nodes[n].block == Some(b)
  }

  /** All of them are in time but those that were there at the start. */
  ghost predicate InTimeSince(s: State, start: State) {
    forall b :: Known(s, b) && !Known(start, b) ==> Timed(b)
  }

  lemma QuietKnows(s: State, t: State, b: Block)
    requires SameLive(s, t) && s.Shape() && Known(t, b)
    ensures Known(s, b)
  {
    if b !in t.chain {
      var n :| n in t.tree.nodes && t.tree.Live(n) && t.tree.nodes[n].block == Some(b);
      assert s.tree.Live(n) && s.tree.Hashed(n);
    }
  }

  lemma AdvanceKnows(s: State, c: Node, t: State, b: Block)
    requires Moved(s, c, t) && Known(t, b)
    ensures Known(s, b)
  {
    assert s.tree.Hashed(c);
    if b in t.chain {
      if b !in s.chain {
        assert s.tree.nodes[c].block == Some(b);
      }
    } else {
      var n :| n in t.tree.nodes && t.tree.Live(n) && t.tree.nodes[n].block == Some(b);
      UnderKept(s, t, c, n);
    }
  }

  lemma AcceptKnows(s: State, n: Node, t: State, b: Block)
    requires Grows(s, n, t) && Known(t, b)
    ensures Known(s, b) || s.tree.nodes[n].block == Some(b)
  {
    if b !in t.chain {
      var m :| m in t.tree.nodes && t.tree.Live(m) && t.tree.nodes[m].block == Some(b);
    }
  }

  lemma EventKnows(w: World, e: Event, v: World, b: Block)
    requires ChainRuns.Inv(w) && Happens(w, e, v) && Known(v.cache, b)
    ensures Known(w.cache, b) || Timed(b)
  {
    hide State.Inv, Timed, Known, TxsPass, Genuine, Pooled, AllClean;
    match e
    case Move(step) =>
      StepKeepsInv(w.cache, step, v.cache);
      MoveKnows(w.cache, step, v.cache, b);
    case Accept(n, voted) =>
      LinkVerified(w.cache, n, voted, v.cache);
      LinkGrows(w.cache, n, voted);
      AcceptKnows(w.cache, n, v.cache, b);
      PassingIsTimed(w.list, w.cache.tree.nodes[n].block.value,
                     w.cache.tree.nodes[w.cache.tree.nodes[n].parent].block.value);
    case Pool =>
    case Clear =>
  }

  lemma LinkVerified(s: State, n: Node, voted: Option<seq<string>>, t: State)
    requires Does(s, Link(n, voted), t)
    ensures Verified(s, n) && s.tree.Real(s.head) && t == Linked(s, n, voted) && s.tree.Real(n)
  {
    assert s.tree.Hashed(n);
  }

  lemma MoveKnows(s: State, step: Step, t: State, b: Block)
    requires s.Inv() && t.Inv() && Does(s, step, t) && !step.Link? && Known(t, b)
    ensures Known(s, b)
  {
    hide Known;
    if step.Advance? {
      AdvanceMoves(s, Branch(s, step.node), t);
      AdvanceKnows(s, Branch(s, step.node), t, b);
    } else {
      QuietSameLive(s, step, t);
      QuietKnows(s, t, b);
    }
  }

  lemma {:induction false} RunInTime(h: History, w: World, v: World, i: nat)
    requires Leads(h, w, v) && ChainRuns.Inv(w) && i <= |h.events|
    ensures InTimeSince(h.worlds[i].cache, w.cache)
  {
    hide ChainRuns.Inv, Happens, Known, Timed;
    if i > 0 {
      RunInTime(h, w, v, i - 1);
      RunKeepsInv(h, w, v, i - 1);
      var a, z := h.worlds[i - 1], h.worlds[i];
      assert Happens(a, h.events[i - 1], z);
      forall b | Known(z.cache, b) && !Known(w.cache, b) ensures Timed(b) {
        EventKnows(a, h.events[i - 1], z, b);
      }
    }
  }

  lemma {:induction false} AncestryKnown(s: State, n: Node, k: nat)
    requires s.Chained() && s.tree.Live(n) && k < |Ancestry(s, n)|
    ensures Known(s, Ancestry(s, n)[k])
    decreases Depth(s.tree.nodes[n].key)
  {
    if k >= |s.chain| {
      assert s.LinkShape(n) && s.tree.Hashed(n);
      var p := s.tree.nodes[n].parent;
      assert Ancestry(s, n) == Ancestry(s, p) + [s.tree.nodes[n].block.value];
      if k < |Ancestry(s, p)| {
        AncestryKnown(s, p, k);
      }
    }
  }

  /**
   Nothing expires: after any run, on the whole chain that ends in any live block, every ordinary transaction of a
   block that was not there at the start has arrived, has not expired and is at most 90 seconds old at the time of
   its block.
   */
  lemma NothingExpiresOnAnyRun(h: History, w: World, v: World, n: Node, k: nat, i: int, t: Tx)
    requires Leads(h, w, v) && ChainRuns.Inv(w) && v.cache.tree.Live(n)
    requires v.cache.Chained() && k < |Ancestry(v.cache, n)| && !Known(w.cache, Ancestry(v.cache, n)[k])
    requires Ordinary(Ancestry(v.cache, n)[k], i, t)
    ensures var b := Ancestry(v.cache, n)[k];
            t.time <= b.head.time < t.expiration && b.head.time - t.time <= 90_000_000_000
  {
    RunInTime(h, w, v, |h.events|);
    AncestryKnown(v.cache, n, k);
  }
}
