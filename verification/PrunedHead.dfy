/** A run of the cache after which the head is no longer part of the tree. */
module PrunedHead {
  import opened Options
  import opened Blocks
  import opened BlockTree
  import opened BlockTreeAdd
  import opened BlockTreeLink
  import opened CacheRuns
  import opened AdvanceFacts
  import opened TreeFacts

  /** Two producers, who take turns. */
  const PAIR: seq<string> := ["A", "B"]

  // ---------------------------------------------------------------- one more block

  /** n is live below p with the block b, and these producers have confirmed it. */
  ghost predicate At(s: State, n: Node, p: Node?, b: Block, witnesses: seq<string>) {
    && s.tree.Live(n) && s.tree.nodes[n].parent == p && s.tree.nodes[n].block == Some(b)
    && n in s.notes && s.notes[n].validWitness == witnesses && s.notes[n].active == s.notes[n].pending == PAIR
  }

  /** b is made by the producer of a new slot, above pb. */
  ghost predicate Follows(b: Block, pb: Block) {
    && ChildOf(b, pb) && pb.head.time >= 0 && b.head.producer == WitnessOf(b.head.time, PAIR)
    && Slot(b.head.time) != Slot(pb.head.time) && b.head.number % VOTE_INTERVAL != 0
  }

  ghost predicate Unseen(s: State, n: Node, b: Block) {
    n !in s.tree.nodes && forall m :: s.tree.Present(m) ==> s.tree.nodes[m].key != b.HeadHash()
  }

  ghost function Arrived(s: State, n: Node, b: Block, p: Node): State
    requires p in s.tree.nodes
  {
    var v := WithVirtual(s, b.HeadHash(), n);
    v.(tree := Filled(v.tree, n, b, p))
  }

  /** A block arrives: a virtual node is made for it and filled. */
  lemma Arrives(s: State, n: Node, b: Block, p: Node, pb: Block)
    requires s.Inv() && s.Finalized() && s.tree.Live(p) && s.tree.nodes[p].block == Some(pb)
    requires Unseen(s, n, b) && b.head.parentHash == pb.HeadHash()
    ensures var t := Arrived(s, n, b, p); Connects(ArrivalTrace(s, n, b, p), s, t) && t.Inv() && t.Finalized()
  {
    hide State.Leaves, State.HeadIsBest, State.IndexClosed, State.Witnesses, State.Serials, State.LinkShape;
    WithVirtualKeepsInv(s, b.HeadHash(), n);
    CanFillNow(s, n, b, p, pb);
    ArrivalConnects(s, n, b, p);
    RunIsSafe(ArrivalTrace(s, n, b, p), s, Arrived(s, n, b, p), 0, 2);
  }

  lemma ArrivalConnects(s: State, n: Node, b: Block, p: Node)
    requires Unseen(s, n, b) && p in s.tree.nodes && CanFill(WithVirtual(s, b.HeadHash(), n).tree, n, b, p)
    ensures Connects(ArrivalTrace(s, n, b, p), s, Arrived(s, n, b, p))
  {
    hide CanFill;
    var tr := ArrivalTrace(s, n, b, p);
    assert Does(tr.states[0], tr.steps[0], tr.states[1]) && Does(tr.states[1], tr.steps[1], tr.states[2]);
  }

  lemma CanFillNow(s: State, n: Node, b: Block, p: Node, pb: Block)
    requires WithVirtual(s, b.HeadHash(), n).tree.Shape() && n !in s.tree.nodes && s.tree.Shape()
    requires s.tree.Live(p) && s.tree.nodes[p].block == Some(pb) && b.head.parentHash == pb.HeadHash()
    ensures CanFill(WithVirtual(s, b.HeadHash(), n).tree, n, b, p)
  {
    assert s.tree.Hashed(p);
  }

  lemma CanLinkNow(s: State, n: Node, b: Block, p: Node, pp: Node?, pb: Block, witnesses: seq<string>)
    requires s.Inv() && At(s, p, pp, pb, witnesses) && Unseen(s, n, b) && Follows(b, pb) && Arrived(s, n, b, p).Inv()
    ensures CanLink(Arrived(s, n, b, p), n)
  {
    var t := Arrived(s, n, b, p);
    assert t.tree.Placed(n) && t.tree.nodes[n].parent == p && t.tree.HeadOf(n) == b.head && t.tree.HeadOf(p) == pb.head;
    assert t.notes[p] == s.notes[p] && t.notes[n] == EMPTY_NOTE;
  }

  ghost function Grown(s: State, n: Node, b: Block, p: Node): State
    requires s.Shape() && s.tree.Real(s.head) && s.tree.Live(p) && n !in s.tree.nodes
  {
    var t := Arrived(s, n, b, p);
    Linked(t, n, None)
  }

  ghost function ArrivalTrace(s: State, n: Node, b: Block, p: Node): Trace
    requires p in s.tree.nodes
  {
    Trace([s, WithVirtual(s, b.HeadHash(), n), Arrived(s, n, b, p)], [NewVirtual(b.HeadHash(), n), Fill(n, b, p)])
  }

  ghost function GrowthTrace(s: State, n: Node, b: Block, p: Node): Trace
    requires s.Shape() && s.tree.Real(s.head) && s.tree.Live(p) && n !in s.tree.nodes
  {
    Then(ArrivalTrace(s, n, b, p), Trace([Arrived(s, n, b, p), Grown(s, n, b, p)], [Link(n, None)]))
  }

  /** What a state and its successor by one block have in common. */
  ghost predicate Keeps(s: State, t: State, n: Node) {
    && t.tree.root == s.tree.root && t.witnessNum == s.witnessNum && t.chain == s.chain
    && t.tree.nodes.Keys == s.tree.nodes.Keys + {n}
    && (forall m :: t.tree.Present(m) ==> m == n || s.tree.Present(m))
    && s.tree.nodes.Keys <= s.notes.Keys && t.tree.nodes.Keys <= t.notes.Keys
    && (forall m :: s.tree.Live(m) ==>
          && t.tree.Live(m) && t.tree.nodes[m].parent == s.tree.nodes[m].parent
          && t.tree.nodes[m].block == s.tree.nodes[m].block && t.notes[m] == s.notes[m])
  }

  lemma StillAt(s: State, t: State, n: Node, m: Node, p: Node?, b: Block, witnesses: seq<string>)
    requires Keeps(s, t, n) && At(s, m, p, b, witnesses)
    ensures At(t, m, p, b, witnesses)
  {
  }

  /** A higher block, or one as high and earlier, becomes the head. */
  ghost function NextHead(s: State, n: Node, b: Block): Node
    requires s.tree.Real(s.head)
  {
    var h := s.tree.HeadOf(s.head);
    if h.number < b.head.number || (h.number == b.head.number && b.head.time < h.time) then n else s.head
  }

  lemma Grows(s: State, n: Node, b: Block, p: Node, pp: Node?, pb: Block, witnesses: seq<string>)
    requires s.Inv() && s.Finalized() && At(s, p, pp, pb, witnesses) && Unseen(s, n, b) && Follows(b, pb)
    ensures s.Shape() && s.tree.Real(s.head)
    ensures var t := Grown(s, n, b, p);
            && Connects(GrowthTrace(s, n, b, p), s, t) && t.Inv() && t.Finalized() && Keeps(s, t, n)
            && At(t, n, p, b, Extended(witnesses, b.head.producer))
            && t.head == NextHead(s, n, b)
  {
    hide *;
    Parts(s, p, pp, pb, witnesses);
    UnseenParts(s, n, b, pb);
    Arrives(s, n, b, p, pb);
    CanLinkNow(s, n, b, p, pp, pb, witnesses);
    GrownConnects(s, n, b, p);
    StepCount(s, n, b, p);
    RunIsSafe(GrowthTrace(s, n, b, p), s, Grown(s, n, b, p), 0, 3);
    GrownKeeps(s, n, b, p);
    GrownAt(s, n, b, p, pp, pb, witnesses);
  }

  lemma Parts(s: State, p: Node, pp: Node?, pb: Block, witnesses: seq<string>)
    requires s.Inv() && At(s, p, pp, pb, witnesses)
    ensures s.Shape() && s.tree.Real(s.head) && s.tree.Live(p) && s.tree.nodes[p].block == Some(pb) && p in s.tree.nodes
  {
  }

  lemma UnseenParts(s: State, n: Node, b: Block, pb: Block)
    requires Unseen(s, n, b) && Follows(b, pb)
    ensures n !in s.tree.nodes && b.head.parentHash == pb.HeadHash()
  {
  }

  lemma GrownConnects(s: State, n: Node, b: Block, p: Node)
    requires s.Shape() && s.tree.Real(s.head) && s.tree.Live(p) && n !in s.tree.nodes
    requires Connects(ArrivalTrace(s, n, b, p), s, Arrived(s, n, b, p)) && CanLink(Arrived(s, n, b, p), n)
    ensures Connects(GrowthTrace(s, n, b, p), s, Grown(s, n, b, p))
  {
    hide State.Shape, CanLink, ArrivalTrace, Arrived;
    var u, t := Arrived(s, n, b, p), Grown(s, n, b, p);
    assert Does(u, Link(n, None), t);
    ConnectsThen(ArrivalTrace(s, n, b, p), Trace([u, t], [Link(n, None)]), s, u, t);
  }

  lemma StepCount(s: State, n: Node, b: Block, p: Node)
    requires s.Shape() && s.tree.Real(s.head) && s.tree.Live(p) && n !in s.tree.nodes
    ensures var tr := GrowthTrace(s, n, b, p); |tr.steps| == 3 && |tr.states| == 4 && tr.states[3] == Grown(s, n, b, p)
  {
    hide Arrived, Grown, WithVirtual;
  }

  lemma GrownAt(s: State, n: Node, b: Block, p: Node, pp: Node?, pb: Block, witnesses: seq<string>)
    requires s.Shape() && s.tree.Real(s.head) && At(s, p, pp, pb, witnesses) && n !in s.tree.nodes && Follows(b, pb)
    ensures var t := Grown(s, n, b, p);
            && At(t, n, p, b, Extended(witnesses, b.head.producer))
            && t.head == NextHead(s, n, b)
  {
    var none: seq<string> := [];
    assert none + Extended(witnesses, b.head.producer) == Extended(witnesses, b.head.producer);
    assert n != s.head;
  }

  lemma GrownKeeps(s: State, n: Node, b: Block, p: Node)
    requires s.Shape() && s.tree.Real(s.head) && s.tree.Live(p) && n !in s.tree.nodes
    ensures Keeps(s, Grown(s, n, b, p), n)
  {
  }

  // ---------------------------------------------------------------- four blocks on two branches

  const GENESIS := Block(BlockHead(Raw(""), 0, "", 0, [], []), [])

  /** A block above `parent`. */
  function Made(parent: Block, producer: string, slot: int): Block
    requires 0 <= slot < 10
  {
    Block(BlockHead(parent.HeadHash(), parent.head.number + 1, producer, slot * SLOT_INTERVAL, [], []), [])
  }

  // A makes two blocks on one branch; B and then A make two on the other.
  const A1 := Made(GENESIS, "A", 2)
  const A2 := Made(A1, "A", 4)
  const B1 := Made(GENESIS, "B", 1)
  const B2 := Made(B1, "A", 6)

  /** The cache holds these blocks and no others. */
  ghost predicate Holds(s: State, blocks: map<Node, Block>) {
    && s.tree.nodes.Keys == blocks.Keys
    && forall m :: s.tree.Present(m) ==> s.tree.Live(m) && m in blocks && s.tree.nodes[m].block == Some(blocks[m])
  }

  lemma HeldIsSeen(s: State, blocks: map<Node, Block>, n: Node, b: Block)
    requires s.Shape() && Holds(s, blocks) && n !in blocks
    requires forall m :: m in blocks ==> blocks[m].head != b.head
    ensures Unseen(s, n, b)
  {
  }

  lemma HoldsMore(s: State, t: State, blocks: map<Node, Block>, n: Node, p: Node, b: Block, witnesses: seq<string>)
    requires Holds(s, blocks) && Keeps(s, t, n) && At(t, n, p, b, witnesses)
    ensures Holds(t, blocks[n := b])
  {
  }

  lemma Starts(root: Node)
    ensures var s := Initial(root, [GENESIS], PAIR);
            s.Inv() && s.Finalized() && At(s, root, null, GENESIS, []) && Holds(s, map[root := GENESIS])
  {
    InitialInv(root, [GENESIS], PAIR);
  }

  /** A run from s led to t, which holds these blocks. */
  ghost predicate Reached(tr: Trace, s: State, t: State, blocks: map<Node, Block>) {
    Connects(tr, s, t) && t.Inv() && t.Finalized() && Holds(t, blocks)
  }

  /** One more block on a run. */
  lemma Continues(tr: Trace, s: State, t: State, blocks: map<Node, Block>,
                  n: Node, b: Block, p: Node, pp: Node?, pb: Block, witnesses: seq<string>)
    returns (more: Trace, u: State)
    requires Reached(tr, s, t, blocks) && At(t, p, pp, pb, witnesses) && Follows(b, pb)
    requires n !in blocks && forall m :: m in blocks ==> blocks[m].head != b.head
    ensures Reached(more, s, u, blocks[n := b]) && Keeps(t, u, n) && t.tree.Real(t.head)
    ensures At(u, n, p, b, Extended(witnesses, b.head.producer)) && u.head == NextHead(t, n, b)
  {
    hide State.Inv, State.Finalized, Grown, Arrived, GrowthTrace, Then, Keeps, Follows, At, NextHead, Connects;
    InvParts(t);
    HeldIsSeen(t, blocks, n, b);
    Grows(t, n, b, p, pp, pb, witnesses);
    UnseenParts(t, n, b, pb);
    Parts(t, p, pp, pb, witnesses);
    StepCount(t, n, b, p);
    u := Grown(t, n, b, p);
    more := Then(tr, GrowthTrace(t, n, b, p));
    ConnectsThen(tr, GrowthTrace(t, n, b, p), s, t, u);
    HoldsMore(t, u, blocks, n, p, b, Extended(witnesses, b.head.producer));
  }

  lemma MadeFollows(pb: Block, slot: int, k: int)
    requires pb.head.time == k * SLOT_INTERVAL && 0 <= k < slot < 10 && 0 <= pb.head.number < 5
    ensures Follows(Made(pb, PAIR[slot % 2], slot), pb)
  {
  }

  lemma KeepsParts(s: State, t: State, n: Node)
    requires Keeps(s, t, n)
    ensures t.tree.root == s.tree.root && t.witnessNum == s.witnessNum && t.chain == s.chain
  {
  }

  lemma AtHead(s: State, n: Node, p: Node?, b: Block, witnesses: seq<string>)
    requires At(s, n, p, b, witnesses)
    ensures s.tree.Real(n) && s.tree.HeadOf(n) == b.head
  {
  }

  lemma Signed(w: string, v: string)
    requires w != "" && v != "" && v != w
    ensures Extended([], w) == [w] == Extended([w], w) && Extended([v], w) == [v, w]
  {
  }

  lemma FirstBranch(root: Node, a1: Node, a2: Node) returns (tr: Trace, t: State)
    requires root != a1 && root != a2 && a1 != a2
    ensures Reached(tr, Initial(root, [GENESIS], PAIR), t, map[root := GENESIS, a1 := A1, a2 := A2])
    ensures At(t, root, null, GENESIS, []) && At(t, a2, a1, A2, ["A"]) && At(t, a1, root, A1, ["A"]) && t.head == a2
    ensures t.tree.root == root && t.witnessNum == 2 && t.chain == [GENESIS]
  {
    hide State.Inv, State.Finalized, Keeps, Follows, At, Connects, Holds, Extended;
    var s := Initial(root, [GENESIS], PAIR);
    var blocks := map[root := GENESIS];
    Starts(root);
    MadeFollows(GENESIS, 2, 0);
    MadeFollows(A1, 4, 2);
    Signed("A", "B");
    Unmoved(s, root);
    var r: State;
    tr, r := Continues(Trace([s], []), s, s, blocks, a1, A1, root, null, GENESIS, []);
    KeepsParts(s, r, a1);
    StillAt(s, r, a1, root, null, GENESIS, []);
    AtHead(r, a1, root, A1, ["A"]);
    tr, t := Continues(tr, s, r, blocks[a1 := A1], a2, A2, a1, root, A1, ["A"]);
    KeepsParts(r, t, a2);
    StillAt(r, t, a2, root, null, GENESIS, []);
    StillAt(r, t, a2, a1, root, A1, ["A"]);
  }

  /** The second branch is as high as the first and later, so the head stays on the first ... */
  lemma SecondBranch(root: Node, a1: Node, a2: Node, b1: Node, b2: Node) returns (tr: Trace, t: State)
    requires |{root, a1, a2, b1, b2}| == 5
    ensures Connects(tr, Initial(root, [GENESIS], PAIR), t) && t.Inv() && t.Finalized()
    ensures At(t, root, null, GENESIS, []) && At(t, a1, root, A1, ["A"]) && At(t, a2, a1, A2, ["A"])
    ensures At(t, b1, root, B1, ["B"]) && At(t, b2, b1, B2, ["B", "A"])
    ensures t.tree.root == root && t.witnessNum == 2 && t.chain == [GENESIS] && t.head == a2
  {
    hide State.Inv, State.Finalized, Keeps, Follows, At, Connects, Holds, Extended;
    var s := Initial(root, [GENESIS], PAIR);
    Signed("A", "B");
    Signed("B", "A");
    MadeFollows(GENESIS, 1, 0);
    MadeFollows(B1, 6, 1);
    var q: State, r: State;
    tr, q := FirstBranch(root, a1, a2);
    var blocks := map[root := GENESIS, a1 := A1, a2 := A2];
    AtHead(q, a2, a1, A2, ["A"]);
    tr, r := Continues(tr, s, q, blocks, b1, B1, root, null, GENESIS, []);
    StayAt(q, r, b1, root, a1, a2);
    AtHead(r, a2, a1, A2, ["A"]);
    tr, t := Continues(tr, s, r, blocks[b1 := B1], b2, B2, b1, root, B1, ["B"]);
    StayAt(r, t, b2, root, a1, a2);
    StillAt(r, t, b2, b1, root, B1, ["B"]);
  }

  lemma StayAt(s: State, t: State, n: Node, root: Node, a1: Node, a2: Node)
    requires Keeps(s, t, n)
    requires At(s, root, null, GENESIS, []) && At(s, a1, root, A1, ["A"]) && At(s, a2, a1, A2, ["A"])
    ensures At(t, root, null, GENESIS, []) && At(t, a1, root, A1, ["A"]) && At(t, a2, a1, A2, ["A"])
    ensures t.tree.root == s.tree.root && t.witnessNum == s.witnessNum && t.chain == s.chain
  {
    hide *;
    KeepsParts(s, t, n);
    StillAt(s, t, n, root, null, GENESIS, []);
    StillAt(s, t, n, a1, root, A1, ["A"]);
    StillAt(s, t, n, a2, a1, A2, ["A"]);
  }

  /** ... but both producers confirmed the second, so the root moves there and the head is cut off. */
  lemma HeadCanBePruned(root: Node, a1: Node, a2: Node, b1: Node, b2: Node) returns (tr: Trace, t: State)
    requires |{root, a1, a2, b1, b2}| == 5
    ensures Connects(tr, Initial(root, [GENESIS], PAIR), t) && t.Inv() && t.Finalized()
    ensures t.chain == [GENESIS, B1] && t.head == a2 && !t.tree.Live(t.head)
  {
    hide State.Inv, State.Finalized, At, Initial, CanAdvance, Advanced;
    var s: State;
    tr, s := SecondBranch(root, a1, a2, b1, b2);
    Decides(s, root, b1, b2);
    NextShape(s, root, b1, b2);
    OtherBranch(s, root, a1, a2, b1);
    t := Advanced(s, b1).(chain := s.chain + [B1]);
    AdvanceChooses(s, b2);
    AdvanceRoundKeeps(s, b2, t);
    Survivors(s, b1, t, a2);
    ConnectsThen(tr, Trace([s, t], [Advance(b2)]), Initial(root, [GENESIS], PAIR), s, t);
    tr := Then(tr, Trace([s, t], [Advance(b2)]));
  }

  lemma Decides(s: State, root: Node, b1: Node, b2: Node)
    requires s.Inv() && s.tree.root == root && s.witnessNum == 2
    requires At(s, root, null, GENESIS, []) && At(s, b1, root, B1, ["B"]) && At(s, b2, b1, B2, ["B", "A"])
    ensures CanAdvance(s, b2) && Branch(s, b2) == b1
  {
  }

  lemma NextShape(s: State, root: Node, b1: Node, b2: Node)
    requires CanAdvance(s, b2) && Branch(s, b2) == b1 && At(s, b1, root, B1, ["B"])
    ensures s.Shape() && s.tree.Real(b1) && b1 in s.notes && b1 in s.tree.nodes[s.tree.root].children
    ensures s.tree.nodes[b1].block == Some(B1)
  {
  }

  lemma OtherBranch(s: State, root: Node, a1: Node, a2: Node, b1: Node)
    requires s.Inv() && b1 != root && b1 != a1 && b1 != a2
    requires At(s, root, null, GENESIS, []) && At(s, a1, root, A1, ["A"]) && At(s, a2, a1, A2, ["A"])
    ensures s.tree.Shape() && s.tree.Live(a2) && !s.tree.Under(b1, a2)
  {
    assert !s.tree.Under(b1, root);
    assert !s.tree.Under(b1, a1);
  }
}
