/**
 The block cache as a value: a fork tree of blocks above the last irreversible block.

 `State` is a snapshot of the fields of the cache and of every node it has allocated. Nodes are
 identified by reference, so a removed node and a later node for the same block differ.
 */
module BlockTree {
  import opened Sequences
  import opened Options
  import opened Blocks
  import GoInt

  class Node {
    ghost const key: Hash           // the hash this node stands for
    var block: Option<Block>        // None in a virtual node, the unseen parent of orphans
    var parent: Node?
    var children: set<Node>
    var linked: bool
    var validWitness: seq<string>
    var active: seq<string>
    var pending: seq<string>
    var serialNum: int

    constructor (ghost key: Hash, block: Option<Block>, parent: Node?)
      ensures this.key == key && this.block == block && this.parent == parent
      ensures children == {} && !linked && validWitness == [] && active == [] && pending == [] && serialNum == 0
    {
      this.key := key;
      this.block := block;
      this.parent := parent;
      children, linked, validWitness, active, pending, serialNum := {}, false, [], [], [], 0;
    }
  }

  /** The place of a node in the tree. */
  datatype Place = Place(key: Hash, block: Option<Block>, parent: Node?, children: set<Node>, linked: bool)

  /** What the cache records about the block in a node. */
  datatype Note = Note(validWitness: seq<string>, active: seq<string>, pending: seq<string>, serialNum: int)

  /**
   `nodes` is defined on every node ever allocated. `cached` and `virtuals` are the nodes held by
   the maps hash2node and singleRoot.
   */
  datatype Tree = Tree(nodes: map<Node, Place>, cached: set<Node>, virtuals: set<Node>, root: Node)
  {
    ghost predicate Present(older n: Node) {
      n in nodes && (n in cached || n in virtuals)
    }

    /** A verified block that descends from the root. */
    ghost predicate Live(older n: Node) {
      n in nodes && n in cached && nodes[n].linked
    }

    ghost predicate Real(older n: Node) {
      n in nodes && nodes[n].block.Some?
    }

    ghost function HeadOf(n: Node): BlockHead
      requires Real(n)
    {
      nodes[n].block.value.head
    }

    /** The rule by which a node replaces the head: a higher number, or the same number earlier. */
    ghost predicate Beats(n: Node, m: Node)
      requires Real(n) && Real(m)
    {
      || HeadOf(n).number > HeadOf(m).number
      || (HeadOf(n).number == HeadOf(m).number && HeadOf(n).time < HeadOf(m).time)
    }

    ghost predicate Hashed(n: Node)
      requires n in nodes
    {
      nodes[n].block.Some? && nodes[n].block.value.HeadHash() == nodes[n].key
    }

    ghost predicate Placed(n: Node)
      requires Real(n)
    {
      if n == root then nodes[n].parent == null
      else
        && nodes[n].parent != null
        && Present(nodes[n].parent)
        && nodes[nodes[n].parent].key == HeadOf(n).parentHash
        && n in nodes[nodes[n].parent].children
    }

    ghost predicate VirtualShape(n: Node)
      requires n in nodes
    {
      nodes[n].block.None? && nodes[n].parent == null && !nodes[n].linked
    }

    /** The present nodes form trees under the root and under the virtual nodes. */
    ghost predicate Shape() {
      && cached <= nodes.Keys
      && virtuals <= nodes.Keys
      && cached !! virtuals
      && Live(root)
      && (forall n :: n in cached ==> Hashed(n))
      && (forall n :: n in virtuals ==> VirtualShape(n))
      && (forall n {:trigger nodes[n].parent} :: n in cached ==> Placed(n))
      && (forall p, c {:trigger c in nodes[p].children} ::
            Present(p) && c in nodes[p].children ==> c in cached && nodes[c].parent == p)
      && (forall n {:trigger nodes[n].parent} :: n in nodes && !Present(n) ==> nodes[n].parent == null)
    }

    /** At most one node stands for each hash. */
    ghost predicate Keyed() {
      forall m, n :: Present(m) && Present(n) && nodes[m].key == nodes[n].key ==> m == n
    }

    /** n is a or a descendant of a. */
    ghost predicate Under(a: Node, n: Node)
      requires Shape() && Present(n)
      decreases Depth(nodes[n].key)
    {
      n == a || (nodes[n].parent != null && Under(a, nodes[n].parent))
    }

    ghost function Subtree(a: Node): set<Node>
      requires Shape()
    {
      set n | n in cached && Under(a, n)
    }

    /** A live node with no live child. */
    ghost predicate IsLeaf(older n: Node) {
      Live(n) && forall c :: c in nodes[n].children ==> !Live(c)
    }
  }

  datatype State = State(tree: Tree,
                         notes: map<Node, Note>,
                         head: Node,
                         number2node: map<int, Node>,
                         leaf: set<Node>,
                         linkedRootWitness: seq<string>,
                         witnessNum: int,
                         chain: seq<Block>)
  {
    ghost predicate Shape() {
      tree.Shape() && tree.nodes.Keys == notes.Keys
    }

    /** What verification establishes before a block is linked below its parent. */
    ghost predicate LinkShape(n: Node)
      requires Shape() && n in tree.cached && n != tree.root
    {
      var p := tree.nodes[n].parent;
      && tree.Live(p)
      && tree.HeadOf(n).number == tree.HeadOf(p).number + 1
      && tree.HeadOf(n).time > tree.HeadOf(p).time >= 0
      && notes[p].active != []
      && tree.HeadOf(n).producer == WitnessOf(tree.HeadOf(n).time, notes[p].active)
    }

    ghost predicate Chained() {
      && Shape()
      && tree.HeadOf(tree.root).time >= 0
      && (forall n {:trigger tree.nodes[n].parent} :: tree.Live(n) && n != tree.root ==> LinkShape(n))
    }

    ghost predicate Leaves() {
      && (forall n :: n in leaf ==> tree.IsLeaf(n))
      && (forall n :: tree.IsLeaf(n) ==> n in leaf)
    }

    ghost predicate HeadIsBest() {
      && tree.Shape()
      && tree.Real(head)
      && tree.nodes[head].linked
      && (forall n :: tree.Live(n) ==> !tree.Beats(n, head))
    }

    ghost predicate Indexed(n: Node)
      requires tree.Real(n)
    {
      tree.HeadOf(n).number in number2node && number2node[tree.HeadOf(n).number] == n
    }

    ghost predicate IndexEntry(k: int)
      requires k in number2node && tree.Real(head)
    {
      var n := number2node[k];
      tree.Real(n) && tree.nodes[n].linked && tree.HeadOf(n).number == k <= tree.HeadOf(head).number
    }

    /** The number index is closed under parents: an indexed live node has an indexed parent. */
    ghost predicate IndexClosed() {
      && tree.Shape()
      && tree.Real(head)
      && (forall k :: k in number2node ==> IndexEntry(k))
      && (forall n {:trigger tree.nodes[n].parent} :: tree.Live(n) && n != tree.root && Indexed(n) ==>
            tree.Real(tree.nodes[n].parent) && Indexed(tree.nodes[n].parent))
    }

    ghost predicate WitnessShape(n: Node)
      requires Shape() && n in tree.cached && n != tree.root
    {
      Elems(notes[n].validWitness) ==
      (Elems(notes[tree.nodes[n].parent].validWitness) + Named(tree.HeadOf(n).producer)) * Elems(notes[n].active)
    }

    /** ValidWitness is determined by the parent's list, the node's producer and its active list. */
    ghost predicate Witnesses() {
      && Shape()
      && notes[tree.root].validWitness == []
      && (forall n :: n in tree.nodes && !tree.nodes[n].linked ==> notes[n].validWitness == [])
      && (forall n :: tree.Live(n) ==> NoDup(notes[n].validWitness) && "" !in notes[n].validWitness)
      && (forall n {:trigger tree.nodes[n].parent} :: tree.Live(n) && n != tree.root ==> WitnessShape(n))
    }

    /** Serial numbers count the blocks one producer made in one slot. */
    ghost predicate SerialShape(n: Node)
      requires Shape() && n in tree.cached && n != tree.root && tree.Real(tree.nodes[n].parent)
    {
      var p := tree.nodes[n].parent;
      notes[n].serialNum ==
      if tree.HeadOf(p).producer != tree.HeadOf(n).producer || Slot(tree.HeadOf(p).time) != Slot(tree.HeadOf(n).time)
      then 0
      else notes[p].serialNum + 1
    }

    ghost predicate Serials() {
      && Chained()
      && (forall n :: tree.Live(n) ==> 0 <= notes[n].serialNum < BLOCKS_PER_WITNESS)
      && (forall n {:trigger tree.nodes[n].parent} :: tree.Live(n) && n != tree.root ==> SerialShape(n))
    }

    /** The irreversible blocks form one parent-linked chain that ends in the root. */
    ghost predicate Finalized() {
      && tree.Shape()
      && chain != []
      && chain[|chain| - 1] == tree.nodes[tree.root].block.value
      && (forall i :: 0 < i < |chain| ==> ChildOf(chain[i], chain[i - 1]))
    }

    ghost predicate Inv() {
      && tree.Keyed()
      && Chained()
      && Leaves()
      && HeadIsBest()
      && IndexClosed()
      && Witnesses()
      && Serials()
    }
  }

  ghost predicate ChildOf(b: Block, p: Block) {
    b.head.parentHash == p.HeadHash() && b.head.number == p.head.number + 1 && b.head.time > p.head.time
  }

  function Elems(s: seq<string>): set<string> {
    set x | x in s
  }

  /** An empty producer name is never recorded. */
  function Named(w: string): set<string> {
    if w == "" then {} else {w}
  }

  function Without(s: seq<string>, w: string): seq<string> {
    if s == [] then [] else (if s[0] == w then [] else [s[0]]) + Without(s[1..], w)
  }

  function Restricted(s: seq<string>, t: seq<string>): seq<string> {
    if s == [] then [] else (if s[0] in t then [s[0]] else []) + Restricted(s[1..], t)
  }

  /** How many names of s are not in t. */
  function Unlisted(s: seq<string>, t: seq<string>): nat {
    if s == [] then 0 else (if s[0] in t then 0 else 1) + Unlisted(s[1..], t)
  }

  /** A list with w appended, unless w is empty or already listed. */
  function Extended(s: seq<string>, w: string): seq<string> {
    if w == "" || w in s then s else s + [w]
  }

  // ---------------------------------------------------------------- operations on the tree

  ghost function WithPlace(s: State, n: Node, place: Place): State {
    s.(tree := s.tree.(nodes := s.tree.nodes[n := place]))
  }

  ghost function WithNote(s: State, n: Node, note: Note): State {
    s.(notes := s.notes[n := note])
  }

  /** A cache that holds only the last irreversible block. */
  ghost function Initial(root: Node, chain: seq<Block>, pending: seq<string>): State
    requires chain != []
  {
    var lib := chain[|chain| - 1];
    State(Tree(map[root := Place(lib.HeadHash(), Some(lib), null, {}, true)], {root}, {}, root),
          map[root := Note([], pending, pending, 0)],
          root, map[], {root}, [], |pending|, chain)
  }

  ghost const EMPTY_NOTE := Note([], [], [], 0)

  /** A virtual node v for the unseen block h. */
  ghost function WithVirtual(s: State, h: Hash, v: Node): State {
    s.(tree := s.tree.(nodes := s.tree.nodes[v := Place(h, None, null, {}, false)], virtuals := s.tree.virtuals + {v}),
       notes := s.notes[v := EMPTY_NOTE])
  }

  ghost predicate CanFill(t: Tree, m: Node, blk: Block, p: Node) {
    && t.Shape()
    && m in t.virtuals && t.nodes[m].key == blk.HeadHash()
    && t.Present(p) && t.nodes[p].key == blk.head.parentHash
  }

  /** The virtual node m receives the block it waits for and moves below its parent p. */
  ghost function Filled(t: Tree, m: Node, blk: Block, p: Node): Tree
    requires p in t.nodes && m in t.nodes
  {
    t.(nodes := t.nodes[m := t.nodes[m].(block := Some(blk), parent := p)]
                       [p := t.nodes[p].(children := t.nodes[p].children + {m})],
       virtuals := t.virtuals - {m},
       cached := t.cached + {m})
  }

  /** Removal of a set of nodes from the tree and from the maps. */
  ghost function Pruned(t: Tree, dead: set<Node>): Tree {
    t.(nodes := map m | m in t.nodes ::
         if m in dead then t.nodes[m].(parent := null, children := {})
         else if t.Present(m) then t.nodes[m].(children := t.nodes[m].children - dead)
         else t.nodes[m],
       cached := t.cached - dead)
  }

  ghost function Detached(s: State, dead: set<Node>): State {
    s.(tree := Pruned(s.tree, dead), leaf := s.leaf - dead)
  }

  // ---------------------------------------------------------------- linking a verified block

  /** A cached block that passed verification against its live parent. */
  ghost predicate Verified(s: State, n: Node) {
    s.Chained() && n in s.tree.cached && !s.tree.nodes[n].linked && s.LinkShape(n)
  }

  ghost predicate CanLink(s: State, n: Node) {
    s.Inv() && Verified(s, n) && s.SerialShape(n) && 0 <= s.notes[n].serialNum < BLOCKS_PER_WITNESS
  }

  /** `voted` is the pending list read from the state of a vote block, if it could be read. */
  ghost function Linked(s: State, n: Node, voted: Option<seq<string>>): State
    requires s.tree.Real(s.head) && s.tree.Real(n) && n in s.notes
    requires s.tree.nodes[n].parent in s.tree.nodes && s.tree.nodes[n].parent in s.notes
  {
    var p := s.tree.nodes[n].parent;
    var head := s.tree.HeadOf(n);
    s.(tree := s.tree.(nodes := s.tree.nodes[n := s.tree.nodes[n].(linked := true)]),
       notes := s.notes[n := Note(s.notes[n].validWitness + Extended(s.notes[p].validWitness, head.producer),
                                  s.notes[p].active,
                                  if head.number % VOTE_INTERVAL == 0 && voted.Some? then voted.value
                                  else s.notes[p].pending,
                                  s.notes[n].serialNum)],
       leaf := s.leaf - {p} + {n},
       head := if s.tree.Beats(n, s.head) then n else s.head)
  }

  ghost predicate CanSwitch(s: State, n: Node) {
    && s.Inv()
    && n in s.leaf
    && (n != s.tree.root ==> s.notes[n].active == s.notes[s.tree.nodes[n].parent].active)
  }

  /** The active list of a new leaf becomes the pending list of the root. */
  ghost function Switched(s: State, n: Node): State
    requires n in s.notes && s.tree.root in s.notes
  {
    var list := s.notes[s.tree.root].pending;
    s.(notes := s.notes[n := s.notes[n].(validWitness := Restricted(s.notes[n].validWitness, list), active := list)])
  }

  // ---------------------------------------------------------------- advancing the root

  /** Some block from b down to n, other than r, was made by r's producer. */
  ghost predicate Shielded(t: Tree, b: Node, r: Node, n: Node)
    requires t.Shape() && n in t.cached && r in t.cached
    decreases Depth(t.nodes[n].key)
  {
    var p := t.nodes[n].parent;
    || (n != r && t.HeadOf(n).producer == t.HeadOf(r).producer)
    || (n != b && p != null && p in t.cached && Shielded(t, b, r, p))
  }

  /** The nodes that removeValidWitness(r) reaches from b before it stops at a block by r's producer. */
  ghost function Exposed(t: Tree, b: Node, r: Node): set<Node>
    requires t.Shape() && r in t.cached
  {
    set n | n in t.cached && t.Under(b, n) && !Shielded(t, b, r, n)
  }

  ghost function Stripped(s: State, targets: set<Node>, w: string): State {
    s.(notes := map m | m in s.notes ::
         if m in targets then s.notes[m].(validWitness := Without(s.notes[m].validWitness, w)) else s.notes[m])
  }

  /** c takes the place of its parent, the root. */
  ghost function Rerooted(s: State, c: Node): State
    requires c in s.tree.nodes && s.tree.Real(s.tree.root)
  {
    s.(tree := Tree(s.tree.nodes[c := s.tree.nodes[c].(parent := null)],
                    s.tree.cached - {s.tree.root}, s.tree.virtuals, c),
       number2node := s.number2node - {s.tree.HeadOf(s.tree.root).number})
  }

  /** The descendants of the root other than those of its child c. */
  ghost function Siblings(t: Tree, c: Node): set<Node>
    requires t.Shape()
  {
    set n | n in t.cached && n != t.root && t.Under(t.root, n) && !t.Under(c, n)
  }

  /** An orphan directly below a virtual node, numbered no higher than the root. */
  ghost predicate Outdated(t: Tree, x: Node)
    requires t.Shape()
  {
    && x in t.cached
    && t.nodes[x].parent != null && t.nodes[x].parent in t.virtuals
    && t.HeadOf(x).number <= t.HeadOf(t.root).number
  }

  ghost function OutdatedNodes(t: Tree): set<Node>
    requires t.Shape()
  {
    set n | n in t.cached && exists x :: x in t.cached && Outdated(t, x) && t.Under(x, n)
  }

  /** The virtual nodes whose last children are outdated. */
  ghost function OutdatedVirtuals(t: Tree): set<Node>
    requires t.Shape()
  {
    set v | v in t.virtuals && t.nodes[v].children != {} && forall x :: x in t.nodes[v].children ==> Outdated(t, x)
  }

  const DEL_SINGLE_BLOCK_TIME: int := 10

  /** delSingle: at every tenth root number, orphans that can no longer be linked are dropped. */
  ghost function Swept(s: State): State
    requires s.tree.Shape()
  {
    if s.tree.HeadOf(s.tree.root).number % DEL_SINGLE_BLOCK_TIME != 0 then s
    else
      var d := Detached(s, OutdatedNodes(s.tree));
      d.(tree := d.tree.(virtuals := s.tree.virtuals - OutdatedVirtuals(s.tree)))
  }

  // ---------------------------------------------------------------- finality

  /** Two thirds of the producers, rounded down, plus one. */
  function ConfirmLimit(witnessNum: int): int {
    GoInt.TruncDiv(witnessNum * 2, 3) + 1
  }

  /** Enough producers confirmed n, and n is judged by the list that the root made pending. */
  ghost predicate CanAdvance(s: State, n: Node) {
    && s.Inv()
    && s.tree.Live(n) && n != s.tree.root
    && |s.notes[n].validWitness| >= ConfirmLimit(s.witnessNum)
    && s.notes[n].active == s.notes[s.tree.root].pending
  }

  /** The child of the root from which n descends. */
  ghost function Branch(s: State, n: Node): (c: Node)
    requires s.Chained() && s.tree.Live(n) && n != s.tree.root
    ensures c in s.tree.nodes[s.tree.root].children && s.tree.Live(c) && s.tree.Under(c, n)
    decreases Depth(s.tree.nodes[n].key)
  {
    assert s.LinkShape(n);
    if s.tree.nodes[n].parent == s.tree.root then n else Branch(s, s.tree.nodes[n].parent)
  }

  /** linkedRootWitness starts afresh whenever the pending list changes. */
  ghost function RootWitness(s: State, c: Node): seq<string>
    requires c in s.notes && s.tree.root in s.notes && s.tree.Real(c)
  {
    var kept := if s.notes[s.tree.root].pending != s.notes[c].pending then [] else s.linkedRootWitness;
    if s.tree.HeadOf(c).producer in kept then kept else kept + [s.tree.HeadOf(c).producer]
  }

  // ---------------------------------------------------------------- the number index

  /** GetBlockByNumber's repair: index `it` and its ancestors up to the first one already indexed. */
  ghost function Repaired(s: State, it: Node): State
    requires s.tree.Shape() && s.tree.Real(it)
    decreases Depth(s.tree.nodes[it].key)
  {
    if s.Indexed(it) then s
    else
      var t := s.(number2node := s.number2node[s.tree.HeadOf(it).number := it]);
      var p := s.tree.nodes[it].parent;
      if p != null && s.tree.Real(p) && s.tree.Present(it) then Repaired(t, p) else t
  }

  /** The plain walk from n to its ancestor numbered k. */
  ghost function Ancestor(s: State, n: Node, k: int): (a: Node)
    requires s.Chained() && s.tree.Live(n)
    requires s.tree.HeadOf(s.tree.root).number <= k <= s.tree.HeadOf(n).number
    ensures s.tree.Live(a)
    decreases Depth(s.tree.nodes[n].key)
  {
    if n == s.tree.root || s.tree.HeadOf(n).number == k then n
    else assert s.LinkShape(n); Ancestor(s, s.tree.nodes[n].parent, k)
  }
}
