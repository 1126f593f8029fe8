/**
 The block cache. Every method is specified by what it does to `View()`, the snapshot of all nodes
 and fields on which the invariant and the run theorems are proved.
 */
module BlockCacheImpl {
  import opened Options
  import opened Blocks
  import opened BlockTree
  import opened BlockTreeAdd
  import opened BlockTreeLink
  import opened BlockTreeRoot
  import opened BlockTreeDel
  import opened BlockTreeStrip
  import opened CacheRuns
  import opened AdvanceFacts
  import opened NumberIndex
  import GoInt

  class BlockCache {
    var linkedRoot: Node
    var head: Node
    var singleRoot: map<Hash, Node>
    var hash2node: map<Hash, Node>
    var number2node: map<int, Node>
    var leaf: set<Node>
    var linkedRootWitness: seq<string>
    var witnessNum: int
    var blockChain: seq<Block>
    ghost var nodes: set<Node>   // every node allocated by this cache

    ghost function PlaceOf(n: Node): Place
      reads n
    {
      Place(n.key, n.block, n.parent, n.children, n.linked)
    }

    ghost function NoteOf(n: Node): Note
      reads n
    {
      Note(n.validWitness, n.active, n.pending, n.serialNum)
    }

    ghost function Places(): map<Node, Place>
      reads this`nodes, nodes
    {
      map n | n in nodes :: PlaceOf(n)
    }

    ghost function Notes(): map<Node, Note>
      reads this`nodes, nodes
    {
      map n | n in nodes :: NoteOf(n)
    }

    ghost function Cached(): set<Node>
      reads this`nodes, this`hash2node
    {
      set n | n in nodes && n.key in hash2node && hash2node[n.key] == n
    }

    ghost function Virtuals(): set<Node>
      reads this`nodes, this`singleRoot
    {
      set n | n in nodes && n.key in singleRoot && singleRoot[n.key] == n
    }

    ghost function View(): State
      reads this, nodes
    {
      State(Tree(Places(), Cached(), Virtuals(), linkedRoot), Notes(),
            head, number2node, leaf, linkedRootWitness, witnessNum, blockChain)
    }

    /** The two maps hold nodes of this cache under the hashes they stand for. */
    ghost predicate Mapped()
      reads this`hash2node, this`singleRoot, this`nodes
    {
      && (forall h :: h in hash2node ==> hash2node[h] in nodes && hash2node[h].key == h)
      && (forall h :: h in singleRoot ==> singleRoot[h] in nodes && singleRoot[h].key == h)
    }

    ghost predicate Valid()
      reads this, nodes
    {
      Mapped() && View().Inv() && View().Finalized()
    }

    /** A cache above the last irreversible block of `chain`; `pending` is read from its state. */
    constructor (chain: seq<Block>, pending: seq<string>)
      requires chain != [] && chain[|chain| - 1].head.time >= 0
      requires forall i :: 0 < i < |chain| ==> ChildOf(chain[i], chain[i - 1])
      ensures Mapped() && View() == Initial(linkedRoot, chain, pending) && View().Inv() && View().Finalized()
      ensures fresh(nodes) && head == linkedRoot
    {
      var lib := chain[|chain| - 1];
      var root := new Node(lib.HeadHash(), Some(lib), null);
      root.linked, root.pending, root.active := true, pending, pending;
      linkedRoot, head := root, root;
      singleRoot, hash2node, number2node := map[], map[lib.HeadHash() := root], map[];
      leaf, linkedRootWitness, witnessNum, blockChain := {root}, [], |pending|, chain;
      nodes := {root};
      new;
      assert Places() == map[root := PlaceOf(root)];
      assert Notes() == map[root := NoteOf(root)];
      assert Cached() == {root} && Virtuals() == {};
      assert View() == Initial(root, chain, pending);
      InitialInv(root, chain, pending);
    }

    // -------------------------------------------------------------- fields of a node

    method SetLeaf(l: set<Node>)
      modifies this`leaf
      ensures leaf == l && View() == old(View()).(leaf := l)
    {
      leaf := l;
    }

    method SetParent(n: Node, p: Node?)
      requires n in nodes
      modifies n`parent
      ensures n.parent == p
      ensures View() == WithPlace(old(View()), n, old(View()).tree.nodes[n].(parent := p))
    {
      n.parent := p;
      assert Places() == old(Places())[n := PlaceOf(n)] && Notes() == old(Notes());
    }

    method SetChildren(n: Node, children: set<Node>)
      requires n in nodes
      modifies n`children
      ensures n.children == children
      ensures View() == WithPlace(old(View()), n, old(View()).tree.nodes[n].(children := children))
    {
      n.children := children;
      assert Places() == old(Places())[n := PlaceOf(n)] && Notes() == old(Notes());
    }

    method SetLinked(n: Node, note: Note)
      requires n in nodes
      modifies n`linked, n`validWitness, n`active, n`pending, n`serialNum
      ensures View() == WithPlace(WithNote(old(View()), n, note), n, old(View()).tree.nodes[n].(linked := true))
    {
      n.linked := true;
      n.validWitness, n.active, n.pending, n.serialNum := note.validWitness, note.active, note.pending, note.serialNum;
      assert Places() == old(Places())[n := PlaceOf(n)] && Notes() == old(Notes())[n := note];
    }

    method SetValidWitness(n: Node, vw: seq<string>)
      requires n in nodes
      modifies n`validWitness
      ensures View() == WithNote(old(View()), n, old(View()).notes[n].(validWitness := vw))
    {
      n.validWitness := vw;
      assert Places() == old(Places()) && Notes() == old(Notes())[n := NoteOf(n)];
    }

    method SetNote(n: Node, note: Note)
      requires n in nodes
      modifies n`validWitness, n`active, n`pending, n`serialNum
      ensures View() == WithNote(old(View()), n, note)
    {
      n.validWitness, n.active, n.pending, n.serialNum := note.validWitness, note.active, note.pending, note.serialNum;
      assert Places() == old(Places()) && Notes() == old(Notes())[n := note];
    }

    // -------------------------------------------------------------- deletion

    /** hmdel */
    method DelHash(n: Node)
      requires Mapped() && n in nodes && n.block.Some? && n.block.value.HeadHash() == n.key
      requires n.key in hash2node && hash2node[n.key] == n
      modifies this`hash2node
      ensures Mapped()
      ensures View() == old(View()).(tree := old(View()).tree.(cached := old(View()).tree.cached - {n}))
    {
      hash2node := hash2node - {n.block.value.HeadHash()};
      assert Cached() == old(Cached()) - {n};
    }

    /** Removes n, which has no children, from its parent, from hash2node and from leaf. */
    method Unhook(n: Node)
      requires Mapped()
      requires n in View().tree.cached && n.block.Some? && n.block.value.HeadHash() == n.key
      requires n.parent != null && n.parent != n && n.parent in nodes
      modifies this`hash2node, this`leaf, n, n.parent
      ensures Mapped()
      ensures View() == Unhooked(old(View()), n)
    {
      SetChildren(n.parent, n.parent.children - {n});
      SetParent(n, null);
      DelHash(n);
      SetLeaf(leaf - {n});
    }

    method ChildrenOf(n: Node) returns (r: set<Node>)
      requires n in View().tree.nodes
      ensures r == View().tree.nodes[n].children
    {
      assert PlaceOf(n) == View().tree.nodes[n];
      r := n.children;
    }

    method ProducerOf(n: Node) returns (w: string)
      requires View().tree.Real(n)
      ensures w == View().tree.HeadOf(n).producer
    {
      assert PlaceOf(n) == View().tree.nodes[n];
      w := n.block.value.head.producer;
    }

    /** The loop of del: removes the subtrees of the children of n one by one. */
    method DelChildren(n: Node, ghost below: set<Node>)
      requires Mapped() && View().tree.Shape() && n in View().tree.cached
      requires below == View().tree.Subtree(n)
      modifies this`hash2node, this`leaf, nodes
      ensures Mapped()
      ensures n in old(View()).tree.nodes
      ensures View() == Detached(old(View()), Below(old(View()).tree, old(View()).tree.nodes[n].children))
      decreases below, 0
    {
      hide *;
      ghost var s := View();
      CachedNode(s.tree, n);
      var todo := ChildrenOf(n);
      ghost var gone: set<Node> := {};
      DetachedNothing(s);
      while todo != {}
        invariant Mapped()
        invariant gone + todo == s.tree.nodes[n].children && gone !! todo
        invariant View() == Detached(s, Below(s.tree, gone))
        decreases todo
      {
        var c :| c in todo;
        DetachedNextChild(s, n, gone, c);
        SubtreeOfChild(s.tree, n, c);
        Del(c, View().tree.Subtree(c));
        todo := todo - {c};
        gone := gone + {c};
      }
      assert gone == s.tree.nodes[n].children;
    }

    /** Removes n and everything below it. */
    method Del(n: Node, ghost below: set<Node>)
      requires Mapped() && View().tree.Shape() && n in View().tree.cached && n != View().tree.root
      requires below == View().tree.Subtree(n)
      modifies this`hash2node, this`leaf, nodes
      ensures Mapped()
      ensures View() == Detached(old(View()), below)
      decreases below, 1
    {
      ghost var s := View();
      DelChildren(n, below);
      DetachedLast(s, n);
      ghost var d := View();
      assert d.tree.Hashed(n) && d.tree.Placed(n);
      assert PlaceOf(n) == d.tree.nodes[n];
      Unhook(n);
    }

    // -------------------------------------------------------------- Add

    /** A new node joins the cache as a virtual node. */
    method Adopt(v: Node, h: Hash)
      requires Mapped() && h !in hash2node && h !in singleRoot && v !in nodes && v.key == h
      modifies this`singleRoot, this`nodes
      ensures Mapped() && nodes == old(nodes) + {v} && singleRoot == old(singleRoot)[h := v]
      ensures Cached() == old(Cached()) && Virtuals() == old(Virtuals()) + {v}
      ensures Places() == old(Places())[v := PlaceOf(v)] && Notes() == old(Notes())[v := NoteOf(v)]
    {
      nodes := nodes + {v};
      singleRoot := singleRoot[h := v];
      assert Places() == old(Places())[v := PlaceOf(v)] && Notes() == old(Notes())[v := NoteOf(v)];
    }

    /** A node for a block that has not been seen; orphans will hang below it. */
    method NewVirtualNode(h: Hash) returns (v: Node)
      requires Mapped() && h !in hash2node && h !in singleRoot
      modifies this`singleRoot, this`nodes
      ensures Mapped() && fresh(v) && v.key == h && v in nodes && nodes == old(nodes) + {v}
      ensures View() == WithVirtual(old(View()), h, v)
      ensures singleRoot == old(singleRoot)[h := v]
    {
      hide BlockCache.Mapped, BlockCache.Cached, BlockCache.Virtuals, BlockCache.Places, BlockCache.Notes;
      v := new Node(h, None, null);
      Adopt(v, h);
    }

    method SetBlockAndParent(n: Node, blk: Block, p: Node)
      requires n in nodes
      modifies n`block, n`parent
      ensures n.block == Some(blk) && n.parent == p
      ensures View() == WithPlace(old(View()), n, old(View()).tree.nodes[n].(block := Some(blk), parent := p))
    {
      n.block := Some(blk);
      n.parent := p;
      assert Places() == old(Places())[n := PlaceOf(n)] && Notes() == old(Notes());
    }

    /** m leaves singleRoot for hash2node. */
    method Promote(m: Node, h: Hash)
      requires Mapped() && m in nodes && m.key == h && h in singleRoot && singleRoot[h] == m && h !in hash2node
      modifies this`singleRoot, this`hash2node
      ensures Mapped() && hash2node == old(hash2node)[h := m]
      ensures Cached() == old(Cached()) + {m} && Virtuals() == old(Virtuals()) - {m}
    {
      singleRoot := singleRoot - {h};
      hash2node := hash2node[h := m];
    }

    /** The block that the virtual node m stands for has arrived; p is the node of its parent. */
    method FillNode(m: Node, blk: Block, p: Node)
      requires Mapped() && m in nodes && p in nodes && m != p
      requires m.key == blk.HeadHash() && m.key in singleRoot && singleRoot[m.key] == m
      requires m.key !in hash2node
      modifies this`singleRoot, this`hash2node, m, p
      ensures Mapped() && hash2node == old(hash2node)[blk.HeadHash() := m] && m.block == Some(blk) && m.parent == p
      ensures Places() == old(Places())[m := old(PlaceOf(m)).(block := Some(blk), parent := p)]
                                       [p := old(PlaceOf(p)).(children := old(p.children) + {m})]
      ensures Notes() == old(Notes())
      ensures Cached() == old(Cached()) + {m} && Virtuals() == old(Virtuals()) - {m}
    {
      Promote(m, blk.HeadHash());
      ghost var places := Places();
      assert places == old(Places()) && Notes() == old(Notes());
      SetBlockAndParent(m, blk, p);
      assert Places() == places[m := places[m].(block := Some(blk), parent := p)] && PlaceOf(p) == places[p];
      SetChildren(p, p.children + {m});
    }

    /** The node that holds h, or the virtual node that waits for it, which is made if there is none. */
    method NodeFor(h: Hash) returns (n: Node, ghost tr: Trace)
      requires Mapped()
      modifies this`singleRoot, this`nodes
      ensures Mapped() && n in nodes && n.key == h && fresh(nodes - old(nodes)) && old(nodes) <= nodes
      ensures if h in hash2node then hash2node[h] == n else h in singleRoot && singleRoot[h] == n
      ensures forall g :: g in old(singleRoot) ==> g in singleRoot && singleRoot[g] == old(singleRoot)[g]
      ensures Connects(tr, old(View()), View()) && AddSteps(tr)
    {
      ghost var s := View();
      tr := Trace([s], []);
      if h in hash2node {
        n := hash2node[h];
      } else if h in singleRoot {
        n := singleRoot[h];
      } else {
        n := NewVirtualNode(h);
        tr := Trace([s, View()], [NewVirtual(h, n)]);
      }
    }

    /** The nodes for the parent of a new block and for the block itself. */
    method NodesFor(blk: Block) returns (p: Node, m: Node, ghost tr: Trace)
      requires Mapped() && blk.HeadHash() !in hash2node
      modifies this`singleRoot, this`nodes
      ensures Mapped() && fresh(nodes - old(nodes)) && old(nodes) <= nodes
      ensures m in nodes && m.key == blk.HeadHash() && m.key in singleRoot && singleRoot[m.key] == m
      ensures p in nodes && p.key == blk.head.parentHash && (p in Cached() || p in Virtuals())
      ensures Connects(tr, old(View()), View()) && AddSteps(tr)
    {
      ghost var s := View();
      ghost var tr1, tr2;
      p, tr1 := NodeFor(blk.head.parentHash);
      ghost var s1 := View();
      m, tr2 := NodeFor(blk.HeadHash());
      ConnectsThen(tr1, tr2, s, s1, View());
      tr := Then(tr1, tr2);
    }

    /** A node for a block the cache does not hold; s1 is the snapshot once its virtual nodes exist. */
    method AddNew(blk: Block) returns (n: Node, ghost tr: Trace, ghost s1: State)
      requires Mapped() && blk.HeadHash() !in hash2node
      modifies this`singleRoot, this`hash2node, this`nodes, nodes
      ensures Mapped() && fresh(nodes - old(nodes)) && old(nodes) <= nodes
      ensures n in nodes && hash2node == old(hash2node)[blk.HeadHash() := n] && n.block == Some(blk) && n.parent != null
      ensures Connects(tr, old(View()), s1) && AddSteps(tr)
      ensures n in s1.tree.virtuals && n in s1.tree.nodes && s1.tree.nodes[n].key == blk.HeadHash()
      ensures s1.tree.Present(n.parent) && s1.tree.nodes[n.parent].key == blk.head.parentHash
      ensures View() == s1.(tree := Filled(s1.tree, n, blk, n.parent))
    {
      var p;
      p, n, tr := NodesFor(blk);
      s1 := View();
      assert Depth(n.key) == 1 + Depth(p.key);
      FillNode(n, blk, p);
    }

    /** The node for blk: the one the cache holds, or a new one below the node of its parent. */
    method Add(blk: Block) returns (n: Node, ghost tr: Trace)
      requires Mapped() && View().Inv() && View().Finalized()
      modifies this, nodes
      ensures Mapped() && fresh(nodes - old(nodes)) && old(nodes) <= nodes
      ensures Connects(tr, old(View()), View()) && AddSteps(tr)
      ensures n in nodes && hash2node == old(hash2node)[blk.HeadHash() := n]
      ensures View().tree.cached <= old(View()).tree.cached + {n}
      ensures blk.HeadHash() in old(hash2node) ==> View() == old(View())
      ensures blk.HeadHash() !in old(hash2node) ==> Received(View(), n, blk)
    {
      hide State.Inv, State.Finalized, Connects, AddSteps, Received;
      if blk.HeadHash() in hash2node {
        n, tr := hash2node[blk.HeadHash()], Trace([View()], []);
        NoSteps(View());
      } else {
        ghost var tr1, s1;
        n, tr1, s1 := AddNew(blk);
        AddedRun(old(View()), tr1, s1, n, blk, n.parent);
        tr := Then(tr1, Trace([s1, View()], [Fill(n, blk, n.parent)]));
      }
    }

    // -------------------------------------------------------------- Link

    /** updateValidWitness: the parent's list, then the producer unless it is listed or unnamed. */
    method ExtendWitness(own: seq<string>, inherited: seq<string>, producer: string) returns (r: seq<string>)
      ensures r == own + Extended(inherited, producer)
    {
      r := own;
      var missing := producer;
      for i := 0 to |inherited|
        invariant r == own + inherited[..i]
        invariant missing == if producer in inherited[..i] then "" else producer
      {
        r := r + [inherited[i]];
        if inherited[i] == missing {
          missing := "";
        }
      }
      if missing != "" {
        r := r + [missing];
      }
    }

    ghost predicate HasParent(n: Node)
      reads this, nodes, n
    {
      n in nodes && n.block.Some? && n.parent != null && n.parent in nodes && n.parent != n
    }

    method LinkNote(n: Node, voted: Option<seq<string>>) returns (note: Note)
      requires HasParent(n) && head in nodes && head.block.Some?
      ensures note == Linked(View(), n, voted).notes[n]
    {
      var p, h := n.parent, n.block.value.head;
      var vw := ExtendWitness(n.validWitness, p.validWitness, h.producer);
      var pending := if h.number % VOTE_INTERVAL == 0 && voted.Some? then voted.value else p.pending;
      note := Note(vw, p.active, pending, n.serialNum);
    }

    /** The effect of Link on the leaves and on the head. */
    method EnterLeaf(n: Node)
      requires HasParent(n) && head in nodes && head.block.Some?
      modifies this`leaf, this`head
      ensures View() == var s := old(View());
                        s.(head := if s.tree.Beats(n, s.head) then n else s.head,
                           leaf := s.leaf - {s.tree.nodes[n].parent} + {n})
    {
      leaf := leaf - {n.parent} + {n};
      if Wins(n.block.value.head, head.block.value.head) {
        head := n;
      }
    }

    method Link(n: Node, voted: Option<seq<string>>)
      requires HasParent(n) && head in nodes && head.block.Some?
      modifies this`leaf, this`head, n
      ensures Mapped() == old(Mapped()) && View() == Linked(old(View()), n, voted)
    {
      hide BlockCache.View, BlockCache.Mapped;
      LinkReady(n);
      var note := LinkNote(n, voted);
      LinkedParts(View(), n, voted, note);
      EnterLeaf(n);
      SetLinked(n, note);
    }

    lemma LinkReady(n: Node)
      requires HasParent(n) && head in nodes && head.block.Some?
      ensures var s := View();
              && s.tree.Real(s.head) && s.tree.Real(n) && n in s.notes
              && s.tree.nodes[n].parent in s.tree.nodes && s.tree.nodes[n].parent in s.notes
    {
    }

    predicate Wins(h: BlockHead, b: BlockHead) {
      h.number > b.number || (h.number == b.number && h.time < b.time)
    }

    // -------------------------------------------------------------- moving the root

    method WithoutName(list: seq<string>, w: string) returns (r: seq<string>)
      ensures r == Without(list, w)
    {
      r := [];
      for i := 0 to |list|
        invariant r + Without(list[i..], w) == Without(list, w)
      {
        if list[i] != w {
          r := r + [list[i]];
        }
        assert list[i..][1..] == list[i + 1..];
      }
    }

    /** The loop of removeValidWitness over the children of b. */
    method RemoveFromChildren(b: Node, r: Node, w: string, ghost below: set<Node>)
      requires View().tree.Shape() && b in View().tree.cached && r in View().tree.cached && View().tree.Real(r)
      requires below == View().tree.Subtree(b) && w == View().tree.HeadOf(r).producer
      modifies nodes`validWitness
      ensures b in old(View()).tree.nodes
      ensures View() == Stripped(old(View()), ExposedFrom(old(View()).tree, old(View()).tree.nodes[b].children, r), w)
      decreases below, 0
    {
      hide *;
      ghost var s := View();
      CachedNode(s.tree, b);
      var todo := ChildrenOf(b);
      ghost var gone: set<Node> := {};
      ExposedFromNext(s.tree, {}, b, r);
      StrippedNone(s, w);
      while todo != {}
        invariant gone + todo == s.tree.nodes[b].children
        invariant View() == Stripped(s, ExposedFrom(s.tree, gone, r), w)
        decreases todo
      {
        var c :| c in todo;
        SubtreeOfChild(s.tree, b, c);
        StrippedTree(s, ExposedFrom(s.tree, gone, r), w);
        RemoveValidWitness(c, r, s.tree.Subtree(c));
        StrippedNext(s, gone, c, r, w);
        todo := todo - {c};
        gone := gone + {c};
      }
      assert gone == s.tree.nodes[b].children;
    }

    /** Removes the name of r's producer from b downwards, and stops at other blocks by that producer. */
    method RemoveValidWitness(b: Node, r: Node, ghost below: set<Node>)
      requires View().tree.Shape() && b in View().tree.cached && r in View().tree.cached && View().tree.Real(r)
      requires below == View().tree.Subtree(b)
      modifies nodes`validWitness
      ensures View() == Stripped(old(View()), Exposed(old(View()).tree, b, r), old(View()).tree.HeadOf(r).producer)
      decreases below, 1
    {
      hide *;
      ghost var s := View();
      CachedNode(s.tree, b);
      CachedNode(s.tree, r);
      var w := ProducerOf(r);
      var v := ProducerOf(b);
      if b != r && v == w {
        ExposedStops(s.tree, b, r);
        StrippedNone(s, w);
      } else {
        StripNode(b, w);
        StrippedAll(s, b, r, w);
        WithNoteTree(s, b, s.notes[b].(validWitness := Without(s.notes[b].validWitness, w)));
        RemoveFromChildren(b, r, w, below);
      }
    }

    /** Removes a name from the list of one node. */
    method StripNode(b: Node, w: string)
      requires b in View().tree.nodes
      modifies nodes`validWitness
      ensures b in old(View()).notes
      ensures View() == WithNote(old(View()), b,
                                 old(View()).notes[b].(validWitness := Without(old(View()).notes[b].validWitness, w)))
    {
      assert NoteOf(b) == View().notes[b];
      var vw := WithoutName(b.validWitness, w);
      SetValidWitness(b, vw);
    }

    /** The loop of updateLinkedRoot over the siblings of the new root. */
    method DelSiblings(c: Node)
      requires Mapped() && View().tree.Shape() && View().tree.root in View().tree.nodes
      requires c in View().tree.nodes[View().tree.root].children
      modifies this`hash2node, this`leaf, nodes
      ensures Mapped()
      ensures View() == Detached(old(View()), Siblings(old(View()).tree, c))
    {
      ghost var s := View();
      RootIsPresent(s.tree);
      var siblings := ChildrenOf(linkedRoot);
      DelAll(siblings - {c}, s.tree.root);
      SiblingsAreBelow(s.tree, c);
    }

    /** Removes some of the children of p, with everything below them. */
    method DelAll(some: set<Node>, ghost p: Node)
      requires Mapped() && View().tree.Shape() && View().tree.Present(p)
      requires p in View().tree.nodes && some <= View().tree.nodes[p].children
      modifies this`hash2node, this`leaf, nodes
      ensures Mapped()
      ensures View() == Detached(old(View()), Below(old(View()).tree, some))
    {
      hide *;
      ghost var s := View();
      var todo := some;
      ghost var gone: set<Node> := {};
      DetachedNothing(s);
      while todo != {}
        invariant Mapped()
        invariant gone + todo == some && gone !! todo
        invariant View() == Detached(s, Below(s.tree, gone))
        decreases todo
      {
        var x :| x in todo;
        DetachedNextChild(s, p, gone, x);
        Del(x, View().tree.Subtree(x));
        todo := todo - {x};
        gone := gone + {x};
      }
      assert gone == some;
    }

    /** nmdel and SetLinkedRoot */
    method SetLinkedRoot(c: Node)
      requires linkedRoot in nodes && linkedRoot.block.Some?
      modifies this`number2node, this`linkedRoot
      ensures View() == var s := old(View());
                        s.(tree := s.tree.(root := c),
                           number2node := s.number2node - {s.tree.HeadOf(s.tree.root).number})
    {
      number2node := number2node - {linkedRoot.block.value.head.number};
      linkedRoot := c;
    }

    method MoveRoot(c: Node)
      requires Mapped() && c in nodes && c != linkedRoot && linkedRoot in nodes && linkedRoot.block.Some?
      requires linkedRoot.block.value.HeadHash() == linkedRoot.key
      requires linkedRoot.key in hash2node && hash2node[linkedRoot.key] == linkedRoot
      modifies this`number2node, this`hash2node, this`linkedRoot, c
      ensures Mapped() && View() == Rerooted(old(View()), c)
    {
      DelHash(linkedRoot);
      SetParent(c, null);
      SetLinkedRoot(c);
    }

    /** The search for a better head after the root moved. */
    method UpdateLongest()
      requires View().tree.Real(View().head) && forall n :: n in View().leaf ==> View().tree.Real(n)
      modifies this`head
      ensures View() == old(View()).(head := View().head)
      ensures View().head == old(View()).head ||
              (View().head in View().leaf && View().tree.Real(View().head) &&
               View().tree.Beats(View().head, old(View()).head))
      ensures old(View()).tree.HeadOf(old(View()).head) in Heads() ==> View().head == old(View()).head
      ensures old(View()).tree.HeadOf(old(View()).head) !in Heads() ==>
                View().tree.Real(View().head) && forall n :: n in View().leaf ==> !View().tree.Beats(n, View().head)
    {
      assert forall n :: n in nodes ==> PlaceOf(n) == View().tree.nodes[n];
      if head.block.value.HeadHash() in hash2node {
        return;
      }
      var todo := leaf;
      while todo != {}
        invariant todo <= leaf && head in nodes && head.block.Some?
        invariant head == old(head) || (head in leaf && Wins(head.block.value.head, old(head.block.value.head)))
        invariant forall n :: n in leaf - todo ==> !Wins(n.block.value.head, head.block.value.head)
        decreases todo
      {
        var n :| n in todo;
        if Wins(n.block.value.head, head.block.value.head) {
          head := n;
        }
        todo := todo - {n};
      }
    }

    /** The heads of the blocks in hash2node. */
    ghost function Heads(): set<BlockHead>
      reads this`hash2node
    {
      set h | h in hash2node && h.Sha3? :: h.head
    }

    // -------------------------------------------------------------- delSingle

    /** One orphan: it is removed with its descendants if its number is no higher than the root's. */
    method SweepOrphan(x: Node, height: int, ghost s: State, ghost gone: set<Node>) returns (outdated: bool)
      requires Mapped() && s.tree.Shape() && x in s.tree.cached && x !in gone
      requires s.tree.nodes[x].parent in s.tree.virtuals && height == s.tree.HeadOf(s.tree.root).number
      requires forall y :: y in gone ==> Outdated(s.tree, y)
      requires View() == Detached(s, Below(s.tree, gone))
      modifies this`hash2node, this`leaf, nodes
      ensures Mapped()
      ensures View() == Detached(s, Below(s.tree, gone + (if Outdated(s.tree, x) then {x} else {})))
      ensures outdated == Outdated(s.tree, x)
    {
      assert x in View().tree.nodes && s.tree.Hashed(x);
      assert PlaceOf(x) == View().tree.nodes[x];
      outdated := x.block.value.head.number <= height;
      if outdated {
        OutdatedNext(s, gone, x);
        Del(x, View().tree.Subtree(x));
      } else {
        assert gone + {} == gone;
      }
    }

    /** The orphans below one virtual node, one after the other. */
    method SweepOrphans(orphans: set<Node>, height: int, ghost v: Node, ghost s: State, ghost gone: set<Node>)
      returns (any: bool)
      requires Mapped() && s.tree.Shape() && v in s.tree.virtuals && orphans == s.tree.nodes[v].children
      requires height == s.tree.HeadOf(s.tree.root).number
      requires forall x :: x in gone ==> Outdated(s.tree, x) && s.tree.nodes[x].parent != v
      requires View() == Detached(s, Below(s.tree, gone))
      modifies this`hash2node, this`leaf, nodes
      ensures Mapped()
      ensures View() == Detached(s, Below(s.tree, gone + OutdatedIn(s.tree, orphans)))
      ensures any <==> OutdatedIn(s.tree, orphans) != {}
    {
      assert forall x :: x in orphans ==> s.tree.nodes[x].parent == v && x in s.tree.cached;
      hide Detached, Below, Tree.Shape;
      var todo := orphans;
      ghost var seen: set<Node> := {};
      any := false;
      SweptNext(s.tree, gone, {}, v);
      OutdatedInNext(s.tree, {}, v);
      while todo != {}
        invariant Mapped()
        invariant todo <= orphans && seen == orphans - todo
        invariant any <==> OutdatedIn(s.tree, seen) != {}
        invariant View() == Detached(s, Below(s.tree, gone + OutdatedIn(s.tree, seen)))
        decreases todo
      {
        var x :| x in todo;
        var outdated := SweepOrphan(x, height, s, gone + OutdatedIn(s.tree, seen));
        SweptNext(s.tree, gone, seen, x);
        any := any || outdated;
        assert orphans - (todo - {x}) == seen + {x};
        todo := todo - {x};
        seen := seen + {x};
      }
      assert seen == orphans;
    }

    /** Removes the outdated orphans below v and tells whether v lost its last child to them. */
    method SweepVirtual(v: Node, height: int, ghost s: State, ghost gone: set<Node>) returns (emptied: bool)
      requires Mapped() && s.tree.Shape() && v in s.tree.virtuals && v in nodes
      requires height == s.tree.HeadOf(s.tree.root).number
      requires forall x :: x in gone ==> Outdated(s.tree, x) && s.tree.nodes[x].parent != v
      requires View() == Detached(s, Below(s.tree, gone))
      modifies this`hash2node, this`leaf, nodes
      ensures Mapped()
      ensures View() == Detached(s, Below(s.tree, gone + OutdatedIn(s.tree, s.tree.nodes[v].children)))
      ensures emptied <==> v in OutdatedVirtuals(s.tree)
    {
      ghost var kids := s.tree.nodes[v].children;
      assert forall x :: x in kids ==> s.tree.nodes[x].parent == v;
      RemainingChildren(s, gone, v);
      RemainingChildren(s, gone + OutdatedIn(s.tree, kids), v);
      EmptiedVirtual(s.tree, v);
      assert v.children == View().tree.nodes[v].children == kids;
      var any := SweepOrphans(v.children, height, v, s, gone);
      assert v.children == View().tree.nodes[v].children == kids - OutdatedIn(s.tree, kids);
      emptied := any && v.children == {};
    }

    /** The loop of delSingle. The entries to drop are collected and removed after it. */
    method SweepVirtuals(height: int) returns (gone: set<Hash>)
      requires Mapped() && View().tree.Shape() && height == View().tree.HeadOf(linkedRoot).number
      modifies this`hash2node, this`leaf, nodes
      ensures Mapped()
      ensures View() == Detached(old(View()), OutdatedNodes(old(View()).tree))
      ensures forall h :: h in gone <==> h in singleRoot && singleRoot[h] in OutdatedVirtuals(old(View()).tree)
    {
      ghost var s := View();
      var todo := singleRoot.Keys;
      gone := {};
      DetachedNothing(s);
      assert Visited(s.tree, todo) == {};
      assert OutdatedUnder(s.tree, {}) == {};
      while todo != {}
        invariant Mapped() && todo <= singleRoot.Keys
        invariant View() == Detached(s, Below(s.tree, OutdatedUnder(s.tree, Visited(s.tree, todo))))
        invariant forall h :: h in gone <==> h in singleRoot && h !in todo && singleRoot[h] in OutdatedVirtuals(s.tree)
        decreases todo
      {
        var h :| h in todo;
        var v := singleRoot[h];
        assert v in s.tree.virtuals && s.tree.nodes[v].key == h;
        VisitedNext(s, todo, v);
        var emptied := SweepVirtual(v, height, s, OutdatedUnder(s.tree, Visited(s.tree, todo)));
        if emptied {
          gone := gone + {h};
        }
        todo := todo - {h};
      }
      assert Visited(s.tree, {}) == s.tree.virtuals;
      OutdatedUnderAll(s.tree);
    }

    /** Drops entries of singleRoot. */
    method DropVirtuals(gone: set<Hash>, ghost virtuals: set<Node>)
      requires Mapped() && forall h :: h in gone <==> h in singleRoot && singleRoot[h] in virtuals
      modifies this`singleRoot
      ensures Mapped()
      ensures View() == old(View()).(tree := old(View()).tree.(virtuals := old(View()).tree.virtuals - virtuals))
    {
      singleRoot := singleRoot - gone;
      assert Virtuals() == old(Virtuals()) - virtuals;
    }

    method DelSingle()
      requires Mapped() && View().tree.Shape()
      modifies this`hash2node, this`leaf, this`singleRoot, nodes
      ensures Mapped() && View() == Swept(old(View()))
    {
      ghost var s := View();
      assert s.tree.Hashed(linkedRoot);
      var height := linkedRoot.block.value.head.number;
      if height % DEL_SINGLE_BLOCK_TIME == 0 {
        var gone := SweepVirtuals(height);
        DropVirtuals(gone, OutdatedVirtuals(s.tree));
      }
    }

    // -------------------------------------------------------------- updateLinkedRoot

    /** AppendIfNotExists */
    method AppendIfNotExists(list: seq<string>, w: string) returns (r: seq<string>)
      ensures r == if w in list then list else list + [w]
    {
      for i := 0 to |list|
        invariant w !in list[..i]
      {
        if list[i] == w {
          return list;
        }
      }
      r := list + [w];
    }

    method UpdateLinkedRootWitness(c: Node)
      requires c in View().notes && View().tree.root in View().notes && View().tree.Real(c)
      modifies this`linkedRootWitness
      ensures View() == old(View()).(linkedRootWitness := RootWitness(old(View()), c))
    {
      assert NoteOf(linkedRoot) == View().notes[linkedRoot] && NoteOf(c) == View().notes[c] &&
             PlaceOf(c) == View().tree.nodes[c];
      var kept := if linkedRoot.pending != c.pending then [] else linkedRootWitness;
      linkedRootWitness := AppendIfNotExists(kept, c.block.value.head.producer);
    }

    /** flush: the block of the root joins the irreversible chain. */
    method Flush()
      requires linkedRoot in nodes && linkedRoot.block.Some?
      modifies this`blockChain
      ensures View() == old(View()).(chain := old(View()).chain + [old(View()).tree.nodes[linkedRoot].block.value])
    {
      blockChain := blockChain + [linkedRoot.block.value];
    }

    method Choose(c: Node)
      requires Mapped() && CanChoose(View(), c)
      modifies this`hash2node, this`leaf, this`linkedRootWitness, nodes
      ensures Mapped() && View() == Chosen(old(View()), c)
    {
      hide *;
      ghost var s := View();
      ChoosesParts(s, c);
      DelSiblings(c);
      ChosenParts(s, c);
      UpdateLinkedRootWitness(c);
    }

    method Reroot(c: Node)
      requires Mapped() && CanReroot(View(), c)
      modifies this`number2node, this`hash2node, this`linkedRoot, nodes
      ensures Mapped() && View() == NewRoot(old(View()), c)
    {
      ghost var s := View();
      assert s.tree.Hashed(linkedRoot) && PlaceOf(linkedRoot) == s.tree.nodes[linkedRoot];
      assert s.tree.nodes[c].parent == linkedRoot && s.tree.nodes[linkedRoot].parent == null;
      RemoveValidWitness(c, c, s.tree.Subtree(c));
      MoveRoot(c);
    }

    method RerootAndSweep(c: Node)
      requires Mapped() && CanReroot(View(), c) && NewRoot(View(), c).tree.Shape()
      modifies this`number2node, this`hash2node, this`linkedRoot, this`leaf, this`singleRoot, nodes
      ensures Mapped() && View() == Swept(NewRoot(old(View()), c))
    {
      Reroot(c);
      DelSingle();
    }

    /** updateLinkedRoot */
    method UpdateLinkedRoot(c: Node)
      requires Mapped() && CanChoose(View(), c)
      modifies this, nodes
      ensures Mapped() && View() == Advanced(old(View()), c) && nodes == old(nodes)
    {
      hide *;
      AdvancedInv(View(), c);
      Choose(c);
      RerootAndSweep(c);
      LongestUnchanged();
    }

    /** The head is never replaced when the root moves: no live node beats it. */
    method LongestUnchanged()
      requires Mapped() && View().Inv()
      modifies this`head
      ensures Mapped() && View() == old(View())
    {
      hide *;
      NoLeafBeats(View());
      UpdateLongest();
    }

    /** updateLinkedRoot and flush */
    method AdvanceRoot(c: Node)
      requires Mapped() && CanChoose(View(), c)
      modifies this, nodes
      ensures Mapped() && AdvancesTo(old(View()), c, View()) && nodes == old(nodes)
    {
      hide *;
      ghost var s := View();
      UpdateLinkedRoot(c);
      AdvancedRoot(s, c);
      RootInView();
      Flush();
    }

    lemma RootInView()
      ensures View().tree.root == linkedRoot
      ensures linkedRoot in View().tree.nodes ==>
                linkedRoot in nodes && View().tree.nodes[linkedRoot].block == linkedRoot.block
    {
      assert linkedRoot in nodes ==> PlaceOf(linkedRoot) == View().tree.nodes[linkedRoot];
    }

    // -------------------------------------------------------------- UpdateLib

    /** The loops of updateActive: the names of `list` that are also in `to`, in order. */
    method RestrictTo(list: seq<string>, to: seq<string>) returns (r: seq<string>)
      ensures r == Restricted(list, to)
    {
      r := [];
      for i := 0 to |list|
        invariant r + Restricted(list[i..], to) == Restricted(list, to)
      {
        assert list[i..][1..] == list[i + 1..];
        for j := 0 to |to|
          invariant list[i] !in to[..j]
        {
          if list[i] == to[j] {
            r := r + [list[i]];
            break;
          }
        }
      }
    }

    method UpdateActive(n: Node)
      requires n in nodes && linkedRoot in nodes
      modifies n`validWitness, n`active, n`pending, n`serialNum
      ensures Mapped() == old(Mapped()) && View() == Switched(old(View()), n)
    {
      var vw := RestrictTo(n.validWitness, linkedRoot.pending);
      SetNote(n, Note(vw, linkedRoot.pending, n.pending, n.serialNum));
    }

    /** Counts the producers that confirmed the root since its pending list changed or n since then. */
    method CheckUpdateActive(n: Node, limit: int) returns (enough: bool)
      ensures enough <==>
              n.validWitness != [] && |linkedRootWitness| + Unlisted(n.validWitness, linkedRootWitness) >= limit
    {
      var vw, cnt := n.validWitness, |linkedRootWitness|;
      for i := 0 to |vw|
        invariant cnt + Unlisted(vw[i..], linkedRootWitness) == |linkedRootWitness| + Unlisted(vw, linkedRootWitness)
        invariant i > 0 ==> cnt < limit
      {
        assert vw[i..][1..] == vw[i + 1..];
        var inc := true;
        for j := 0 to |linkedRootWitness|
          invariant inc && vw[i] !in linkedRootWitness[..j]
        {
          if vw[i] == linkedRootWitness[j] {
            inc := false;
            break;
          }
        }
        if inc {
          cnt := cnt + 1;
        }
        if cnt >= limit {
          return true;
        }
      }
      enough := false;
    }

    /** The blocks from n down to the root, by number. */
    method BlockList(n: Node) returns (list: map<int, Node>)
      requires View().Chained() && View().tree.Live(n) && n != View().tree.root
      ensures Listed(View(), n, list)
    {
      ghost var s := View();
      WalkStarts(s, n);
      WalkStep(s, n, n, map[]);
      list := map[n.block.value.head.number := n];
      assert list == map[][s.tree.HeadOf(n).number := n];
      var m := n.parent;
      while m != linkedRoot
        invariant m != null && WalkedTo(s, n, m, list)
        decreases if m == null then 0 else s.tree.HeadOf(m).number - s.tree.HeadOf(s.tree.root).number
      {
        WalkStep(s, n, m, list);
        assert PlaceOf(m) == s.tree.nodes[m];
        list := list[m.block.value.head.number := m];
        m := m.parent;
      }
      WalkEnds(s, n, list);
    }

    /** The guard of the loop of updateLib, with the block the root moves to next. */
    method NextRoot(n: Node, limit: int, list: map<int, Node>) returns (next: Node?)
      requires Climbing(View(), n, list) && limit == ConfirmLimit(View().witnessNum)
      ensures if next != null then IsNext(View(), n, next) else !CanAdvance(View(), n)
    {
      ghost var s := View();
      hide State.Inv, Climbing, CanAdvance, IsNext;
      GuardDecides(s, n, list);
      assert PlaceOf(linkedRoot) == s.tree.nodes[linkedRoot] && NoteOf(n) == s.notes[n];
      var number := linkedRoot.block.value.head.number + 1;
      if |n.validWitness| >= limit && n.active == linkedRoot.pending && number in list {
        next := list[number];
      } else {
        next := null;
      }
    }

    /** The body of the loop of updateLib. */
    method Round(n: Node, list: map<int, Node>, c: Node, ghost s: State, ghost before: Trace) returns (ghost tr: Trace)
      requires Mapped() && Climbing(View(), n, list) && IsNext(View(), n, c)
      requires Connects(before, s, View()) && OnlyAdvances(before, n)
      modifies this, nodes
      ensures Mapped() && Climbing(View(), n, list) && View().witnessNum == old(View().witnessNum) &&
              nodes == old(nodes)
      ensures Height(View(), n) < old(Height(View(), n))
      ensures Connects(tr, s, View()) && OnlyAdvances(tr, n)
    {
      hide *;
      ghost var t := View();
      NextChooses(t, n, c);
      AdvanceRoot(c);
      AdvanceRound(t, n, list, c, View());
      OneMoreAdvance(before, n, s, t, View());
      tr := Then(before, Trace([t, View()], [Advance(n)]));
    }

    /** The root moves towards n for as long as n confirms it. */
    method Climb(n: Node, limit: int, list: map<int, Node>) returns (ghost tr: Trace)
      requires Mapped() && Climbing(View(), n, list) && limit == ConfirmLimit(View().witnessNum)
      modifies this, nodes
      ensures Mapped() && Climbing(View(), n, list) && !CanAdvance(View(), n) && nodes == old(nodes)
      ensures Connects(tr, old(View()), View()) && OnlyAdvances(tr, n)
    {
      hide *;
      ghost var s := View();
      Unmoved(s, n);
      tr := Trace([s], []);
      var next := NextRoot(n, limit, list);
      while next != null
        invariant Mapped() && Climbing(View(), n, list) && limit == ConfirmLimit(View().witnessNum) &&
                  nodes == old(nodes)
        invariant Connects(tr, s, View()) && OnlyAdvances(tr, n)
        invariant if next != null then IsNext(View(), n, next) else !CanAdvance(View(), n)
        decreases Height(View(), n)
      {
        tr := Round(n, list, next, s, tr);
        next := NextRoot(n, limit, list);
      }
    }

    method ActiveIsPending(n: Node) returns (same: bool)
      requires n in View().notes && View().tree.root in View().notes
      ensures same <==> View().notes[n].active == View().notes[View().tree.root].pending
    {
      assert NoteOf(n) == View().notes[n] && NoteOf(linkedRoot) == View().notes[linkedRoot];
      same := n.active == linkedRoot.pending;
    }

    /** updateLib */
    method MoveLib(n: Node, limit: int) returns (ghost tr: Trace)
      requires Mapped() && View().Inv() && View().Finalized() && JustLinked(View(), n) && n != View().tree.root
      requires limit == ConfirmLimit(View().witnessNum)
      modifies this, nodes
      ensures Mapped() && View().Inv() && View().Finalized() && JustLinked(View(), n) && !CanAdvance(View(), n)
      ensures nodes == old(nodes) && Connects(tr, old(View()), View()) && OnlyAdvances(tr, n)
    {
      hide *;
      ghost var s := View();
      Unmoved(s, n);
      tr := Trace([s], []);
      JustLinkedParts(s, n);
      var same := ActiveIsPending(n);
      if same {
        var list := BlockList(n);
        ClimbStarts(s, n, list);
        tr := Climb(n, limit, list);
        ClimbParts(View(), n, list);
      } else {
        OtherListStays(s, n);
      }
    }

    /** Moves the root as far as n confirms it, then decides whether n starts a new active list. */
    method DecideSwitch(n: Node) returns (due: bool, ghost tr: Trace)
      requires Mapped() && View().Inv() && View().Finalized() && JustLinked(View(), n) && n != View().tree.root
      modifies this, nodes
      ensures Mapped() && View().Inv() && View().Finalized() && JustLinked(View(), n) && nodes == old(nodes)
      ensures n in View().notes && linkedRoot in View().notes
      ensures Connects(tr, old(View()), View()) && OnlyAdvances(tr, n)
      ensures n in old(View()).notes && (due <==> SwitchDue(old(View()), View(), n))
      ensures if |old(View()).notes[n].validWitness| < ConfirmLimit(old(View()).witnessNum) then View() == old(View())
              else !CanAdvance(View(), n)
    {
      hide State.Inv, State.Finalized, CanAdvance, Connects, JustLinked, OnlyAdvances;
      ghost var s := View();
      JustLinkedParts(s, n);
      Unmoved(s, n);
      tr := Trace([s], []);
      assert NoteOf(n) == s.notes[n] && NoteOf(linkedRoot) == s.notes[linkedRoot];
      UnlistedBound(n.validWitness, linkedRootWitness);
      var limit := GoInt.TruncDiv(witnessNum * 2, 3) + 1;
      due := false;
      if |n.validWitness| >= limit {
        tr := MoveLib(n, limit);
        JustLinkedParts(View(), n);
        assert NoteOf(n) == View().notes[n] && NoteOf(linkedRoot) == View().notes[linkedRoot];
        due := n.active != linkedRoot.pending;
      } else if |n.validWitness| + |linkedRootWitness| >= limit && n.active != linkedRoot.pending {
        due := CheckUpdateActive(n, limit);
      }
    }

    /** UpdateLib. The state `mid` is reached by moving the root, before any switch of the active list. */
    method UpdateLib(n: Node) returns (ghost tr: Trace, ghost climb: Trace, ghost mid: State)
      requires Mapped() && View().Inv() && View().Finalized() && JustLinked(View(), n) && n != View().tree.root
      modifies this, nodes
      ensures Mapped() && nodes == old(nodes) && Connects(tr, old(View()), View()) && LibSteps(tr, n)
      ensures View().Inv() && n in View().leaf
      ensures LibUpdated(old(View()), n, climb, mid, View())
    {
      hide *;
      ghost var s := View();
      var due;
      due, tr := DecideSwitch(n);
      mid := View();
      HeadAndRoot();
      climb := tr;
      AdvancesAreLibSteps(tr, n);
      CanSwitchLeaf(mid, n);
      if due {
        NotesAreNodes();
        UpdateActive(n);
        SwitchedRun(s, tr, mid, n);
        SwitchedKeepsInv(mid, n);
        tr := Then(tr, Trace([mid, View()], [Switch(n)]));
      }
      IsUpdated(s, n, climb, mid, View());
    }

    lemma NotesAreNodes()
      ensures forall n :: n in View().notes ==> n in nodes
    {
    }

    // -------------------------------------------------------------- GetBlockByNumber

    method SetIndex(n: Node)
      requires View().tree.Real(n)
      modifies this`number2node
      ensures View() == IndexedAt(old(View()), n)
    {
      number2node := number2node[n.block.value.head.number := n];
    }

    method IsIndexed(n: Node) returns (b: bool)
      requires View().tree.Real(n)
      ensures b <==> View().Indexed(n)
    {
      assert PlaceOf(n) == View().tree.nodes[n];
      b := n.block.value.head.number in number2node && number2node[n.block.value.head.number] == n;
    }

    method ParentOf(n: Node) returns (p: Node?)
      requires n in View().tree.nodes
      ensures p == View().tree.nodes[n].parent
    {
      assert PlaceOf(n) == View().tree.nodes[n];
      p := n.parent;
    }

    method NumberOf(n: Node) returns (k: int)
      requires View().tree.Real(n)
      ensures k == View().tree.HeadOf(n).number
    {
      assert PlaceOf(n) == View().tree.nodes[n];
      k := n.block.value.head.number;
    }

    /** The loop of GetBlockByNumber. */
    method RepairIndex()
      requires View().Inv() && View().tree.Shape() && View().tree.Real(View().head) && View().head == head
      modifies this`number2node
      ensures View() == Repaired(old(View()), old(View()).head)
    {
      hide *;
      ghost var s := View();
      RepairStarts(s);
      RepairingIsReal(s, s.head);
      var it: Node? := head;
      while it != null
        invariant View().tree == s.tree && (it != null ==> it in s.tree.nodes)
        invariant it != null ==> View().tree.Shape() && View().tree.Real(it) && Repairing(View(), it)
        invariant it != null ==> Repaired(View(), it) == Repaired(s, s.head)
        invariant it == null ==> View() == Repaired(s, s.head)
        decreases if it == null then 0 else 1 + Depth(s.tree.nodes[it].key)
      {
        ghost var t := View();
        var indexed := IsIndexed(it);
        if indexed {
          RepairDone(t, it);
          break;
        }
        RepairStep(t, it);
        var p := ParentOf(it);
        SetIndex(it);
        if p != null {
          RepairingIsReal(View(), p);
        }
        it := p;
      }
    }

    method BlockAt(num: int) returns (r: Option<Block>)
      requires num in View().number2node ==> View().number2node[num] in View().tree.nodes
      ensures r == if num in View().number2node then View().tree.nodes[View().number2node[num]].block else None
    {
      if num in number2node {
        assert PlaceOf(number2node[num]) == View().tree.nodes[number2node[num]];
        r := number2node[num].block;
      } else {
        r := None;
      }
    }

    lemma HeadAndRoot()
      ensures View().head == head && View().tree.root == linkedRoot
    {
    }

    /**
     While the head is live, this is the head's ancestor with the given number; otherwise the head itself, or what
     the index held.
     */
    method GetBlockByNumber(num: int) returns (r: Option<Block>)
      requires Mapped() && View().Inv()
      modifies this`number2node
      ensures Mapped() && View().Inv()
      ensures IsLookup(old(View()), num, View(), r)
    {
      hide *;
      ghost var s := View();
      InvParts(s);
      HeadAndRoot();
      var lo := NumberOf(linkedRoot);
      var hi := NumberOf(head);
      if num < lo || num > hi {
        LookupOutside(s, num);
        return None;
      }
      RepairIndex();
      RepairKeepsInv(s);
      if num in View().number2node {
        EntriesAreNodes(View(), num);
      }
      r := BlockAt(num);
      LookupInside(s, num, r);
    }

    /** addExistingBlock sets the serial number before it links the block. */
    method SetSerialNum(n: Node, k: int)
      requires n in View().notes
      modifies nodes`serialNum
      ensures Mapped() == old(Mapped()) && View() == Numbered(old(View()), n, k)
    {
      n.serialNum := k;
      assert Places() == old(Places()) && Notes() == old(Notes())[n := NoteOf(n)];
    }
  }

  lemma NoLeafBeats(s: State)
    requires s.Inv()
    ensures s.tree.Real(s.head) && forall n :: n in s.leaf ==> s.tree.Real(n) && !s.tree.Beats(n, s.head)
  {
    forall n | n in s.leaf ensures s.tree.Real(n) && !s.tree.Beats(n, s.head) {
      assert s.tree.IsLeaf(n) && s.tree.Hashed(n);
    }
  }

  lemma ChoosesParts(s: State, c: Node)
    requires CanChoose(s, c)
    ensures s.tree.Shape() && s.tree.root in s.tree.nodes && c in s.tree.nodes[s.tree.root].children
  {
  }

  lemma ChosenParts(s: State, c: Node)
    requires CanChoose(s, c)
    ensures s.tree.Shape() && s.tree.Real(c) && c in s.notes
    ensures var d := Detached(s, Siblings(s.tree, c));
            && c in d.notes && d.tree.root in d.notes && d.tree.Real(c)
            && d.(linkedRootWitness := RootWitness(d, c)) == Chosen(s, c)
  {
    assert s.tree.Hashed(c);
  }

  lemma SwitchedRun(s: State, tr: Trace, t: State, n: Node)
    requires Connects(tr, s, t) && CanSwitch(t, n)
    ensures n in t.notes && t.tree.root in t.notes && Switched(t, n).leaf == t.leaf
    ensures Connects(Then(tr, Trace([t, Switched(t, n)], [Switch(n)])), s, Switched(t, n))
    ensures LibSteps(tr, n) ==> LibSteps(Then(tr, Trace([t, Switched(t, n)], [Switch(n)])), n)
  {
    LibStepsThen(tr, t, n);
    hide *;
    SwitchDoes(t, n);
    ConnectsOne(t, Switch(n), Switched(t, n));
    ConnectsThen(tr, Trace([t, Switched(t, n)], [Switch(n)]), s, t, Switched(t, n));
  }

  lemma LibStepsThen(tr: Trace, t: State, n: Node)
    requires n in t.notes && t.tree.root in t.notes
    ensures LibSteps(tr, n) ==> LibSteps(Then(tr, Trace([t, Switched(t, n)], [Switch(n)])), n)
  {
  }

  lemma SwitchDoes(t: State, n: Node)
    requires CanSwitch(t, n)
    ensures n in t.notes && t.tree.root in t.notes && Does(t, Switch(n), Switched(t, n))
  {
  }

  lemma ConnectsOne(s: State, step: Step, t: State)
    requires Does(s, step, t)
    ensures Connects(Trace([s, t], [step]), s, t)
  {
  }

  /** Adding a block makes virtual nodes and fills one of them. */
  ghost predicate AddSteps(tr: Trace) {
    forall i :: 0 <= i < |tr.steps| ==> tr.steps[i].NewVirtual? || tr.steps[i].Fill?
  }

  /** n has just received its block. */
  ghost predicate Received(s: State, n: Node, blk: Block) {
    && n in s.tree.nodes && n in s.tree.cached && !s.tree.nodes[n].linked && n != s.tree.root
    && s.tree.nodes[n].block == Some(blk)
    && s.tree.nodes[n].parent != null && s.tree.Present(s.tree.nodes[n].parent)
  }

  lemma NoSteps(s: State)
    ensures Connects(Trace([s], []), s, s) && AddSteps(Trace([s], []))
  {
  }

  lemma FilledReceived(s: State, m: Node, blk: Block, p: Node)
    requires CanFill(s.tree, m, blk, p)
    ensures Received(s.(tree := Filled(s.tree, m, blk, p)), m, blk)
  {
    assert s.tree.VirtualShape(m);
    assert Depth(s.tree.nodes[m].key) == 1 + Depth(s.tree.nodes[p].key);
  }

  lemma AddedRun(s: State, tr: Trace, s1: State, m: Node, blk: Block, p: Node)
    requires s.Inv() && s.Finalized() && Connects(tr, s, s1) && AddSteps(tr)
    requires m in s1.tree.virtuals && m in s1.tree.nodes && s1.tree.nodes[m].key == blk.HeadHash()
    requires s1.tree.Present(p) && s1.tree.nodes[p].key == blk.head.parentHash
    ensures var t := s1.(tree := Filled(s1.tree, m, blk, p));
            && Connects(Then(tr, Trace([s1, t], [Fill(m, blk, p)])), s, t)
            && AddSteps(Then(tr, Trace([s1, t], [Fill(m, blk, p)])))
            && Received(t, m, blk)
  {
    RunIsSafe(tr, s, s1, 0, |tr.steps|);
    FilledReceived(s1, m, blk, p);
    var t := s1.(tree := Filled(s1.tree, m, blk, p));
    ConnectsOne(s1, Fill(m, blk, p), t);
    hide State.Inv, State.Finalized, Connects;
    ConnectsThen(tr, Trace([s1, t], [Fill(m, blk, p)]), s, s1, t);
  }

  lemma AdvancedRoot(s: State, c: Node)
    requires CanChoose(s, c)
    ensures s.Shape() && s.tree.Real(c) && c in s.notes
    ensures var t := Advanced(s, c);
            && t.tree.root == c && c in t.tree.nodes && t.tree.nodes[c].block.Some?
            && AdvancesTo(s, c, t.(chain := t.chain + [t.tree.nodes[c].block.value]))
  {
    AdvancedInv(s, c);
    AdvancesEffect(s, c, Advanced(s, c).(chain := s.chain + [s.tree.nodes[c].block.value]));
  }
}
