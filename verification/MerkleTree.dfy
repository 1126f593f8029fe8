/** The Merkle tree in a flat array: the children of slot p are slots 2p+1 and 2p+2. */
module MerkleTreeImpl {
  import opened GoInt
  import opened Options
  import opened MerkleSpec

  // ---------------------------------------------------------------- powers of two

  function Pow2(k: nat): (r: nat)
    ensures r >= 1
  {
    if k == 0 then 1 else 2 * Pow2(k - 1)
  }

  /** The k with 2^k >= len that is smallest. */
  function CeilLog2(len: nat): (k: nat)
    requires len > 0
    ensures len <= Pow2(k) && (k > 0 ==> Pow2(k - 1) < len)
  {
    if len == 1 then 0
    else
      var k := CeilLog2((len + 1) / 2);
      assert k > 0 ==> Pow2(k) == 2 * Pow2(k - 1);
      k + 1
  }

  // ---------------------------------------------------------------- the flat array

  /** The slots of the level that is w wide hold `level`, and nothing after it. */
  ghost predicate Holds<T>(list: seq<Option<T>>, w: nat, level: seq<T>) {
    && 0 < w && 2 * w <= |list| && |level| <= w
    && forall i :: w - 1 <= i < 2 * w - 1 ==>
       list[i] == if i - (w - 1) < |level| then Some(level[i - (w - 1)]) else None
  }

  /** Nothing has been written to the slots before `end`. */
  ghost predicate Blank<T>(list: seq<Option<T>>, end: nat) {
    end <= |list| && forall i :: 0 <= i < end ==> list[i] == None
  }

  /** Slot p is the hash of its children; a missing right child is replaced by the left one. */
  ghost predicate Hashes<T>(h: (T, T) -> T, list: seq<Option<T>>, p: nat)
    requires 2 * p + 2 < |list|
  {
    var l, r := list[2 * p + 1], list[2 * p + 2];
    && (l.None? ==> r.None? && list[p].None?)
    && (l.Some? ==> list[p] == Some(h(l.value, if r.Some? then r.value else l.value)))
  }

  /** The width of the level above; the only slot of a one-leaf tree is its own parent. */
  function Above(w: nat): nat {
    if w <= 1 then 1 else w / 2
  }

  /** A level before its parents are computed. In a one-leaf tree an unused slot follows it. */
  ghost predicate Ready<T>(list: seq<Option<T>>, w: nat, level: seq<T>) {
    && level != [] && Holds(list, w, level)
    && (w == 1 || w % 2 == 0)
    && (w == 1 ==> |list| == 2 && list[1] == None)
    && Blank(list, w - 1)
  }

  /** The list with s in the slots from `at` on. */
  ghost function Filled<T>(list: seq<Option<T>>, at: nat, s: seq<T>): (r: seq<Option<T>>)
    requires at + |s| <= |list|
    ensures |r| == |list|
    ensures forall i :: 0 <= i < |list| ==> r[i] == if at <= i < at + |s| then Some(s[i - at]) else list[i]
  {
    seq(|list|, i requires 0 <= i < |list| => if at <= i < at + |s| then Some(s[i - at]) else list[i])
  }

  lemma FilledNext<T>(list: seq<Option<T>>, at: nat, s: seq<T>, x: T)
    requires at + |s| < |list|
    ensures Filled(list, at, s + [x]) == Filled(list, at, s)[at + |s| := Some(x)]
  {
  }

  lemma FilledNone<T>(list: seq<Option<T>>, at: nat)
    requires at <= |list|
    ensures Filled(list, at, []) == list
  {
  }

  lemma AboveIsPositive(w: nat)
    ensures Above(w) >= 1
  {
  }

  lemma PrefixNext<T>(s: seq<T>, j: nat)
    requires j < |s|
    ensures s[..j + 1] == s[..j] + [s[j]]
  {
  }

  /** The pair of slots from which the j-th parent is hashed. */
  lemma PairAt<T>(h: (T, T) -> T, list: seq<Option<T>>, w: nat, level: seq<T>, j: nat)
    requires Ready(list, w, level) && j < |PairUp(h, level)|
    ensures var at, up := Above(w) - 1, PairUp(h, level);
            var i := w - 1 + 2 * j;
            && at + |up| <= |list| && i + 1 < |list| && TruncDiv(i - 1, 2) == at + j
            && Filled(list, at, up[..j])[i] == Some(level[2 * j])
            && Filled(list, at, up[..j])[i + 1] == if 2 * j + 1 < |level| then Some(level[2 * j + 1]) else None
  {
  }

  /** One parent is hashed from its pair of slots. */
  lemma HashStep<T>(h: (T, T) -> T, list: seq<Option<T>>, w: nat, level: seq<T>, j: nat)
    requires Ready(list, w, level) && j < |PairUp(h, level)| && Above(w) - 1 + |PairUp(h, level)| <= |list|
    ensures var at, up, i := Above(w) - 1, PairUp(h, level), w - 1 + 2 * j;
            var cur := Filled(list, at, up[..j]);
            && i + 1 < |cur| && TruncDiv(i - 1, 2) == at + j < |cur| && cur[i].Some?
            && Filled(list, at, up[..j + 1]) ==
               cur[at + j := Some(h(cur[i].value, if cur[i + 1].Some? then cur[i + 1].value else cur[i].value))]
  {
    hide Ready, Holds, Filled, TruncDiv;
    var at, up := Above(w) - 1, PairUp(h, level);
    PairAt(h, list, w, level, j);
    FilledNext(list, at, up[..j], up[j]);
    PrefixNext(up, j);
  }

  /** The level above is complete. */
  lemma RaisedHolds<T>(h: (T, T) -> T, list: seq<Option<T>>, w: nat, level: seq<T>)
    requires Ready(list, w, level)
    ensures var at, up := Above(w) - 1, PairUp(h, level);
            && at + |up| <= |list| && Holds(Filled(list, at, up), Above(w), up) && Blank(Filled(list, at, up), at)
            && (w > 1 ==> forall i :: w - 1 <= i < |list| ==> Filled(list, at, up)[i] == list[i])
            && (w > 1 ==> forall p :: at <= p < w - 1 ==> Hashes(h, Filled(list, at, up), p))
  {
    var at, up := Above(w) - 1, PairUp(h, level);
    var r := Filled(list, at, up);
    if w > 1 {
      forall p | at <= p < w - 1 ensures Hashes(h, r, p) {
        var j := p - at;
        assert 2 * p + 1 == w - 1 + 2 * j;
        assert r[2 * p + 1] == list[2 * p + 1] && r[2 * p + 2] == list[2 * p + 2];
      }
    }
  }

  /** The outcomes of MerklePath: its two errors, an access past the end of the array, and a path. */
  datatype PathResult<T> = NotBuilt | NotInTree | OutOfRange | Found(path: seq<T>)

  class MerkleTree<T(==)> {
    const h: (T, T) -> T
    var leafNum: nat
    var hashList: array<Option<T>>
    var hash2Idx: map<T, nat>

    /** The array is what Build makes of the data. */
    ghost predicate BuiltOver(data: seq<T>)
      reads this, hashList
    {
      if data == [] then hashList[..] == [None] else IsTree(h, hashList[..], leafNum, data)
    }

    /** The index is what Build makes of the data. A later Build over no data leaves it behind. */
    ghost predicate IndexedOver(data: seq<T>)
      reads this
    {
      data != [] && leafNum == Pow2(CeilLog2(|data|)) && Indexes(hash2Idx, data, leafNum)
    }

    constructor (h: (T, T) -> T)
      ensures this.h == h && leafNum == 0 && hash2Idx == map[]
    {
      this.h, leafNum, hash2Idx := h, 0, map[];
      hashList := new Option<T>[0];
    }

    /** The hash of slots i and i + 1, or of slot i alone, goes to slot p. */
    method HashPair(i: nat, p: nat)
      requires i + 1 < hashList.Length && p < hashList.Length && hashList[i].Some?
      modifies hashList
      ensures var list := old(hashList[..]);
              var r := if list[i + 1].Some? then list[i + 1].value else list[i].value;
              hashList[..] == list[p := Some(h(list[i].value, r))]
    {
      if hashList[i + 1].None? {
        hashList[p] := Some(h(hashList[i].value, hashList[i].value));
      } else {
        hashList[p] := Some(h(hashList[i].value, hashList[i + 1].value));
      }
    }

    /** One round of Build: the hashes of a level go to the slots of the level above it. */
    method BuildLevel(start: nat, end: nat, ghost level: seq<T>)
      requires Ready(hashList[..], start + 1, level) && end == start + |level| - 1
      modifies hashList
      ensures Above(start + 1) - 1 + |PairUp(h, level)| <= |old(hashList[..])|
      ensures hashList[..] == Filled(old(hashList[..]), Above(start + 1) - 1, PairUp(h, level))
    {
      hide *;
      ghost var list, w, up := hashList[..], start + 1, PairUp(h, level);
      ghost var at := Above(w) - 1;
      RaisedHolds(h, list, w, level);
      AboveIsPositive(w);
      FilledNone(list, at);
      var i := start;
      ghost var j := 0;
      assert up[..0] == [];
      while i <= end
        invariant i == start + 2 * j && j <= |up| && at + |up| <= |list|
        invariant hashList[..] == Filled(list, at, up[..j])
      {
        HashStep(h, list, w, level, j);
        HashPair(i, TruncDiv(i - 1, 2));
        i := i + 2;
        j := j + 1;
      }
      assert up[..j] == up;
    }

    /** The copy of the data into the slots of the leaves. */
    method PlaceLeaves(data: seq<T>, n: nat)
      requires 0 < |data| <= n
      modifies this`hashList
      ensures fresh(hashList) && hashList.Length == 2 * n && hashList[..] == Filled(Blanks(2 * n), n - 1, data)
    {
      hashList := new Option<T>[2 * n](_ => None);
      assert hashList[..] == Blanks(2 * n);
      FilledNone(Blanks<T>(2 * n), n - 1);
      for i := 0 to |data|
        modifies hashList
        invariant hashList[..] == Filled(Blanks(2 * n), n - 1, data[..i])
      {
        FilledNext(Blanks(2 * n), n - 1, data[..i], data[i]);
        assert data[..i + 1] == data[..i] + [data[i]];
        hashList[n - 1 + i] := Some(data[i]);
      }
      assert data[..|data|] == data;
    }

    /** Build */
    method Build(data: seq<T>)
      modifies this
      ensures fresh(hashList)
      ensures BuiltOver(data)
      ensures data == [] ==> leafNum == old(leafNum) && hash2Idx == old(hash2Idx)
      ensures data != [] ==> IndexedOver(data)
    {
      if data == [] {
        hashList := new Option<T>[1](_ => None);
        return;
      }
      ghost var k := CeilLog2(|data|);
      leafNum := Pow2(CeilLog2(|data|));
      var n := leafNum;
      PlaceLeaves(data, n);
      LeavesReady(h, data, k);
      BuildLevels(data, n, k);
      IndexLeaves(data, n);
    }

    /** The rounds of Build, from the leaves to the root. */
    method BuildLevels(data: seq<T>, n: nat, ghost k: nat)
      requires n == Pow2(k) && InRound(h, hashList[..], hashList[..], n, k, data, data)
      modifies hashList
      ensures IsTree(h, hashList[..], n, data)
    {
      hide Ready, Climb, Filled, Holds, Grown, Root, PairUp;
      var start, end := n - 1, n + |data| - 2;
      ghost var j, level, first := k, data, hashList[..];
      while true
        invariant start + 1 == Pow2(j) && end == start + |level| - 1
        invariant InRound(h, first, hashList[..], n, j, level, data)
        decreases j
      {
        RoundStep(h, first, hashList[..], n, j, level, data);
        BuildLevel(start, end, level);
        start, end := TruncDiv(start - 1, 2), TruncDiv(end - 1, 2);
        level := PairUp(h, level);
        if start == end {
          break;
        }
        j := j - 1;
      }
      ReadyHolds(first, n, data);
      RoundsEnd(h, first, hashList[..], n, data);
    }

    method IndexLeaves(data: seq<T>, n: nat)
      requires n > 0
      modifies this`hash2Idx
      ensures Indexes(hash2Idx, data, n)
    {
      hash2Idx := map[];
      for i := 0 to |data|
        invariant Indexes(hash2Idx, data[..i], n)
      {
        hash2Idx := hash2Idx[data[i] := i + n - 1];
        assert data[..i + 1] == data[..i] + [data[i]];
      }
      assert data[..|data|] == data;
    }

    /**
     The path of a hash in a tree over `data`. Folding it from the leaf upwards recomputes the root;
     a one-leaf tree has an empty path. The one failure is a tree of several leaves that was built
     again over no data: the old index then leads past the end of the new array.
     */
    method MerklePath(hash: T, ghost data: seq<T>) returns (r: PathResult<T>)
      requires leafNum != 0 ==> IndexedOver(data) && (BuiltOver(data) || BuiltOver([]))
      ensures r.NotBuilt? <==> leafNum == 0
      ensures r.NotInTree? <==> leafNum != 0 && hash !in data
      ensures r.OutOfRange? <==> leafNum != 0 && hash in data && BuiltOver([]) && |data| > 1
      ensures r.Found? ==> data != [] && |r.path| == CeilLog2(|data|)
      ensures r.Found? && |data| > 1 ==> Fold(h, hash2Idx[hash], hash, r.path) == Root(h, data)
    {
      hide IsTree, Fold, Root, CeilLog2;
      if leafNum == 0 {
        return NotBuilt;
      }
      if hash !in hash2Idx {
        return NotInTree;
      }
      ghost var k := CeilLog2(|data|);
      OneDatum(|data|);
      TreeIsLonger(h, hashList[..], leafNum, data);
      r := Siblings(hash, hash2Idx[hash], data, k);
    }

    /** The climb from a leaf to the root; the first access past the end of the array ends it. */
    method Siblings(hash: T, leaf: nat, ghost data: seq<T>, ghost k: nat) returns (r: PathResult<T>)
      requires leafNum == Pow2(k) && OnLevel(leaf, k) && leafNum - 1 <= leaf < leafNum - 1 + |data|
      requires data[leaf - (leafNum - 1)] == hash
      requires hashList.Length == 1 || IsTree(h, hashList[..], leafNum, data)
      ensures r == OutOfRange || r.Found?
      ensures r == OutOfRange <==> hashList.Length == 1 && k > 0
      ensures r.Found? ==> |r.path| == k && (k > 0 ==> Fold(h, leaf, hash, r.path) == Root(h, data))
    {
      hide IsTree, Fold, Step, Up, OnLevel, Pow2;
      ghost var list := hashList[..];
      if hashList.Length != 1 {
        LeafSlot(h, list, leafNum, data, hash, leaf, k);
      }
      FoldNothing(h, leaf, hash);
      var idx, mp: seq<T> := leaf, [];
      ghost var i := 0;
      while idx != 0
        invariant i == |mp| <= k && idx == Up(leaf, i) && OnLevel(idx, k - i)
        invariant |list| == 1 ==> i == 0
        invariant |list| != 1 ==> idx < |list| && (k > 0 ==> list[idx] == Some(Fold(h, leaf, hash, mp)))
        decreases idx
      {
        SlotZero(idx, k, i);
        var p := (idx - 1) / 2;
        if 4 * p + 3 - idx >= hashList.Length {
          if |list| != 1 {
            ClimbSlot(h, list, leafNum, data, k, i, idx);
          }
          return OutOfRange;
        }
        ClimbSlot(h, list, leafNum, data, k, i, idx);
        assert hashList[idx] == list[idx] && hashList[4 * p + 3 - idx] == list[4 * p + 3 - idx];
        var s := if hashList[4 * p + 3 - idx].None? then hashList[idx].value else hashList[4 * p + 3 - idx].value;
        FoldNext(h, leaf, hash, mp, s);
        UpNext(leaf, i);
        mp := mp + [s];
        idx := p;
        i := i + 1;
      }
      RootLevel(k - i);
      if |list| != 1 {
        TreeRoot(h, list, leafNum, data);
      }
      r := Found(mp);
    }

    /** The root that the array arithmetic computed is the recursive root of the data. */
    method RootHash(ghost data: seq<T>) returns (r: Option<T>)
      requires BuiltOver(data)
      ensures r == if data == [] then None else Some(Root(h, data))
    {
      assert data != [] ==> hashList[..][0] == Some(Root(h, data));
      r := hashList[..][0];
    }
  }

  /** A tree over two leaves that is built again over no data: the path of the first leaf is out of range. */
  method RebuiltOverNothing<T(==)>(h: (T, T) -> T, a: T, b: T) returns (r: PathResult<T>)
    ensures r == OutOfRange
  {
    var tree := new MerkleTree(h);
    tree.Build([a, b]);
    tree.Build([]);
    r := tree.MerklePath(a, [a, b]);
  }

  ghost function Blanks<T>(n: nat): (r: seq<Option<T>>)
    ensures |r| == n && forall i :: 0 <= i < n ==> r[i] == None
  {
    seq(n, i => None)
  }

  /** Every datum is found at one of the slots that hold it. */
  ghost predicate Indexes<T>(index: map<T, nat>, data: seq<T>, n: nat) {
    && (forall i :: 0 <= i < |data| ==> data[i] in index)
    && (forall x :: x in index ==> n - 1 <= index[x] < n - 1 + |data| && data[index[x] - (n - 1)] == x)
  }

  /** The levels between the leaves and `start` have been hashed; the leaves are still there. */
  ghost predicate Grown<T>(h: (T, T) -> T, first: seq<Option<T>>, list: seq<Option<T>>, n: nat, start: nat) {
    && n > 0 && |list| == |first| == 2 * n
    && (n > 1 ==> forall i :: n - 1 <= i < 2 * n ==> list[i] == first[i])
    && (forall p :: start <= p < n - 1 ==> Hashes(h, list, p))
  }

  /** Before a round: the level that is w wide is ready, and its root is the root of the data. */
  ghost predicate InRound<T>(h: (T, T) -> T, first: seq<Option<T>>, list: seq<Option<T>>, n: nat, j: nat, level: seq<T>,
                             data: seq<T>) {
    && data != [] && Pow2(j) <= n && |list| == 2 * n && Ready(list, Pow2(j), level) && Pow2(j) < 2 * |level|
    && Climb(h, PairUp(h, level)) == Root(h, data)
    && Grown(h, first, list, n, Pow2(j) - 1)
  }

  ghost predicate Finished<T>(h: (T, T) -> T, first: seq<Option<T>>, list: seq<Option<T>>, n: nat, data: seq<T>) {
    data != [] && Grown(h, first, list, n, 0) && list[0] == Some(Root(h, data))
  }

  /** The slots of the next round, and why the last round ends at slot 0. */
  lemma NextSlots(w: nat, j: nat, m: nat)
    requires w == Pow2(j) && 0 < m <= w < 2 * m
    ensures var at, u := Above(w) - 1, (m + 1) / 2;
            && TruncDiv(w - 2, 2) == at && TruncDiv(w + m - 3, 2) == at + u - 1
            && (u == 1 ==> at == 0) && at + 1 < 2 * u
            && (u > 1 ==> j > 0 && Pow2(j - 1) == at + 1 < w)
  {
    assert w > 1 ==> j > 0 && w == 2 * Pow2(j - 1);
  }

  /** A round leads to the next one, or to the root. */
  lemma RoundStep<T>(h: (T, T) -> T, first: seq<Option<T>>, list: seq<Option<T>>, n: nat, j: nat, level: seq<T>,
                     data: seq<T>)
    requires InRound(h, first, list, n, j, level, data)
    ensures var w, up := Pow2(j), PairUp(h, level);
            var at := Above(w) - 1;
            && at + |up| <= |list| && TruncDiv(w - 2, 2) == at && TruncDiv(w + |level| - 3, 2) == at + |up| - 1
            && (|up| == 1 ==> Finished(h, first, Filled(list, at, up), n, data))
            && (|up| > 1 ==> j > 0 && Pow2(j - 1) == at + 1)
            && (|up| > 1 ==> InRound(h, first, Filled(list, at, up), n, j - 1, up, data))
  {
    hide *;
    var w, up := Pow2(j), PairUp(h, level);
    var at := Above(w) - 1;
    InRoundParts(h, first, list, n, j, level, data);
    NextSlots(w, j, |level|);
    RaisedHolds(h, list, w, level);
    OneLeaf(n, list, w, level);
    GrownMore(h, first, list, n, w, level);
    ClimbStep(h, up);
    var r := Filled(list, at, up);
    if |up| > 1 {
      RaisedReady(r, at, j - 1, up);
      PairsExist(h, up);
      IsInRound(h, first, r, n, j - 1, up, data);
    } else {
      RootSlot(r, up);
      IsFinished(h, first, r, n, data);
    }
  }

  lemma RaisedReady<T>(list: seq<Option<T>>, at: nat, j: nat, up: seq<T>)
    requires |up| > 1 && at + 1 == Pow2(j) && Holds(list, at + 1, up) && Blank(list, at)
    ensures Ready(list, at + 1, up)
  {
    EvenPower(j);
  }

  lemma PairsExist<T>(h: (T, T) -> T, up: seq<T>)
    requires up != []
    ensures PairUp(h, up) != []
  {
  }

  lemma IsFinished<T>(h: (T, T) -> T, first: seq<Option<T>>, list: seq<Option<T>>, n: nat, data: seq<T>)
    requires data != [] && Grown(h, first, list, n, 0) && |list| > 0 && list[0] == Some(Root(h, data))
    ensures Finished(h, first, list, n, data)
  {
  }

  lemma OneLeaf<T>(n: nat, list: seq<Option<T>>, w: nat, level: seq<T>)
    requires |list| == 2 * n && Ready(list, w, level)
    ensures w == 1 ==> n == 1
  {
  }

  lemma ClimbStep<T>(h: (T, T) -> T, up: seq<T>)
    requires up != []
    ensures Climb(h, up) == if |up| == 1 then up[0] else Climb(h, PairUp(h, up))
  {
  }

  lemma RootSlot<T>(list: seq<Option<T>>, up: seq<T>)
    requires Holds(list, 1, up) && |up| == 1
    ensures list[0] == Some(up[0])
  {
  }

  lemma {:induction false} EvenPower(j: nat)
    ensures Pow2(j) == 1 || Pow2(j) % 2 == 0
  {
  }

  lemma GrownMore<T>(h: (T, T) -> T, first: seq<Option<T>>, list: seq<Option<T>>, n: nat, w: nat, level: seq<T>)
    requires Ready(list, w, level) && w <= n && Grown(h, first, list, n, w - 1) && (w == 1 ==> n == 1)
    ensures var at, up := Above(w) - 1, PairUp(h, level);
            at + |up| <= |list| && Grown(h, first, Filled(list, at, up), n, at)
  {
    var at, up := Above(w) - 1, PairUp(h, level);
    RaisedHolds(h, list, w, level);
    var r := Filled(list, at, up);
    if w > 1 {
      forall p | at <= p < n - 1 ensures Hashes(h, r, p) {
        if p >= w - 1 {
          assert Hashes(h, list, p);
        }
      }
    }
  }

  lemma RoundsEnd<T>(h: (T, T) -> T, first: seq<Option<T>>, list: seq<Option<T>>, n: nat, data: seq<T>)
    requires Finished(h, first, list, n, data) && Holds(first, n, data)
    ensures IsTree(h, list, n, data)
  {
  }

  /** A complete tree: the leaves, the hash of every pair of children, and the root. */
  ghost predicate IsTree<T>(h: (T, T) -> T, list: seq<Option<T>>, n: nat, data: seq<T>)
  {
    && 0 < |data| <= n && |list| == 2 * n
    && list[0] == Some(Root(h, data))
    && (n > 1 ==> Holds(list, n, data))
    && (forall p :: 0 <= p < n - 1 ==> Hashes(h, list, p))
  }

  lemma LeavesReady<T>(h: (T, T) -> T, data: seq<T>, k: nat)
    requires data != [] && k == CeilLog2(|data|)
    ensures var n := Pow2(k);
            |data| <= n && var list := Filled(Blanks(2 * n), n - 1, data); InRound(h, list, list, n, k, data, data)
  {
    hide *;
    var n := Pow2(k);
    LeavesPlaced(data, k);
    var list := Filled(Blanks(2 * n), n - 1, data);
    NothingGrown(h, list, n);
    RootIsClimb(h, data);
    IsInRound(h, list, list, n, k, data, data);
  }

  lemma RootIsClimb<T>(h: (T, T) -> T, data: seq<T>)
    requires data != []
    ensures PairUp(h, data) != [] && Climb(h, PairUp(h, data)) == Root(h, data)
  {
  }

  lemma IsInRound<T>(h: (T, T) -> T, first: seq<Option<T>>, list: seq<Option<T>>, n: nat, j: nat, level: seq<T>,
                     data: seq<T>)
    requires data != [] && Pow2(j) <= n && |list| == 2 * n && Ready(list, Pow2(j), level) && Pow2(j) < 2 * |level|
    requires PairUp(h, level) != [] && Climb(h, PairUp(h, level)) == Root(h, data) &&
             Grown(h, first, list, n, Pow2(j) - 1)
    ensures InRound(h, first, list, n, j, level, data)
  {
  }

  lemma InRoundParts<T>(h: (T, T) -> T, first: seq<Option<T>>, list: seq<Option<T>>, n: nat, j: nat, level: seq<T>,
                        data: seq<T>)
    requires InRound(h, first, list, n, j, level, data)
    ensures data != [] && Pow2(j) <= n && |list| == 2 * n && Ready(list, Pow2(j), level) &&
            |level| <= Pow2(j) < 2 * |level|
    ensures PairUp(h, level) != [] && Climb(h, PairUp(h, level)) == Root(h, data) &&
            Grown(h, first, list, n, Pow2(j) - 1)
  {
  }

  lemma LeavesPlaced<T>(data: seq<T>, k: nat)
    requires data != [] && k == CeilLog2(|data|)
    ensures var n := Pow2(k); |data| <= n < 2 * |data| && Ready(Filled(Blanks(2 * n), n - 1, data), n, data)
  {
    hide Ready, Filled, Blanks;
    EvenPower(k);
    PlacedIsReady(data, Pow2(k));
  }

  lemma PlacedIsReady<T>(data: seq<T>, n: nat)
    requires 0 < |data| <= n && (n == 1 || n % 2 == 0)
    ensures Ready(Filled(Blanks(2 * n), n - 1, data), n, data)
  {
  }

  lemma NothingGrown<T>(h: (T, T) -> T, list: seq<Option<T>>, n: nat)
    requires n > 0 && |list| == 2 * n
    ensures Grown(h, list, list, n, n - 1)
  {
  }

  lemma ReadyHolds<T>(list: seq<Option<T>>, w: nat, level: seq<T>)
    requires Ready(list, w, level)
    ensures Holds(list, w, level)
  {
  }

  /** Slot idx belongs to the level that is 2^k wide. */
  ghost predicate OnLevel(idx: nat, k: nat) {
    Pow2(k) - 1 <= idx < 2 * Pow2(k) - 1
  }

  lemma TreeRoot<T>(h: (T, T) -> T, list: seq<Option<T>>, n: nat, data: seq<T>)
    requires IsTree(h, list, n, data)
    ensures data != [] && list != [] && list[0] == Some(Root(h, data))
  {
  }

  lemma FoldNothing<T>(h: (T, T) -> T, idx: nat, x: T)
    ensures Fold(h, idx, x, []) == x && Up(idx, 0) == idx
  {
  }

  /** Only the root is on the level that is one wide. */
  lemma SlotZero(idx: nat, k: nat, i: nat)
    requires i <= k && OnLevel(idx, k - i) && idx > 0
    ensures k > 0
  {
  }

  lemma TreeIsLonger<T>(h: (T, T) -> T, list: seq<Option<T>>, n: nat, data: seq<T>)
    ensures IsTree(h, list, n, data) ==> |list| > 1
  {
  }

  lemma OneDatum(len: nat)
    requires len > 0
    ensures CeilLog2(len) > 0 <==> len > 1
  {
    assert Pow2(0) == 1;
  }

  lemma RootLevel(k: nat)
    requires OnLevel(0, k)
    ensures k == 0
  {
  }

  lemma LeafSlot<T>(h: (T, T) -> T, list: seq<Option<T>>, n: nat, data: seq<T>, x: T, idx: nat, k: nat)
    requires n == Pow2(k) && IsTree(h, list, n, data) && n - 1 <= idx < n - 1 + |data| && data[idx - (n - 1)] == x
    ensures idx < |list| && OnLevel(idx, k) && (k > 0 ==> list[idx] == Some(x))
  {
  }

  /** One step up: the parent of a filled slot is its hash with its sibling, or with itself. */
  lemma ClimbSlot<T>(h: (T, T) -> T, list: seq<Option<T>>, n: nat, data: seq<T>, k: nat, i: nat, idx: nat)
    requires n == Pow2(k) && IsTree(h, list, n, data) && i <= k && OnLevel(idx, k - i) && 0 < idx < |list| &&
             list[idx].Some?
    ensures var p := (idx - 1) / 2;
            && i < k && OnLevel(p, k - i - 1) && p == Parent(idx) && 4 * p + 3 - idx < |list|
            && var s := if list[4 * p + 3 - idx].None? then list[idx].value else list[4 * p + 3 - idx].value;
               list[p] == Some(Step(h, idx, list[idx].value, s))
  {
    hide Holds, Root;
    ParentLevel(k, i, idx);
    assert Hashes(h, list, (idx - 1) / 2);
  }

  lemma ParentLevel(k: nat, i: nat, idx: nat)
    requires i <= k && OnLevel(idx, k - i) && idx > 0
    ensures i < k && OnLevel((idx - 1) / 2, k - i - 1) && (idx - 1) / 2 < Pow2(k) - 1
  {
    WiderLevels(k, i);
    assert i < k;
    assert Pow2(k - i) == 2 * Pow2(k - i - 1);
  }

  lemma {:induction false} WiderLevels(k: nat, i: nat)
    requires i <= k
    ensures Pow2(k - i) <= Pow2(k)
    decreases i
  {
    if i > 0 {
      WiderLevels(k, i - 1);
      assert Pow2(k - i + 1) == 2 * Pow2(k - i);
    }
  }
}
