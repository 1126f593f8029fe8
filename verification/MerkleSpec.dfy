/** The Merkle root as a recursive pairing, and what the root determines. */
module MerkleSpec {
  import opened Sequences

  /** One level up: neighbours are hashed together, and a last single hash with itself. */
  function PairUp<T>(h: (T, T) -> T, level: seq<T>): (up: seq<T>)
    ensures |up| == (|level| + 1) / 2
    ensures forall j :: 0 <= j < |up| ==>
              up[j] == h(level[2 * j], if 2 * j + 1 < |level| then level[2 * j + 1] else level[2 * j])
  {
    seq((|level| + 1) / 2, j requires 0 <= j < (|level| + 1) / 2 =>
      h(level[2 * j], if 2 * j + 1 < |level| then level[2 * j + 1] else level[2 * j]))
  }

  function Climb<T>(h: (T, T) -> T, level: seq<T>): T
    requires level != []
    decreases |level|
  {
    if |level| == 1 then level[0] else Climb(h, PairUp(h, level))
  }

  /** The root over the data: even a single leaf is hashed once, with itself. */
  function Root<T>(h: (T, T) -> T, data: seq<T>): T
    requires data != []
  {
    Climb(h, PairUp(h, data))
  }

  /** The root that a leaf at position idx of the flat tree has with the given path. */
  function Fold<T>(h: (T, T) -> T, idx: nat, x: T, path: seq<T>): T
    decreases |path|
  {
    if path == [] then x
    else Fold(h, Parent(idx), Step(h, idx, x, path[0]), path[1..])
  }

  /** The slot reached from idx after k steps up. */
  function Up(idx: nat, k: nat): nat
    decreases k
  {
    if k == 0 then idx else Up(Parent(idx), k - 1)
  }

  lemma {:induction false} UpNext(idx: nat, k: nat)
    ensures Up(idx, k + 1) == Parent(Up(idx, k))
    decreases k
  {
    if k > 0 {
      UpNext(Parent(idx), k - 1);
    }
  }

  function Step<T>(h: (T, T) -> T, idx: nat, x: T, sibling: T): T {
    if idx % 2 == 1 then h(x, sibling) else h(sibling, x)
  }

  lemma {:induction false} FoldNext<T>(h: (T, T) -> T, idx: nat, x: T, path: seq<T>, s: T)
    ensures Fold(h, idx, x, path + [s]) == Step(h, Up(idx, |path|), Fold(h, idx, x, path), s)
    decreases |path|
  {
    if path == [] {
      assert (path + [s])[1..] == [];
    } else {
      assert (path + [s])[1..] == path[1..] + [s];
      FoldNext(h, Parent(idx), Step(h, idx, x, path[0]), path[1..], s);
    }
  }

  function Parent(idx: nat): nat {
    if idx == 0 then 0 else (idx - 1) / 2
  }

  // ---------------------------------------------------------------- the root commits to the data

  /** Hashes as terms: no two different terms have the same hash. */
  datatype Term<T> = Leaf(value: T) | Node(left: Term<T>, right: Term<T>)

  function Pair<T>(l: Term<T>, r: Term<T>): Term<T> {
    Node(l, r)
  }

  function Leafs<T>(data: seq<T>): (r: seq<Term<T>>)
    ensures |r| == |data| && forall i :: 0 <= i < |data| ==> r[i] == Leaf(data[i])
  {
    seq(|data|, i requires 0 <= i < |data| => Leaf(data[i]))
  }

  /** The data below a term, where a node with two equal children was made from one. */
  function Below<T(==)>(t: Term<T>): (r: seq<T>)
    ensures r != []
  {
    match t
    case Leaf(x) => [x]
    case Node(l, r) => if l == r then Below(l) else Below(l) + Below(r)
  }

  function AllBelow<T(==)>(level: seq<Term<T>>): seq<T> {
    if level == [] then [] else Below(level[0]) + AllBelow(level[1..])
  }

  lemma {:induction false} AllBelowLeafs<T>(data: seq<T>)
    ensures AllBelow(Leafs(data)) == data
  {
    if data != [] {
      AllBelowLeafs(data[1..]);
      assert Leafs(data)[1..] == Leafs(data[1..]);
      assert data == [data[0]] + data[1..];
    }
  }

  lemma NoDupParts<T>(a: seq<T>, b: seq<T>)
    requires NoDup(a + b)
    ensures NoDup(a) && NoDup(b)
    ensures a != [] ==> a != b
  {
    assert forall i :: 0 <= i < |a| ==> (a + b)[i] == a[i];
    assert forall i :: 0 <= i < |b| ==> (a + b)[|a| + i] == b[i];
    assert a != [] && b != [] ==> (a + b)[0] != (a + b)[|a|];
  }

  /** Pairing up keeps the data, as long as they are all different. */
  lemma {:induction false} PairUpKeeps<T>(level: seq<Term<T>>)
    requires NoDup(AllBelow(level))
    ensures AllBelow(PairUp(Pair, level)) == AllBelow(level)
    decreases |level|
  {
    var up := PairUp(Pair, level);
    if |level| == 1 {
      assert up == [Node(level[0], level[0])] && level[1..] == [] && up[1..] == [];
    } else if |level| > 1 {
      var l, r, rest := level[0], level[1], level[2..];
      assert level[1..][1..] == rest;
      assert AllBelow(level) == Below(l) + (Below(r) + AllBelow(rest));
      assert AllBelow(level) == Below(l) + Below(r) + AllBelow(rest);
      NoDupParts(Below(l) + Below(r), AllBelow(rest));
      NoDupParts(Below(l), Below(r));
      PairUpKeeps(rest);
      assert up[0] == Node(l, r) && up[1..] == PairUp(Pair, rest);
    }
  }

  lemma {:induction false} ClimbKeeps<T>(level: seq<Term<T>>)
    requires level != [] && NoDup(AllBelow(level))
    ensures Below(Climb(Pair, level)) == AllBelow(level)
    decreases |level|
  {
    if |level| == 1 {
      assert level[1..] == [] && Below(level[0]) + [] == Below(level[0]);
    } else {
      PairUpKeeps(level);
      ClimbKeeps(PairUp(Pair, level));
    }
  }

  /** Lists without duplicates have the same root only if they are the same list. */
  lemma RootCommits<T>(a: seq<T>, b: seq<T>)
    requires a != [] && b != [] && NoDup(a) && NoDup(b)
    ensures Root(Pair, Leafs(a)) == Root(Pair, Leafs(b)) <==> a == b
  {
    RootBelow(a);
    RootBelow(b);
  }

  lemma RootBelow<T>(a: seq<T>)
    requires a != [] && NoDup(a)
    ensures Below(Root(Pair, Leafs(a))) == a
  {
    AllBelowLeafs(a);
    PairUpKeeps(Leafs(a));
    ClimbKeeps(PairUp(Pair, Leafs(a)));
  }

  /** With duplicates this fails: a last single leaf counts as two. */
  lemma DuplicatesCollide<T>(h: (T, T) -> T, a: T, b: T, c: T)
    ensures Root(h, [a, b, c]) == Root(h, [a, b, c, c])
  {
    assert PairUp(h, [a, b, c]) == PairUp(h, [a, b, c, c]);
  }
}
