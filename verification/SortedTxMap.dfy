/** The pending transactions: a tree ordered by compareTx and a map by hash that hold the same transactions. */
module SortedTxs {
  import opened GoInt
  import opened Options
  import opened Blocks
  import opened Bytes

  // ---------------------------------------------------------------- compareTx

  /** The hash of a transaction. */
  type Sha = Tx -> seq<int>

  ghost predicate Injective(sha: Sha) {
    forall a, b :: sha(a) == sha(b) ==> a == b
  }

  /** Differences are taken in 64 bits, as in the source. */
  function CompareTx(sha: Sha, a: Tx, b: Tx): int {
    if a.gasRatio == b.gasRatio && b.time == a.time then CompareBytes(sha(a), sha(b))
    else if a.gasRatio == b.gasRatio then Wrap64(b.time - a.time)
    else Wrap64(a.gasRatio - b.gasRatio)
  }

  const RATIO_BOUND: int := 0x4000_0000_0000_0000

  /** No two such transactions are so far apart that a difference overflows. */
  predicate Sane(t: Tx) {
    0 <= t.time && -RATIO_BOUND <= t.gasRatio < RATIO_BOUND
  }

  /** The order meant by compareTx: by gas ratio, then the older one is greater, then by hash. */
  predicate Before(sha: Sha, a: Tx, b: Tx) {
    || a.gasRatio < b.gasRatio
    || (a.gasRatio == b.gasRatio && (a.time > b.time || (a.time == b.time && CompareBytes(sha(a), sha(b)) < 0)))
  }

  lemma CompareTxIsBefore(sha: Sha, a: Tx, b: Tx)
    requires Injective(sha) && Sane(a) && Sane(b)
    ensures CompareTx(sha, a, b) < 0 <==> Before(sha, a, b)
    ensures CompareTx(sha, a, b) > 0 <==> Before(sha, b, a)
    ensures CompareTx(sha, a, b) == 0 <==> a == b
  {
    CompareBytesAntisymmetric(sha(a), sha(b));
  }

  /** Over all int64 fields, compareTx is right exactly if the difference it takes does not overflow. */
  lemma CompareTxExact(sha: Sha, a: Tx, b: Tx)
    requires Injective(sha)
    ensures (CompareTx(sha, a, b) < 0 <==> Before(sha, a, b)) <==>
            IsInt64(if a.gasRatio == b.gasRatio then b.time - a.time else a.gasRatio - b.gasRatio)
  {
    CompareBytesAntisymmetric(sha(a), sha(b));
    var d := if a.gasRatio == b.gasRatio then b.time - a.time else a.gasRatio - b.gasRatio;
    assert !IsInt64(d) ==> Wrap64(d) == if d > 0 then d - TWO_64 else d + TWO_64;
  }

  /** For example, the smallest gas ratio compares as greater than a ratio of one. */
  lemma SmallestRatioIsMisplaced(sha: Sha, a: Tx, b: Tx)
    requires a.gasRatio == MIN_INT64 && b.gasRatio == 1
    ensures Before(sha, a, b) && CompareTx(sha, a, b) > 0
  {
  }

  lemma BeforeTransitive(sha: Sha, a: Tx, b: Tx, c: Tx)
    requires Before(sha, a, b) && Before(sha, b, c)
    ensures Before(sha, a, c)
  {
    if a.gasRatio == b.gasRatio == c.gasRatio && a.time == b.time == c.time {
      CompareBytesTransitive(sha(a), sha(b), sha(c));
    }
  }

  // ---------------------------------------------------------------- the ordered tree

  /** The keys of the tree from left to right. */
  ghost predicate Sorted(sha: Sha, keys: seq<Tx>) {
    forall i, j :: 0 <= i < j < |keys| ==> Before(sha, keys[i], keys[j])
  }

  /** Put: the place of t is found by comparisons; an equal key is overwritten. */
  function Put(sha: Sha, keys: seq<Tx>, t: Tx): seq<Tx> {
    if keys == [] then [t]
    else
      var c := CompareTx(sha, t, keys[0]);
      if c < 0 then [t] + keys
      else if c == 0 then [t] + keys[1..]
      else [keys[0]] + Put(sha, keys[1..], t)
  }

  /** Remove: a key that comparisons do not find stays where it is. */
  function Remove(sha: Sha, keys: seq<Tx>, t: Tx): seq<Tx> {
    if keys == [] then []
    else
      var c := CompareTx(sha, t, keys[0]);
      if c < 0 then keys
      else if c == 0 then keys[1..]
      else [keys[0]] + Remove(sha, keys[1..], t)
  }

  ghost function Members(keys: seq<Tx>): set<Tx> {
    set t | t in keys
  }

  ghost predicate AllSane(keys: seq<Tx>) {
    forall t :: t in keys ==> Sane(t)
  }

  lemma MembersCons(k: Tx, rest: seq<Tx>)
    ensures Members([k] + rest) == Members(rest) + {k}
  {
  }

  /** A key goes to the front if it is before every other key. */
  lemma SortedCons(sha: Sha, k: Tx, rest: seq<Tx>)
    requires Sorted(sha, rest) && forall t :: t in Members(rest) ==> Before(sha, k, t)
    ensures Sorted(sha, [k] + rest)
  {
    var keys := [k] + rest;
    forall i, j | 0 <= i < j < |keys| ensures Before(sha, keys[i], keys[j]) {
      assert keys[j] == rest[j - 1];
      if i == 0 {
        assert rest[j - 1] in Members(rest);
      }
    }
  }

  lemma SortedTail(sha: Sha, keys: seq<Tx>)
    requires keys != [] && Sorted(sha, keys)
    ensures Sorted(sha, keys[1..]) && forall t :: t in Members(keys[1..]) ==> Before(sha, keys[0], t)
    ensures keys == [keys[0]] + keys[1..]
  {
  }

  /** A transaction before the first key is before all of them, and is none of them. */
  lemma BeforeAll(sha: Sha, t: Tx, keys: seq<Tx>)
    requires keys != [] && Sorted(sha, keys) && Before(sha, t, keys[0])
    ensures forall u :: u in Members(keys) ==> Before(sha, t, u)
    ensures t !in Members(keys)
  {
    forall u | u in Members(keys) ensures Before(sha, t, u) {
      SortedTail(sha, keys);
      if u != keys[0] {
        BeforeTransitive(sha, t, keys[0], u);
      }
    }
    assert t in Members(keys) ==> Before(sha, t, t);
  }

  lemma {:induction false} PutSorted(sha: Sha, keys: seq<Tx>, t: Tx)
    requires Injective(sha) && Sorted(sha, keys) && AllSane(keys) && Sane(t)
    ensures Sorted(sha, Put(sha, keys, t)) && Members(Put(sha, keys, t)) == Members(keys) + {t}
  {
    if keys != [] {
      var k, rest := keys[0], keys[1..];
      CompareTxIsBefore(sha, t, k);
      SortedTail(sha, keys);
      MembersCons(k, rest);
      if Before(sha, t, k) {
        BeforeAll(sha, t, keys);
        SortedCons(sha, t, keys);
        MembersCons(t, keys);
      } else if t != k {
        PutSorted(sha, rest, t);
        SortedCons(sha, k, Put(sha, rest, t));
        MembersCons(k, Put(sha, rest, t));
      }
    }
  }

  lemma {:induction false} RemoveSorted(sha: Sha, keys: seq<Tx>, t: Tx)
    requires Injective(sha) && Sorted(sha, keys) && AllSane(keys) && Sane(t)
    ensures Sorted(sha, Remove(sha, keys, t)) && Members(Remove(sha, keys, t)) == Members(keys) - {t}
  {
    if keys != [] {
      var k, rest := keys[0], keys[1..];
      CompareTxIsBefore(sha, t, k);
      SortedTail(sha, keys);
      MembersCons(k, rest);
      if Before(sha, t, k) {
        BeforeAll(sha, t, keys);
      } else if t == k {
        assert t in Members(rest) ==> Before(sha, t, t);
      } else {
        RemoveSorted(sha, rest, t);
        SortedCons(sha, k, Remove(sha, rest, t));
        MembersCons(k, Remove(sha, rest, t));
      }
    }
  }

  // ---------------------------------------------------------------- SortedTxMap

  class SortedTxMap {
    const sha: Sha
    var tree: seq<Tx>
    var txMap: map<seq<int>, Tx>

    ghost predicate Valid()
      reads this
    {
      && Injective(sha)
      && Sorted(sha, tree) && AllSane(tree)
      && (forall h :: h in txMap ==> sha(txMap[h]) == h && txMap[h] in tree)
      && (forall t :: t in tree ==> sha(t) in txMap && txMap[sha(t)] == t)
    }

    /** The tree and the map hold these transactions. */
    ghost function Contents(): set<Tx>
      reads this
    {
      Members(tree)
    }

    constructor (sha: Sha)
      requires Injective(sha)
      ensures Valid() && Contents() == {} && this.sha == sha
    {
      this.sha := sha;
      tree, txMap := [], map[];
    }

    method Get(h: seq<int>) returns (r: Option<Tx>)
      requires Valid()
      ensures match r
              case Some(t) => t in Contents() && sha(t) == h
              case None => forall t :: t in Contents() ==> sha(t) != h
    {
      r := if h in txMap then Some(txMap[h]) else None;
    }

    method Add(t: Tx)
      requires Valid() && Sane(t)
      modifies this
      ensures Valid() && Contents() == old(Contents()) + {t}
    {
      PutSorted(sha, tree, t);
      tree := Put(sha, tree, t);
      txMap := txMap[sha(t) := t];
      assert forall u :: u in tree <==> u in Members(tree);
      assert forall u :: u in old(tree) <==> u in old(Members(tree));
    }

    method Del(h: seq<int>)
      requires Valid()
      modifies this
      ensures Valid() && Contents() == set t | t in old(Contents()) && sha(t) != h
    {
      if h !in txMap {
        return;
      }
      var t := txMap[h];
      RemoveSorted(sha, tree, t);
      tree := Remove(sha, tree, t);
      txMap := txMap - {h};
      assert forall u :: u in tree <==> u in Members(tree);
      assert forall u :: u in old(tree) <==> u in old(Members(tree));
    }
  }
}
