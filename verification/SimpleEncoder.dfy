/** The encoder: an append-only buffer, and maps written in the order of their keys. */
module SimpleEncoderImpl {
  import opened Sequences
  import opened GoInt
  import opened Bytes
  import opened Encoding

  // ---------------------------------------------------------------- sorted keys

  predicate LessBytes(a: bytes, b: bytes) {
    CompareBytes(a, b) < 0
  }

  ghost predicate Ascending(s: seq<bytes>) {
    forall i, j :: 0 <= i < j < |s| ==> LessBytes(s[i], s[j])
  }

  /** s lists the keys, each once and in order. */
  ghost predicate ListsKeys(s: seq<bytes>, keys: set<bytes>) {
    Ascending(s) && forall k :: k in keys <==> k in s
  }

  lemma LessIrreflexive(a: bytes, b: bytes)
    ensures !LessBytes(a, a) && !(LessBytes(a, b) && LessBytes(b, a))
    ensures a != b ==> LessBytes(a, b) || LessBytes(b, a)
  {
    CompareBytesAntisymmetric(a, b);
  }

  /** There is only one way to list keys in order. */
  lemma {:induction false} ListIsUnique(s: seq<bytes>, t: seq<bytes>, keys: set<bytes>)
    requires ListsKeys(s, keys) && ListsKeys(t, keys)
    ensures s == t
    decreases |s|
  {
    NoKeys(s, keys);
    NoKeys(t, keys);
    if s != [] {
      assert s[0] in keys && s[0] in t;
      assert t[0] in keys && t[0] in s;
      LessIrreflexive(s[0], t[0]);
      assert s[0] == t[0];
      ListTail(s, keys);
      ListTail(t, keys);
      ListIsUnique(s[1..], t[1..], keys - {s[0]});
      assert s == [s[0]] + s[1..] && t == [t[0]] + t[1..];
    }
  }

  lemma NoKeys(s: seq<bytes>, keys: set<bytes>)
    requires ListsKeys(s, keys)
    ensures s == [] <==> keys == {}
  {
    if s != [] {
      assert s[0] in keys;
    }
  }

  lemma ListTail(s: seq<bytes>, keys: set<bytes>)
    requires ListsKeys(s, keys) && s != []
    ensures ListsKeys(s[1..], keys - {s[0]})
  {
    forall k | k in s[1..] ensures k != s[0] {
      LessIrreflexive(s[0], s[0]);
    }
  }

  // ---------------------------------------------------------------- the bubble sort

  /** No key before position n is greater than the one at n. */
  ghost predicate Largest(s: seq<bytes>, n: nat) {
    n < |s| && forall i :: 0 <= i < n ==> LessBytes(s[i], s[n])
  }

  /** From position n on the keys are in order, and none before n is greater than any of them. */
  ghost predicate Settled(s: seq<bytes>, n: nat) {
    n <= |s| && forall i, j :: 0 <= i < j < |s| && j >= n ==> LessBytes(s[i], s[j])
  }

  /** t has the keys of s, in some order. */
  ghost predicate Rearranged(s: seq<bytes>, t: seq<bytes>) {
    |s| == |t| && NoDup(t) && (forall k :: k in s <==> k in t)
  }

  lemma SwapRearranges(s: seq<bytes>, t: seq<bytes>, j: nat)
    requires Rearranged(s, t) && j + 1 < |t|
    ensures Rearranged(s, t[j := t[j + 1]][j + 1 := t[j]])
  {
    var u := t[j := t[j + 1]][j + 1 := t[j]];
    forall k | k in t ensures k in u {
      var i :| 0 <= i < |t| && t[i] == k;
      assert u[if i == j then j + 1 else if i == j + 1 then j else i] == k;
    }
  }

  lemma SwapSettled(t: seq<bytes>, n: nat, j: nat)
    requires Settled(t, n) && j + 1 < n
    ensures Settled(t[j := t[j + 1]][j + 1 := t[j]], n)
  {
  }

  /** The inner loop moves the largest key to the end of the part that is not in order yet. */
  method BubblePass(a: array<bytes>, n: nat, ghost keys: seq<bytes>)
    requires 0 < n <= a.Length && Rearranged(keys, a[..]) && Settled(a[..], n)
    modifies a
    ensures Rearranged(keys, a[..]) && Settled(a[..], n - 1)
  {
    var j := 0;
    while j < n - 1
      invariant 0 <= j < n && Rearranged(keys, a[..]) && Settled(a[..], n) && Largest(a[..], j)
    {
      LessIrreflexive(a[j], a[j + 1]);
      ghost var t := a[..];
      LargestNext(t, j);
      if LessBytes(a[j + 1], a[j]) {
        SwapRearranges(keys, t, j);
        SwapSettled(t, n, j);
        a[j], a[j + 1] := a[j + 1], a[j];
        assert a[..] == t[j := t[j + 1]][j + 1 := t[j]];
      }
      j := j + 1;
    }
  }

  lemma LargestNext(t: seq<bytes>, j: nat)
    requires Largest(t, j) && j + 1 < |t|
    ensures LessBytes(t[j + 1], t[j]) ==> Largest(t[j := t[j + 1]][j + 1 := t[j]], j + 1)
    ensures LessBytes(t[j], t[j + 1]) ==> Largest(t, j + 1)
  {
    if LessBytes(t[j], t[j + 1]) {
      forall i | 0 <= i < j ensures LessBytes(t[i], t[j + 1]) {
        CompareBytesTransitive(t[i], t[j], t[j + 1]);
      }
    }
  }

  /** The outer loop. */
  method BubbleSort(a: array<bytes>, ghost keys: seq<bytes>)
    requires Rearranged(keys, a[..])
    modifies a
    ensures Rearranged(keys, a[..]) && Ascending(a[..])
  {
    var i := 1;
    while i < a.Length
      invariant 1 <= i && (i <= a.Length || a.Length == 0)
      invariant Rearranged(keys, a[..]) && (a.Length > 0 ==> Settled(a[..], a.Length - i + 1))
    {
      BubblePass(a, a.Length - i + 1, keys);
      i := i + 1;
    }
  }

  /** The keys of a map, in the order of iteration. */
  method KeysOf<V>(m: map<bytes, V>) returns (keys: seq<bytes>)
    ensures NoDup(keys) && |keys| == |m| && forall k :: k in keys <==> k in m
  {
    keys := [];
    var todo := m.Keys;
    while todo != {}
      invariant todo <= m.Keys && NoDup(keys) && |keys| + |todo| == |m|
      invariant forall k :: k in keys <==> k in m && k !in todo
      decreases todo
    {
      var k :| k in todo;
      keys := keys + [k];
      todo := todo - {k};
    }
  }

  /** The entries of a map in the given order of keys. */
  function EntryBytes(m: map<bytes, int64>, keys: seq<bytes>): bytes {
    if keys == [] then []
    else
      var k := keys[|keys| - 1];
      EntryBytes(m, keys[..|keys| - 1]) + (if k in m then Prefixed(k) + Int64Bytes(m[k]) else [])
  }

  /** What is written for a map: the entries in the order of their keys. */
  ghost predicate IsMapBytes(m: map<bytes, int64>, b: bytes) {
    exists keys :: ListsKeys(keys, m.Keys) && b == BigEndian(|m|, 4) + EntryBytes(m, keys)
  }

  /** The bytes of a map do not depend on the order of iteration. */
  lemma MapBytesUnique(m: map<bytes, int64>, a: bytes, b: bytes)
    requires IsMapBytes(m, a) && IsMapBytes(m, b)
    ensures a == b
  {
    var s :| ListsKeys(s, m.Keys) && a == BigEndian(|m|, 4) + EntryBytes(m, s);
    var t :| ListsKeys(t, m.Keys) && b == BigEndian(|m|, 4) + EntryBytes(m, t);
    ListIsUnique(s, t, m.Keys);
  }

  // ---------------------------------------------------------------- reading a map back

  /** Reference: n keys with their values, one after the other. */
  function ReadEntries(b: bytes, n: nat): map<bytes, int64>
    decreases n
  {
    var (key, r) := ReadBytes(b);
    if n == 0 || |r| < 8 then map[]
    else ReadEntries(r[8..], n - 1)[key := Wrap64(ToInt64(FromBigEndian(r[..8])))]
  }

  function ReadMap(b: bytes): map<bytes, int64> {
    if |b| < 4 then map[] else ReadEntries(b[4..], FromBigEndian(b[..4]))
  }

  lemma {:induction false} EntryFirst(m: map<bytes, int64>, keys: seq<bytes>)
    requires keys != [] && keys[0] in m
    ensures EntryBytes(m, keys) == Prefixed(keys[0]) + (Int64Bytes(m[keys[0]]) + EntryBytes(m, keys[1..]))
  {
    hide Prefixed, Int64Bytes;
    var last := |keys| - 1;
    if last == 0 {
      assert keys[..0] == [] && keys[1..] == [];
    } else {
      EntryFirst(m, keys[..last]);
      assert keys[..last][1..] == keys[1..][..last - 1] && keys[1..][last - 1] == keys[last];
    }
  }

  lemma {:induction false} EntriesRead(m: map<bytes, int64>, keys: seq<bytes>)
    requires forall i :: 0 <= i < |keys| ==> keys[i] in m && Short(keys[i])
    ensures ReadEntries(EntryBytes(m, keys), |keys|) == map k | k in m && k in keys :: m[k]
  {
    hide Prefixed, Int64Bytes, ReadBytes, BigEndian, FromBigEndian;
    if keys != [] {
      var k, rest := keys[0], EntryBytes(m, keys[1..]);
      EntryFirst(m, keys);
      PrefixedReads(k, Int64Bytes(m[k]) + rest);
      Int64Reads(m[k]);
      var r := Int64Bytes(m[k]) + rest;
      assert r[..8] == Int64Bytes(m[k]) && r[8..] == rest;
      EntriesRead(m, keys[1..]);
      assert keys == [k] + keys[1..];
    }
  }

  lemma {:induction false} ListCount(s: seq<bytes>, keys: set<bytes>)
    requires ListsKeys(s, keys)
    ensures |s| == |keys|
  {
    NoKeys(s, keys);
    if s != [] {
      ListTail(s, keys);
      ListCount(s[1..], keys - {s[0]});
      assert s[0] in keys;
    }
  }

  /** The bytes of a map tell its entries. */
  lemma MapReads(m: map<bytes, int64>, b: bytes)
    requires IsMapBytes(m, b) && |m| < 0x1_0000_0000 && forall k :: k in m ==> Short(k)
    ensures ReadMap(b) == m
  {
    hide BigEndian, FromBigEndian, ReadEntries, EntryBytes;
    var keys :| ListsKeys(keys, m.Keys) && b == BigEndian(|m|, 4) + EntryBytes(m, keys);
    ListCount(keys, m.Keys);
    assert |m.Keys| == |m|;
    Pow256Of8();
    BigEndianInverse(|m|, 4);
    assert b[..4] == BigEndian(|m|, 4) && b[4..] == EntryBytes(m, keys);
    EntriesRead(m, keys);
    assert (map k | k in m && k in keys :: m[k]) == m;
  }

  class SimpleEncoder {
    var buf: bytes

    constructor ()
      ensures buf == []
    {
      buf := [];
    }

    method WriteByte(b: byte)
      modifies this
      ensures buf == old(buf) + [b]
    {
      buf := buf + [b];
    }

    method WriteInt64(n: int64)
      modifies this
      ensures buf == old(buf) + Int64Bytes(n)
    {
      buf := buf + Int64Bytes(n);
    }

    method WriteInt32(n: nat)
      modifies this
      ensures buf == old(buf) + BigEndian(n, 4)
    {
      buf := buf + BigEndian(n, 4);
    }

    method WriteBytes(b: bytes)
      modifies this
      ensures buf == old(buf) + Prefixed(b)
    {
      WriteInt32(|b|);
      buf := buf + b;
    }

    method WriteBytesSlice(p: seq<bytes>)
      modifies this
      ensures buf == old(buf) + SliceBytes(p)
    {
      hide Prefixed, BigEndian, Concat;
      WriteInt32(|p|);
      ghost var start := buf;
      assert p[0..] == p;
      for i := 0 to |p|
        invariant buf + Concat(p[i..]) == start + Concat(p)
      {
        ConcatFirst(p, i);
        Regroup(buf, Prefixed(p[i]), Concat(p[i + 1..]));
        WriteBytes(p[i]);
      }
      ConcatNothing(p[|p|..]);
      Regroup(old(buf), BigEndian(|p|, 4), Concat(p));
    }

    /** The entries of a map in the given order. */
    method WriteEntries(m: map<bytes, int64>, keys: seq<bytes>)
      requires forall k :: k in keys ==> k in m
      modifies this
      ensures buf == old(buf) + EntryBytes(m, keys)
    {
      hide Prefixed, Int64Bytes, EntryBytes;
      NoEntries(m, keys[..0]);
      for i := 0 to |keys|
        invariant buf == old(buf) + EntryBytes(m, keys[..i])
      {
        EntryNext(m, keys, i);
        Regroup(old(buf), EntryBytes(m, keys[..i]), Prefixed(keys[i]) + Int64Bytes(m[keys[i]]));
        Regroup(buf, Prefixed(keys[i]), Int64Bytes(m[keys[i]]));
        WriteBytes(keys[i]);
        WriteInt64(m[keys[i]]);
      }
      assert keys[..|keys|] == keys;
    }

    /** WriteMapStringToI64 */
    method WriteMap(m: map<bytes, int64>)
      modifies this
      ensures |buf| >= |old(buf)| && buf[..|old(buf)|] == old(buf) && IsMapBytes(m, buf[|old(buf)|..])
    {
      hide BigEndian, EntryBytes;
      var keys := KeysOf(m);
      var a := new bytes[|keys|](i requires 0 <= i < |keys| => keys[i]);
      assert a[..] == keys;
      BubbleSort(a, keys);
      var sorted := a[..];
      assert ListsKeys(sorted, m.Keys);
      WriteInt32(|m|);
      WriteEntries(m, sorted);
      Regroup(old(buf), BigEndian(|m|, 4), EntryBytes(m, sorted));
      assert buf[|old(buf)|..] == BigEndian(|m|, 4) + EntryBytes(m, sorted);
    }
  }

  lemma ConcatFirst(p: seq<bytes>, i: nat)
    requires i < |p|
    ensures Concat(p[i..]) == Prefixed(p[i]) + Concat(p[i + 1..])
  {
    assert p[i..][1..] == p[i + 1..];
  }

  lemma ConcatNothing(p: seq<bytes>)
    requires p == []
    ensures Concat(p) == []
  {
  }

  lemma NoEntries(m: map<bytes, int64>, keys: seq<bytes>)
    requires keys == []
    ensures EntryBytes(m, keys) == []
  {
  }

  lemma EntryNext(m: map<bytes, int64>, keys: seq<bytes>, i: nat)
    requires i < |keys| && keys[i] in m
    ensures EntryBytes(m, keys[..i + 1]) == EntryBytes(m, keys[..i]) + (Prefixed(keys[i]) + Int64Bytes(m[keys[i]]))
  {
    assert keys[..i + 1][..i] == keys[..i];
  }

  // ---------------------------------------------------------------- ToBytes

  method EncodeAction(a: Action) returns (r: bytes)
    ensures r == ActionBytes(a)
  {
    hide Prefixed;
    var se := new SimpleEncoder();
    se.WriteBytes(a.contract);
    se.WriteBytes(a.actionName);
    se.WriteBytes(a.data);
    r := se.buf;
  }

  method EncodeAmount(a: Amount) returns (r: bytes)
    ensures r == AmountBytes(a)
  {
    hide Prefixed;
    var se := new SimpleEncoder();
    se.WriteBytes(a.token);
    se.WriteBytes(a.val);
    r := se.buf;
  }

  method EncodeSignature(s: Signature) returns (r: bytes)
    ensures r == SignatureBytes(s)
  {
    hide Prefixed;
    var se := new SimpleEncoder();
    se.WriteByte(s.algorithm);
    se.WriteBytes(s.sig);
    se.WriteBytes(s.pubkey);
    r := se.buf;
  }

  method EncodeSignatures(signs: seq<Signature>) returns (r: seq<bytes>)
    ensures r == Map(SignatureBytes, signs)
  {
    hide SignatureBytes;
    r := [];
    for i := 0 to |signs|
      invariant |r| == i && forall j :: 0 <= j < i ==> r[j] == SignatureBytes(signs[j])
    {
      var b := EncodeSignature(signs[i]);
      r := r + [b];
    }
  }

  method EncodeActions(actions: seq<Action>) returns (r: seq<bytes>)
    ensures r == Map(ActionBytes, actions)
  {
    hide ActionBytes;
    r := [];
    for i := 0 to |actions|
      invariant |r| == i && forall j :: 0 <= j < i ==> r[j] == ActionBytes(actions[j])
    {
      var b := EncodeAction(actions[i]);
      r := r + [b];
    }
  }

  method EncodeAmounts(amounts: seq<Amount>) returns (r: seq<bytes>)
    ensures r == Map(AmountBytes, amounts)
  {
    hide AmountBytes;
    r := [];
    for i := 0 to |amounts|
      invariant |r| == i && forall j :: 0 <= j < i ==> r[j] == AmountBytes(amounts[j])
    {
      var b := EncodeAmount(amounts[i]);
      r := r + [b];
    }
  }

  /** The numbers at the head of a transaction. */
  method WriteHead(se: SimpleEncoder, t: SignedTx)
    modifies se
    ensures se.buf == old(se.buf) + HeadBytes(t, [])
  {
    hide Int64Bytes, BigEndian;
    se.WriteInt64(t.time);
    se.WriteInt64(t.expiration);
    se.WriteInt64(t.gasRatio);
    se.WriteInt64(t.gasLimit);
    se.WriteInt64(t.delay);
    se.WriteInt32(t.chainID);
  }

  lemma HeadThen(t: SignedTx, rest: bytes)
    ensures HeadBytes(t, rest) == HeadBytes(t, []) + rest
  {
    hide Int64Bytes, BigEndian;
  }

  /** The fields that every level covers. */
  method WriteBase(se: SimpleEncoder, t: SignedTx)
    modifies se
    ensures se.buf == old(se.buf) + BaseBytes(t, [])
  {
    hide HeadBytes, Prefixed, SliceBytes, Map;
    ghost var start := se.buf;
    WriteHead(se, t);
    se.WriteBytes(t.reserved);
    se.WriteBytesSlice(t.signers);
    var actions := EncodeActions(t.actions);
    se.WriteBytesSlice(actions);
    var amounts := EncodeAmounts(t.amountLimit);
    se.WriteBytesSlice(amounts);
    HeadThen(t, Prefixed(t.reserved) + (SliceBytes(t.signers) + (SliceBytes(actions) + (SliceBytes(amounts) + []))));
  }

  lemma BaseThen(t: SignedTx, rest: bytes)
    ensures BaseBytes(t, rest) == BaseBytes(t, []) + rest
  {
    hide HeadBytes, Prefixed, SliceBytes, Map;
    var a, b, c, d := Prefixed(t.reserved), SliceBytes(t.signers), SliceBytes(Map(ActionBytes, t.actions)),
        SliceBytes(Map(AmountBytes, t.amountLimit));
    HeadThen(t, a + (b + (c + (d + rest))));
    HeadThen(t, a + (b + (c + (d + []))));
    assert a + (b + (c + (d + rest))) == a + (b + (c + (d + []))) + rest;
    Regroup(HeadBytes(t, []), a + (b + (c + (d + []))), rest);
  }

  /** ToBytes by means of the encoder. */
  method TxToBytes(t: SignedTx, l: Level) returns (r: bytes)
    ensures r == ToBytes(t, l)
  {
    hide BaseBytes, Prefixed, SliceBytes, Map;
    var se := new SimpleEncoder();
    WriteBase(se, t);
    if l != Base {
      var signs := EncodeSignatures(t.signs);
      se.WriteBytesSlice(signs);
    }
    if l == Full {
      se.WriteBytes(t.referredTx);
      se.WriteBytes(t.publisher);
      var publishSigns := EncodeSignatures(t.publishSigns);
      se.WriteBytesSlice(publishSigns);
    }
    BaseThen(t, RestBytes(t, l));
    r := se.buf;
  }
}
