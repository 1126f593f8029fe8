/** The signing bytes of a transaction: every field can be read back, so no two transactions share them. */
module Encoding {
  import opened GoInt
  import opened Bytes
  import Blocks

  datatype Action = Action(contract: bytes, actionName: bytes, data: bytes)

  datatype Amount = Amount(token: bytes, val: bytes)

  datatype Signature = Signature(algorithm: byte, sig: bytes, pubkey: bytes)

  type uint32 = x: int | 0 <= x < 0x1_0000_0000

  /** A transaction with all the fields that are signed or hashed. */
  datatype SignedTx = SignedTx(time: int64, expiration: int64, gasRatio: int64, gasLimit: int64, delay: int64,
                               chainID: uint32, reserved: bytes, signers: seq<bytes>, actions: seq<Action>,
                               amountLimit: seq<Amount>, signs: seq<Signature>,
                               referredTx: bytes, publisher: bytes, publishSigns: seq<Signature>)

  datatype Level = Base | Publish | Full

  // ---------------------------------------------------------------- what is written

  /** A 64-bit number, in two's complement. */
  function Int64Bytes(n: int64): (r: bytes)
    ensures |r| == 8
  {
    BigEndian(n % TWO_64, 8)
  }

  /** A length prefix of 32 bits and the bytes. */
  function Prefixed(b: bytes): bytes {
    BigEndian(|b|, 4) + b
  }

  function Concat(s: seq<bytes>): bytes {
    if s == [] then [] else Prefixed(s[0]) + Concat(s[1..])
  }

  function SliceBytes(s: seq<bytes>): bytes {
    BigEndian(|s|, 4) + Concat(s)
  }

  function ActionBytes(a: Action): bytes {
    Prefixed(a.contract) + (Prefixed(a.actionName) + (Prefixed(a.data) + []))
  }

  function AmountBytes(a: Amount): bytes {
    Prefixed(a.token) + (Prefixed(a.val) + [])
  }

  function SignatureBytes(s: Signature): bytes {
    [s.algorithm] + (Prefixed(s.sig) + (Prefixed(s.pubkey) + []))
  }

  function Map<A, B>(f: A -> B, s: seq<A>): (r: seq<B>)
    ensures |r| == |s| && forall i :: 0 <= i < |s| ==> r[i] == f(s[i])
  {
    seq(|s|, i requires 0 <= i < |s| => f(s[i]))
  }

  function HeadBytes(t: SignedTx, rest: bytes): bytes {
    Int64Bytes(t.time) + (Int64Bytes(t.expiration) + (Int64Bytes(t.gasRatio) +
    (Int64Bytes(t.gasLimit) + (Int64Bytes(t.delay) +
    (BigEndian(t.chainID, 4) + rest)))))
  }

  /** The fields every level covers, followed by `rest`. */
  function BaseBytes(t: SignedTx, rest: bytes): bytes {
    HeadBytes(t, Prefixed(t.reserved) + (SliceBytes(t.signers) + (SliceBytes(Map(ActionBytes, t.actions)) +
                 (SliceBytes(Map(AmountBytes, t.amountLimit)) + rest))))
  }

  /** ToBytes */
  function ToBytes(t: SignedTx, l: Level): bytes {
    BaseBytes(t, RestBytes(t, l))
  }

  function RestBytes(t: SignedTx, l: Level): bytes {
    match l
    case Base => []
    case Publish => PublishBytes(t, [])
    case Full => PublishBytes(t, FullBytes(t))
  }

  function PublishBytes(t: SignedTx, rest: bytes): bytes {
    SliceBytes(Map(SignatureBytes, t.signs)) + rest
  }

  function FullBytes(t: SignedTx): bytes {
    Prefixed(t.referredTx) + (Prefixed(t.publisher) + (SliceBytes(Map(SignatureBytes, t.publishSigns)) + []))
  }

  // ---------------------------------------------------------------- reading it back

  /** Lengths fit into their prefix. */
  predicate Short(b: bytes) {
    |b| < 0x1_0000_0000
  }

  ghost predicate AllShort(s: seq<bytes>) {
    |s| < 0x1_0000_0000 && forall i :: 0 <= i < |s| ==> Short(s[i])
  }

  lemma SplitEqual(a: bytes, r: bytes, b: bytes, s: bytes)
    requires a + r == b + s && |a| == |b|
    ensures a == b && r == s
  {
    assert a == (a + r)[..|a|] && b == (b + s)[..|a|];
    assert r == (a + r)[|a|..] && s == (b + s)[|a|..];
  }

  lemma BigEndianUnique(m: nat, n: nat, k: nat, r: bytes, s: bytes)
    requires m < Pow256(k) && n < Pow256(k) && BigEndian(m, k) + r == BigEndian(n, k) + s
    ensures m == n && r == s
  {
    SplitEqual(BigEndian(m, k), r, BigEndian(n, k), s);
    BigEndianInverse(m, k);
    BigEndianInverse(n, k);
  }

  lemma Int64Unique(m: int64, n: int64, r: bytes, s: bytes)
    requires Int64Bytes(m) + r == Int64Bytes(n) + s
    ensures m == n && r == s
  {
    Pow256Of8();
    BigEndianUnique(m % TWO_64, n % TWO_64, 8, r, s);
  }

  lemma PrefixedUnique(a: bytes, b: bytes, r: bytes, s: bytes)
    requires Short(a) && Short(b) && Prefixed(a) + r == Prefixed(b) + s
    ensures a == b && r == s
  {
    Pow256Of8();
    var p, q := BigEndian(|a|, 4), BigEndian(|b|, 4);
    assert p + a + r == p + (a + r) && q + b + s == q + (b + s);
    BigEndianUnique(|a|, |b|, 4, a + r, b + s);
    SplitEqual(a, r, b, s);
  }

  lemma {:induction false} ConcatUnique(x: seq<bytes>, y: seq<bytes>, r: bytes, s: bytes)
    requires AllShort(x) && AllShort(y) && |x| == |y| && Concat(x) + r == Concat(y) + s
    ensures x == y && r == s
  {
    if x != [] {
      assert Concat(x) + r == Prefixed(x[0]) + (Concat(x[1..]) + r);
      assert Concat(y) + s == Prefixed(y[0]) + (Concat(y[1..]) + s);
      PrefixedUnique(x[0], y[0], Concat(x[1..]) + r, Concat(y[1..]) + s);
      ConcatUnique(x[1..], y[1..], r, s);
      assert x == [x[0]] + x[1..] && y == [y[0]] + y[1..];
    } else {
      assert [] + r == r && [] + s == s;
    }
  }

  lemma SliceUnique(x: seq<bytes>, y: seq<bytes>, r: bytes, s: bytes)
    requires AllShort(x) && AllShort(y) && SliceBytes(x) + r == SliceBytes(y) + s
    ensures x == y && r == s
  {
    Pow256Of8();
    var p, q := BigEndian(|x|, 4), BigEndian(|y|, 4);
    assert p + Concat(x) + r == p + (Concat(x) + r) && q + Concat(y) + s == q + (Concat(y) + s);
    BigEndianUnique(|x|, |y|, 4, Concat(x) + r, Concat(y) + s);
    ConcatUnique(x, y, r, s);
  }

  ghost predicate ShortAction(a: Action) {
    Short(a.contract) && Short(a.actionName) && Short(a.data) && Short(ActionBytes(a))
  }

  ghost predicate ShortAmount(a: Amount) {
    Short(a.token) && Short(a.val) && Short(AmountBytes(a))
  }

  ghost predicate ShortSignature(s: Signature) {
    Short(s.sig) && Short(s.pubkey) && Short(SignatureBytes(s))
  }

  lemma ActionUnique(a: Action, b: Action)
    requires ShortAction(a) && ShortAction(b) && ActionBytes(a) == ActionBytes(b)
    ensures a == b
  {
    hide Prefixed;
    PrefixedUnique(a.contract, b.contract, Prefixed(a.actionName) + (Prefixed(a.data) + []),
                   Prefixed(b.actionName) + (Prefixed(b.data) + []));
    PrefixedUnique(a.actionName, b.actionName, Prefixed(a.data) + [], Prefixed(b.data) + []);
    PrefixedUnique(a.data, b.data, [], []);
  }

  lemma AmountUnique(a: Amount, b: Amount)
    requires ShortAmount(a) && ShortAmount(b) && AmountBytes(a) == AmountBytes(b)
    ensures a == b
  {
    hide Prefixed;
    PrefixedUnique(a.token, b.token, Prefixed(a.val) + [], Prefixed(b.val) + []);
    PrefixedUnique(a.val, b.val, [], []);
  }

  lemma SignatureUnique(a: Signature, b: Signature)
    requires ShortSignature(a) && ShortSignature(b) && SignatureBytes(a) == SignatureBytes(b)
    ensures a == b
  {
    hide Prefixed;
    var r, s := Prefixed(a.sig) + (Prefixed(a.pubkey) + []), Prefixed(b.sig) + (Prefixed(b.pubkey) + []);
    SplitEqual([a.algorithm], r, [b.algorithm], s);
    PrefixedUnique(a.sig, b.sig, Prefixed(a.pubkey) + [], Prefixed(b.pubkey) + []);
    PrefixedUnique(a.pubkey, b.pubkey, [], []);
  }

  ghost predicate ShortActions(s: seq<Action>) {
    |s| < 0x1_0000_0000 && forall i :: 0 <= i < |s| ==> ShortAction(s[i])
  }

  ghost predicate ShortAmounts(s: seq<Amount>) {
    |s| < 0x1_0000_0000 && forall i :: 0 <= i < |s| ==> ShortAmount(s[i])
  }

  ghost predicate ShortSignatures(s: seq<Signature>) {
    |s| < 0x1_0000_0000 && forall i :: 0 <= i < |s| ==> ShortSignature(s[i])
  }

  lemma ActionsUnique(a: seq<Action>, b: seq<Action>, r: bytes, s: bytes)
    requires ShortActions(a) && ShortActions(b)
    requires SliceBytes(Map(ActionBytes, a)) + r == SliceBytes(Map(ActionBytes, b)) + s
    ensures a == b && r == s
  {
    hide SliceBytes, ActionBytes;
    var x, y := Map(ActionBytes, a), Map(ActionBytes, b);
    SliceUnique(x, y, r, s);
    forall i | 0 <= i < |a| ensures a[i] == b[i] {
      assert x[i] == y[i];
      ActionUnique(a[i], b[i]);
    }
  }

  lemma AmountsUnique(a: seq<Amount>, b: seq<Amount>, r: bytes, s: bytes)
    requires ShortAmounts(a) && ShortAmounts(b)
    requires SliceBytes(Map(AmountBytes, a)) + r == SliceBytes(Map(AmountBytes, b)) + s
    ensures a == b && r == s
  {
    hide SliceBytes, AmountBytes;
    var x, y := Map(AmountBytes, a), Map(AmountBytes, b);
    SliceUnique(x, y, r, s);
    forall i | 0 <= i < |a| ensures a[i] == b[i] {
      assert x[i] == y[i];
      AmountUnique(a[i], b[i]);
    }
  }

  lemma SignaturesUnique(a: seq<Signature>, b: seq<Signature>, r: bytes, s: bytes)
    requires ShortSignatures(a) && ShortSignatures(b)
    requires SliceBytes(Map(SignatureBytes, a)) + r == SliceBytes(Map(SignatureBytes, b)) + s
    ensures a == b && r == s
  {
    hide SliceBytes, SignatureBytes;
    var x, y := Map(SignatureBytes, a), Map(SignatureBytes, b);
    SliceUnique(x, y, r, s);
    forall i | 0 <= i < |a| ensures a[i] == b[i] {
      assert x[i] == y[i];
      SignatureUnique(a[i], b[i]);
    }
  }

  // ---------------------------------------------------------------- whole transactions

  ghost predicate ShortTx(t: SignedTx) {
    && Short(t.reserved) && AllShort(t.signers) && ShortActions(t.actions) && ShortAmounts(t.amountLimit)
    && ShortSignatures(t.signs) && Short(t.referredTx) && Short(t.publisher) && ShortSignatures(t.publishSigns)
  }

  ghost predicate SameHead(t: SignedTx, u: SignedTx) {
    && t.time == u.time && t.expiration == u.expiration && t.gasRatio == u.gasRatio && t.gasLimit == u.gasLimit
    && t.delay == u.delay && t.chainID == u.chainID
  }

  ghost predicate SameBase(t: SignedTx, u: SignedTx) {
    SameHead(t, u) && t.reserved == u.reserved && t.signers == u.signers && t.actions == u.actions &&
      t.amountLimit == u.amountLimit
  }

  /** t and u agree on the fields that the level covers. */
  ghost predicate SameFields(t: SignedTx, u: SignedTx, l: Level) {
    && SameBase(t, u)
    && (l != Base ==> t.signs == u.signs)
    && (l == Full ==> t.referredTx == u.referredTx && t.publisher == u.publisher && t.publishSigns == u.publishSigns)
  }

  lemma HeadUnique(t: SignedTx, u: SignedTx, r: bytes, s: bytes)
    requires HeadBytes(t, r) == HeadBytes(u, s)
    ensures SameHead(t, u) && r == s
  {
    hide Int64Bytes, BigEndian;
    Pow256Of8();
    var a5, b5 := BigEndian(t.chainID, 4) + r, BigEndian(u.chainID, 4) + s;
    var a4, b4 := Int64Bytes(t.delay) + a5, Int64Bytes(u.delay) + b5;
    var a3, b3 := Int64Bytes(t.gasLimit) + a4, Int64Bytes(u.gasLimit) + b4;
    var a2, b2 := Int64Bytes(t.gasRatio) + a3, Int64Bytes(u.gasRatio) + b3;
    var a1, b1 := Int64Bytes(t.expiration) + a2, Int64Bytes(u.expiration) + b2;
    Int64Unique(t.time, u.time, a1, b1);
    Int64Unique(t.expiration, u.expiration, a2, b2);
    Int64Unique(t.gasRatio, u.gasRatio, a3, b3);
    Int64Unique(t.gasLimit, u.gasLimit, a4, b4);
    Int64Unique(t.delay, u.delay, a5, b5);
    BigEndianUnique(t.chainID, u.chainID, 4, r, s);
  }

  /** The covered fields come first and tell where they end. */
  lemma BaseUnique(t: SignedTx, u: SignedTx, r: bytes, s: bytes)
    requires ShortTx(t) && ShortTx(u) && BaseBytes(t, r) == BaseBytes(u, s)
    ensures SameBase(t, u) && r == s
  {
    hide Int64Bytes, BigEndian, SliceBytes, Prefixed, SameHead, ShortAction, ShortAmount, ShortSignature;
    var a3, b3 := SliceBytes(Map(AmountBytes, t.amountLimit)) + r, SliceBytes(Map(AmountBytes, u.amountLimit)) + s;
    var a2, b2 := SliceBytes(Map(ActionBytes, t.actions)) + a3, SliceBytes(Map(ActionBytes, u.actions)) + b3;
    var a1, b1 := SliceBytes(t.signers) + a2, SliceBytes(u.signers) + b2;
    HeadUnique(t, u, Prefixed(t.reserved) + a1, Prefixed(u.reserved) + b1);
    PrefixedUnique(t.reserved, u.reserved, a1, b1);
    SliceUnique(t.signers, u.signers, a2, b2);
    ActionsUnique(t.actions, u.actions, a3, b3);
    AmountsUnique(t.amountLimit, u.amountLimit, r, s);
  }

  lemma FullUnique(t: SignedTx, u: SignedTx)
    requires ShortTx(t) && ShortTx(u) && FullBytes(t) == FullBytes(u)
    ensures t.referredTx == u.referredTx && t.publisher == u.publisher && t.publishSigns == u.publishSigns
  {
    hide SliceBytes, Prefixed;
    var a2, b2 := SliceBytes(Map(SignatureBytes, t.publishSigns)) + [],
        SliceBytes(Map(SignatureBytes, u.publishSigns)) + [];
    PrefixedUnique(t.referredTx, u.referredTx, Prefixed(t.publisher) + a2, Prefixed(u.publisher) + b2);
    PrefixedUnique(t.publisher, u.publisher, a2, b2);
    SignaturesUnique(t.publishSigns, u.publishSigns, [], []);
  }

  lemma SliceIsNotEmpty(s: seq<bytes>, rest: bytes)
    ensures |SliceBytes(s) + rest| >= 4
  {
  }

  lemma RestUnique(t: SignedTx, u: SignedTx, l: Level, m: Level)
    requires ShortTx(t) && ShortTx(u) && SameBase(t, u) && RestBytes(t, l) == RestBytes(u, m)
    ensures l == m && SameFields(t, u, l)
  {
    hide SliceBytes, Prefixed, ShortSignature;
    var ra := if l == Full then FullBytes(t) else [];
    var rb := if m == Full then FullBytes(u) else [];
    SliceIsNotEmpty(Map(SignatureBytes, t.signs), ra);
    SliceIsNotEmpty(Map(SignatureBytes, u.signs), rb);
    FullIsNotEmpty(t);
    FullIsNotEmpty(u);
    if l != Base && m != Base {
      SignaturesUnique(t.signs, u.signs, ra, rb);
      if l == Full && m == Full {
        FullUnique(t, u);
      }
    }
  }

  lemma FullIsNotEmpty(t: SignedTx)
    ensures FullBytes(t) != []
  {
  }

  /**
   The bytes determine the covered fields, and even the level: what signers sign is never what a
   publisher signs, nor what is hashed as the transaction.
   */
  lemma ToBytesUnique(t: SignedTx, u: SignedTx, l: Level, m: Level)
    requires ShortTx(t) && ShortTx(u)
    ensures ToBytes(t, l) == ToBytes(u, m) <==> l == m && SameFields(t, u, l)
  {
    hide SliceBytes, Prefixed, ShortTx, Int64Bytes, BigEndian;
    if ToBytes(t, l) == ToBytes(u, m) {
      BaseUnique(t, u, RestBytes(t, l), RestBytes(u, m));
      RestUnique(t, u, l, m);
    }
  }

  // ---------------------------------------------------------------- where the fields stand

  /** The fixed fields stand in this order in 44 bytes, most significant byte first. */
  lemma HeadLayout(t: SignedTx, rest: bytes)
    ensures var b := HeadBytes(t, rest);
            && |b| == 44 + |rest| && b[44..] == rest
            && ToInt64(FromBigEndian(b[..8])) == t.time && ToInt64(FromBigEndian(b[8..16])) == t.expiration
            && ToInt64(FromBigEndian(b[16..24])) == t.gasRatio && ToInt64(FromBigEndian(b[24..32])) == t.gasLimit
            && ToInt64(FromBigEndian(b[32..40])) == t.delay && FromBigEndian(b[40..44]) == t.chainID
  {
    hide BigEndian;
    var b := HeadBytes(t, rest);
    var nums := [t.time, t.expiration, t.gasRatio, t.gasLimit, t.delay];
    assert b[..8] == Int64Bytes(t.time) && b[8..16] == Int64Bytes(t.expiration) && b[16..24] == Int64Bytes(t.gasRatio);
    assert b[24..32] == Int64Bytes(t.gasLimit) && b[32..40] == Int64Bytes(t.delay);
    assert b[40..44] == BigEndian(t.chainID, 4);
    forall n | n in nums ensures ToInt64(FromBigEndian(Int64Bytes(n))) == n {
      Int64Reads(n);
    }
    Pow256Of8();
    BigEndianInverse(t.chainID, 4);
  }

  /** A 64-bit number in two's complement. */
  function ToInt64(n: nat): int {
    if n >= TWO_63 then n - TWO_64 else n
  }

  lemma Int64Reads(n: int64)
    ensures ToInt64(FromBigEndian(Int64Bytes(n))) == n
  {
    Pow256Of8();
    BigEndianInverse(n % TWO_64, 8);
  }

  /** The first bytes of b as a length, so many bytes, and what follows. */
  function ReadBytes(b: bytes): (bytes, bytes) {
    if |b| < 4 || |b| - 4 < FromBigEndian(b[..4]) then ([], [])
    else var n := FromBigEndian(b[..4]); (b[4..4 + n], b[4 + n..])
  }

  function ReadItems(b: bytes, n: nat): (seq<bytes>, bytes)
    decreases n
  {
    if n == 0 then ([], b)
    else
      var (x, r) := ReadBytes(b);
      var (xs, rest) := ReadItems(r, n - 1);
      ([x] + xs, rest)
  }

  function ReadSlice(b: bytes): (seq<bytes>, bytes) {
    if |b| < 4 then ([], []) else ReadItems(b[4..], FromBigEndian(b[..4]))
  }

  function ReadAction(b: bytes): Action {
    var (contract, r) := ReadBytes(b);
    var (name, s) := ReadBytes(r);
    Action(contract, name, ReadBytes(s).0)
  }

  function ReadAmount(b: bytes): Amount {
    var (token, r) := ReadBytes(b);
    Amount(token, ReadBytes(r).0)
  }

  function ReadSignature(b: bytes): Signature {
    if b == [] then Signature(0, [], [])
    else
      var (sig, r) := ReadBytes(b[1..]);
      Signature(b[0], sig, ReadBytes(r).0)
  }

  lemma PrefixedReads(x: bytes, r: bytes)
    requires Short(x)
    ensures ReadBytes(Prefixed(x) + r) == (x, r)
  {
    hide BigEndian, FromBigEndian;
    Pow256Of8();
    BigEndianInverse(|x|, 4);
    var b := Prefixed(x) + r;
    assert b[..4] == BigEndian(|x|, 4) && b[4..4 + |x|] == x && b[4 + |x|..] == r;
  }

  lemma {:induction false} ItemsRead(xs: seq<bytes>, r: bytes)
    requires AllShort(xs)
    ensures ReadItems(Concat(xs) + r, |xs|) == (xs, r)
  {
    hide Prefixed, ReadBytes;
    if xs != [] {
      assert Concat(xs) + r == Prefixed(xs[0]) + (Concat(xs[1..]) + r);
      PrefixedReads(xs[0], Concat(xs[1..]) + r);
      ItemsRead(xs[1..], r);
      assert xs == [xs[0]] + xs[1..];
    } else {
      assert Concat(xs) + r == r;
    }
  }

  lemma SliceReads(xs: seq<bytes>, r: bytes)
    requires AllShort(xs)
    ensures ReadSlice(SliceBytes(xs) + r) == (xs, r)
  {
    hide BigEndian, FromBigEndian;
    Pow256Of8();
    BigEndianInverse(|xs|, 4);
    var b := SliceBytes(xs) + r;
    assert b[..4] == BigEndian(|xs|, 4) && b[4..] == Concat(xs) + r;
    ItemsRead(xs, r);
  }

  lemma ActionReads(a: Action)
    requires ShortAction(a)
    ensures ReadAction(ActionBytes(a)) == a
  {
    hide Prefixed, ReadBytes;
    PrefixedReads(a.contract, Prefixed(a.actionName) + (Prefixed(a.data) + []));
    PrefixedReads(a.actionName, Prefixed(a.data) + []);
    PrefixedReads(a.data, []);
  }

  lemma AmountReads(a: Amount)
    requires ShortAmount(a)
    ensures ReadAmount(AmountBytes(a)) == a
  {
    hide Prefixed, ReadBytes;
    PrefixedReads(a.token, Prefixed(a.val) + []);
    PrefixedReads(a.val, []);
  }

  lemma SignatureReads(s: Signature)
    requires ShortSignature(s)
    ensures ReadSignature(SignatureBytes(s)) == s
  {
    hide Prefixed, ReadBytes;
    var r := Prefixed(s.sig) + (Prefixed(s.pubkey) + []);
    assert SignatureBytes(s)[1..] == r;
    PrefixedReads(s.sig, Prefixed(s.pubkey) + []);
    PrefixedReads(s.pubkey, []);
  }

  /** The transaction read back from its bytes, field by field; what the level does not cover is empty. */
  function ReadTx(b: bytes, l: Level): SignedTx
    requires |b| >= 44
  {
    var (reserved, r1) := ReadBytes(b[44..]);
    var (signers, r2) := ReadSlice(r1);
    var (actions, r3) := ReadSlice(r2);
    var (amounts, r4) := ReadSlice(r3);
    var (signs, r5) := if l == Base then ([], []) else ReadSlice(r4);
    var (referred, r6) := if l != Full then ([], []) else ReadBytes(r5);
    var (publisher, r7) := if l != Full then ([], []) else ReadBytes(r6);
    var (publishSigns, _) := if l != Full then ([], []) else ReadSlice(r7);
    SignedTx(Wrap64(ToInt64(FromBigEndian(b[..8]))), Wrap64(ToInt64(FromBigEndian(b[8..16]))),
             Wrap64(ToInt64(FromBigEndian(b[16..24]))), Wrap64(ToInt64(FromBigEndian(b[24..32]))),
             Wrap64(ToInt64(FromBigEndian(b[32..40]))), FromBigEndian(b[40..44]) % 0x1_0000_0000,
             reserved, signers, Map(ReadAction, actions), Map(ReadAmount, amounts), Map(ReadSignature, signs),
             referred, publisher, Map(ReadSignature, publishSigns))
  }

  /** The fields that the level covers. */
  function Covered(t: SignedTx, l: Level): SignedTx {
    match l
    case Base => t.(signs := [], referredTx := [], publisher := [], publishSigns := [])
    case Publish => t.(referredTx := [], publisher := [], publishSigns := [])
    case Full => t
  }

  lemma ActionsRead(a: seq<Action>, r: bytes)
    requires ShortActions(a)
    ensures var (x, rest) := ReadSlice(SliceBytes(Map(ActionBytes, a)) + r); Map(ReadAction, x) == a && rest == r
  {
    hide SliceBytes, ActionBytes, ReadAction, ReadSlice;
    SliceReads(Map(ActionBytes, a), r);
    forall i | 0 <= i < |a| ensures ReadAction(ActionBytes(a[i])) == a[i] {
      ActionReads(a[i]);
    }
  }

  lemma AmountsRead(a: seq<Amount>, r: bytes)
    requires ShortAmounts(a)
    ensures var (x, rest) := ReadSlice(SliceBytes(Map(AmountBytes, a)) + r); Map(ReadAmount, x) == a && rest == r
  {
    hide SliceBytes, AmountBytes, ReadAmount, ReadSlice;
    SliceReads(Map(AmountBytes, a), r);
    forall i | 0 <= i < |a| ensures ReadAmount(AmountBytes(a[i])) == a[i] {
      AmountReads(a[i]);
    }
  }

  lemma SignaturesRead(a: seq<Signature>, r: bytes)
    requires ShortSignatures(a)
    ensures var (x, rest) := ReadSlice(SliceBytes(Map(SignatureBytes, a)) + r); Map(ReadSignature, x) == a && rest == r
  {
    hide SliceBytes, SignatureBytes, ReadSignature, ReadSlice;
    SliceReads(Map(SignatureBytes, a), r);
    forall i | 0 <= i < |a| ensures ReadSignature(SignatureBytes(a[i])) == a[i] {
      SignatureReads(a[i]);
    }
  }

  /** Every covered field is read back from its place in the bytes. */
  lemma ToBytesReads(t: SignedTx, l: Level)
    requires ShortTx(t)
    ensures |ToBytes(t, l)| >= 44 && ReadTx(ToBytes(t, l), l) == Covered(t, l)
  {
    hide HeadBytes, SliceBytes, Prefixed, ReadSlice, ReadBytes, ReadAction, ReadAmount, ReadSignature, FromBigEndian,
        ShortAction, ShortAmount, ShortSignature, ActionBytes, AmountBytes, SignatureBytes;
    var r4 := RestBytes(t, l);
    var r3 := SliceBytes(Map(AmountBytes, t.amountLimit)) + r4;
    var r2 := SliceBytes(Map(ActionBytes, t.actions)) + r3;
    var r1 := SliceBytes(t.signers) + r2;
    HeadLayout(t, Prefixed(t.reserved) + r1);
    PrefixedReads(t.reserved, r1);
    SliceReads(t.signers, r2);
    ActionsRead(t.actions, r3);
    AmountsRead(t.amountLimit, r4);
    var full := if l == Full then FullBytes(t) else [];
    SignaturesRead(t.signs, full);
    var r7 := SliceBytes(Map(SignatureBytes, t.publishSigns)) + [];
    PrefixedReads(t.referredTx, Prefixed(t.publisher) + r7);
    PrefixedReads(t.publisher, r7);
    SignaturesRead(t.publishSigns, []);
  }

  // ---------------------------------------------------------------- what the chain sees of a transaction

  /** The transaction as the blocks hold it: the fields its rules inspect, and the hashed bytes for the rest. */
  function Summary(t: SignedTx): Blocks.Tx {
    Blocks.Tx(t.time, t.expiration, t.gasRatio, t.gasLimit, t.delay, t.referredTx != [], ToBytes(t, Full))
  }

  /** Nothing is lost: different transactions are different in a block, too. */
  lemma SummaryUnique(t: SignedTx, u: SignedTx)
    requires ShortTx(t) && ShortTx(u)
    ensures Summary(t) == Summary(u) <==> t == u
  {
    ToBytesUnique(t, u, Full, Full);
  }
}
