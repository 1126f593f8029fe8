/** The checksum of the log: CRC-64 with the polynomial of ECMA-182, computed with a table. */
module Crc64 {
  import opened Bytes
  import opened WalFormat

  const ECMA: bv64 := 0xC96C_5795_D787_0F42

  function Bit(s: bv64): bv64 {
    if s & 1 == 1 then (s >> 1) ^ ECMA else s >> 1
  }

  /** Entry i of the table. */
  function Table(i: bv64): bv64 {
    Bit(Bit(Bit(Bit(Bit(Bit(Bit(Bit(i))))))))
  }

  function Index(s: bv64, v: bv64): bv64 {
    (s & 0xFF) ^ v
  }

  function Xor(a: bv64, b: bv64): bv64 {
    a ^ b
  }

  function Top(s: bv64): bv64 {
    s >> 56
  }

  function Mix(s: bv64, v: bv64): bv64 {
    Xor(Table(Index(s, v)), ByteOut(s))
  }

  /** One byte. */
  function Step(s: bv64, v: byte): bv64 {
    Mix(s, ToBits(v))
  }

  function Feed(s: bv64, data: bytes): bv64
    decreases |data|
  {
    if data == [] then s else Feed(Step(s, data[0]), data[1..])
  }

  function Not(s: bv64): bv64 {
    !s
  }

  function ByteOut(s: bv64): bv64 {
    s >> 8
  }

  function ToBits(x: uint64): bv64 {
    x as bv64
  }

  function FromBits(s: bv64): uint64 {
    s as int
  }

  /** The checksum goes on from crc. */
  function Update(crc: uint64, data: bytes): uint64 {
    FromBits(Not(Feed(Not(ToBits(crc)), data)))
  }

  // ---------------------------------------------------------------- numbers and bits

  lemma BitsInverse(s: bv64)
    ensures ToBits(FromBits(s)) == s
  {
  }

  function Append0(s: bv64): bv64 {
    s << 1
  }

  function Append1(s: bv64): bv64 {
    (s << 1) | 1
  }

  lemma IsLow(s: bv64)
    requires FromBits(s) < 0x8000_0000_0000_0000
    ensures s < 0x8000_0000_0000_0000
  {
  }

  lemma Doubled0(s: bv64)
    requires s < 0x8000_0000_0000_0000
    ensures FromBits(Append0(s)) == 2 * FromBits(s)
  {
  }

  lemma Doubled1(s: bv64)
    requires s < 0x8000_0000_0000_0000
    ensures FromBits(Append1(s)) == 2 * FromBits(s) + 1
  {
  }

  lemma NoBits()
    ensures FromBits(0) == 0
  {
  }

  /** Every number has its bits. */
  lemma {:induction false} BitsExist(x: uint64) returns (s: bv64)
    ensures FromBits(s) == x
    decreases x
  {
    hide *;
    if x == 0 {
      NoBits();
      s := 0;
    } else {
      var t := BitsExist(x / 2);
      IsLow(t);
      Doubled0(t);
      Doubled1(t);
      s := if x % 2 == 0 then Append0(t) else Append1(t);
    }
  }

  lemma NumberInverse(x: uint64)
    ensures FromBits(ToBits(x)) == x
  {
    hide *;
    var s := BitsExist(x);
    BitsInverse(s);
  }

  lemma NotTwice(s: bv64)
    ensures Not(Not(s)) == s
  {
  }

  lemma ByteIsLow(v: byte)
    ensures ToBits(v) <= 0xFF
  {
    NumberInverse(v);
    SmallIsLow(ToBits(v));
  }

  lemma SmallIsLow(s: bv64)
    requires s as int < 256
    ensures s <= 0xFF
  {
  }

  // ---------------------------------------------------------------- nothing is forgotten

  /** The entries of the table differ in their highest bytes. */
  lemma TableInjective(a: bv64, b: bv64)
    requires a <= 0xFF && b <= 0xFF && Top(Table(a)) == Top(Table(b))
    ensures a == b
  {
  }

  lemma IndexIsLow(s: bv64, v: bv64)
    requires v <= 0xFF
    ensures Index(s, v) <= 0xFF
  {
  }

  lemma TopOfXor(x: bv64, s: bv64)
    ensures Top(Xor(x, ByteOut(s))) == Top(x)
  {
  }

  lemma SameRest(x: bv64, s: bv64, t: bv64, v: bv64)
    requires Xor(x, ByteOut(s)) == Xor(x, ByteOut(t)) && Index(s, v) == Index(t, v)
    ensures s == t
  {
  }

  lemma MixInjective(s: bv64, t: bv64, v: bv64)
    requires v <= 0xFF && Mix(s, v) == Mix(t, v)
    ensures s == t
  {
    hide Table, Index, ByteOut, Xor, Top;
    var a, b := Index(s, v), Index(t, v);
    IndexIsLow(s, v);
    IndexIsLow(t, v);
    TopOfXor(Table(a), s);
    TopOfXor(Table(b), t);
    TableInjective(a, b);
    SameRest(Table(a), s, t, v);
  }

  lemma SameStep(s: bv64, t: bv64, v: byte)
    requires Step(s, v) == Step(t, v)
    ensures s == t
  {
    hide Mix, ToBits;
    ByteIsLow(v);
    MixInjective(s, t, ToBits(v));
  }

  lemma {:induction false} FeedInjective(s: bv64, t: bv64, data: bytes)
    requires Feed(s, data) == Feed(t, data)
    ensures s == t
    decreases |data|
  {
    hide Step;
    if data != [] {
      FeedInjective(Step(s, data[0]), Step(t, data[0]), data[1..]);
      SameStep(s, t, data[0]);
    }
  }

  /** After the same data different checksums are still different. */
  lemma UpdateInjective(x: uint64, y: uint64, data: bytes)
    requires Update(x, data) == Update(y, data)
    ensures x == y
  {
    hide ToBits, FromBits, Not, Feed;
    var s, t := Not(ToBits(x)), Not(ToBits(y));
    BitsInverse(Not(Feed(s, data)));
    BitsInverse(Not(Feed(t, data)));
    NotTwice(Feed(s, data));
    NotTwice(Feed(t, data));
    FeedInjective(s, t, data);
    NotTwice(ToBits(x));
    NotTwice(ToBits(y));
    NumberInverse(x);
    NumberInverse(y);
  }

  // ---------------------------------------------------------------- data with a known checksum

  lemma {:induction false} FeedAppend(s: bv64, a: bytes, b: bytes)
    ensures Feed(s, a + b) == Feed(Feed(s, a), b)
    decreases |a|
  {
    hide Step;
    if a == [] {
      assert a + b == b;
    } else {
      assert (a + b)[1..] == a[1..] + b;
      FeedAppend(Step(s, a[0]), a[1..], b);
    }
  }

  function LowByte(s: bv64): byte {
    LowByteFits(s);
    FromBits(s & 0xFF)
  }

  lemma LowByteFits(s: bv64)
    ensures FromBits(s & 0xFF) < 256
  {
  }

  /** A byte that equals the low byte of the state only shifts it. */
  lemma LowByteShifts(s: bv64)
    ensures Step(s, LowByte(s)) == ByteOut(s)
  {
    hide Table, ToBits, FromBits, ByteOut, Index, Xor;
    BitsInverse(s & 0xFF);
    NothingAdded(s, ByteOut(s));
  }

  lemma NothingAdded(s: bv64, b: bv64)
    ensures Xor(Table(Index(s, s & 0xFF)), b) == b
  {
  }

  /** The bytes that bring the state to zero. */
  function Closing(s: bv64, k: nat): (r: bytes)
    ensures |r| == k
    decreases k
  {
    if k == 0 then [] else [LowByte(s)] + Closing(ByteOut(s), k - 1)
  }

  function Shifted(s: bv64, k: nat): bv64
    decreases k
  {
    if k == 0 then s else Shifted(ByteOut(s), k - 1)
  }

  lemma {:induction false} ClosingShifts(s: bv64, k: nat)
    ensures Feed(s, Closing(s, k)) == Shifted(s, k)
    decreases k
  {
    hide Step, LowByte, ByteOut;
    if k > 0 {
      LowByteShifts(s);
      ClosingShifts(ByteOut(s), k - 1);
      assert Closing(s, k)[1..] == Closing(ByteOut(s), k - 1);
    }
  }

  lemma AllOut(s: bv64)
    ensures ByteOut(ByteOut(ByteOut(ByteOut(ByteOut(ByteOut(ByteOut(ByteOut(s)))))))) == 0
  {
  }

  lemma ShiftedOut(s: bv64)
    ensures Shifted(s, 8) == 0
  {
    hide ByteOut;
    AllOut(s);
    var t := ByteOut(ByteOut(ByteOut(ByteOut(s))));
    assert Shifted(s, 8) == Shifted(ByteOut(s), 7) == Shifted(ByteOut(ByteOut(s)), 6);
    assert Shifted(ByteOut(ByteOut(s)), 6) == Shifted(t, 4) == Shifted(ByteOut(ByteOut(t)), 2);
  }

  const MAX_UINT64: uint64 := 0xFFFF_FFFF_FFFF_FFFF

  lemma AllOnes()
    ensures FromBits(Not(0)) == MAX_UINT64 && ToBits(0) == 0 && Not(0) != 0
  {
  }

  /** Eight bytes after which the checksum is the largest number, whatever came before. */
  function Seal(crc: uint64, data: bytes): (r: bytes)
    ensures |r| == 8
  {
    Closing(Feed(Not(ToBits(crc)), data), 8)
  }

  lemma SealedSum(crc: uint64, data: bytes)
    ensures Update(crc, data + Seal(crc, data)) == MAX_UINT64
  {
    hide Feed, Closing, Shifted, ToBits, FromBits, Not;
    var s := Not(ToBits(crc));
    FeedAppend(s, data, Seal(crc, data));
    ClosingShifts(Feed(s, data), 8);
    ShiftedOut(Feed(s, data));
    AllOnes();
  }

  lemma {:induction false} ZerosStay(k: nat)
    ensures Feed(0, Zeros(k)) == 0
  {
    if k > 0 {
      ZerosStay(k - 1);
      assert Zeros(k)[1..] == Zeros(k - 1);
      assert Step(0, 0) == 0;
    }
  }

  /** The checksum of zeros is not the largest number. */
  lemma SumOfZeros(k: nat)
    ensures Update(0, Zeros(k)) != MAX_UINT64
  {
    hide Feed, ToBits, FromBits, Not;
    AllOnes();
    var t := Feed(Not(0), Zeros(k));
    if FromBits(Not(t)) == MAX_UINT64 {
      BitsInverse(Not(t));
      BitsInverse(Not(0));
      NotTwice(t);
      NotTwice(0);
      ZerosStay(k);
      FeedInjective(Not(0), 0, Zeros(k));
    }
  }

  lemma UpdateByNothing(crc: uint64)
    ensures Update(crc, []) == crc
  {
    hide ToBits, FromBits, Not;
    NumberInverse(crc);
    NotTwice(ToBits(crc));
  }

  // ---------------------------------------------------------------- a known sum

  lemma DigitBits()
    ensures ToBits(0x31) == 0x31 && ToBits(0x32) == 0x32 && ToBits(0x33) == 0x33
    ensures ToBits(0x34) == 0x34 && ToBits(0x35) == 0x35 && ToBits(0x36) == 0x36
    ensures ToBits(0x37) == 0x37 && ToBits(0x38) == 0x38 && ToBits(0x39) == 0x39
  {
  }

  lemma DigitSteps()
    ensures Mix(0xFFFF_FFFF_FFFF_FFFF, 0x31) == 0xD5D0_F17A_6B6A_3512
    ensures Mix(0xD5D0_F17A_6B6A_3512, 0x32) == 0xFBE2_9281_D80D_A6A7
    ensures Mix(0xFBE2_9281_D80D_A6A7, 0x33) == 0xCFDC_D7BB_F8E3_3A9E
    ensures Mix(0xCFDC_D7BB_F8E3_3A9E, 0x34) == 0x31B1_786C_9947_3CD7
    ensures Mix(0x31B1_786C_9947_3CD7, 0x35) == 0xA258_B900_5AFB_A316
    ensures Mix(0xA258_B900_5AFB_A316, 0x36) == 0xFB95_1AC9_A23C_3731
    ensures Mix(0xFB95_1AC9_A23C_3731, 0x37) == 0x8FAF_60C9_9E6D_C25F
    ensures Mix(0x8FAF_60C9_9E6D_C25F, 0x38) == 0xA374_7FB7_D453_87F6
    ensures Mix(0xA374_7FB7_D453_87F6, 0x39) == 0x66A2_3644_20E6_C605
  {
  }

  lemma FeedMore(s: bv64, v: byte, data: bytes)
    ensures Feed(s, [v] + data) == Feed(Mix(s, ToBits(v)), data)
  {
    hide Mix, ToBits;
    assert ([v] + data)[1..] == data;
  }

  lemma SumBits()
    ensures Not(ToBits(0)) == 0xFFFF_FFFF_FFFF_FFFF
    ensures FromBits(Not(0x66A2_3644_20E6_C605)) == 0x995D_C9BB_DF19_39FA
  {
  }

  /** The check value of CRC-64 with this polynomial: the sum of the text "123456789". */
  lemma CheckValue()
    ensures Update(0, [0x31, 0x32, 0x33, 0x34, 0x35, 0x36, 0x37, 0x38, 0x39]) == 0x995D_C9BB_DF19_39FA
  {
    hide *;
    DigitBits();
    DigitSteps();
    SumBits();
    var from9: bytes := [0x39] + [];
    var from8 := [0x38] + from9;
    var from7 := [0x37] + from8;
    var from6 := [0x36] + from7;
    var from5 := [0x35] + from6;
    var from4 := [0x34] + from5;
    var from3 := [0x33] + from4;
    var from2 := [0x32] + from3;
    var from1 := [0x31] + from2;
    assert from1 == [0x31, 0x32, 0x33, 0x34, 0x35, 0x36, 0x37, 0x38, 0x39];
    UpdateIs(0, from1);
    FeedMore(0xFFFF_FFFF_FFFF_FFFF, 0x31, from2);
    FeedMore(0xD5D0_F17A_6B6A_3512, 0x32, from3);
    FeedMore(0xFBE2_9281_D80D_A6A7, 0x33, from4);
    FeedMore(0xCFDC_D7BB_F8E3_3A9E, 0x34, from5);
    FeedMore(0x31B1_786C_9947_3CD7, 0x35, from6);
    FeedMore(0xA258_B900_5AFB_A316, 0x36, from7);
    FeedMore(0xFB95_1AC9_A23C_3731, 0x37, from8);
    FeedMore(0x8FAF_60C9_9E6D_C25F, 0x38, from9);
    FeedMore(0xA374_7FB7_D453_87F6, 0x39, []);
    FedNothing(0x66A2_3644_20E6_C605);
  }

  lemma UpdateIs(crc: uint64, data: bytes)
    ensures Update(crc, data) == FromBits(Not(Feed(Not(ToBits(crc)), data)))
  {
  }

  lemma FedNothing(s: bv64)
    ensures Feed(s, []) == s
  {
  }
}
