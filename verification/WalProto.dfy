/** The records and entries of the log as protocol-buffer messages, and what zeros at the end make of a record. */
module WalProto {
  import opened Bytes
  import opened GoInt
  import opened Options
  import opened Wire
  import opened WalFormat
  import opened WalCrash

  // ---------------------------------------------------------------- records

  /** An enumeration value is written as a 64-bit number. */
  function FromKind(k: LogType): (v: nat)
    ensures v < TWO_64 && (v == 0 <==> k == 0)
  {
    if k < 0 then TWO_64 + k else k
  }

  /** Of the number that is read, 32 bits are kept. */
  function ToKind(v: nat): LogType {
    var low := v % 0x1_0000_0000;
    if low >= 0x8000_0000 then low - 0x1_0000_0000 else low
  }

  lemma KindInverse(k: LogType)
    ensures ToKind(FromKind(k)) == k
  {
  }

  const EMPTY_LOG := Log(0, [], 0)

  /** The type is field 1, the data field 2 and the checksum field 3; default values are left out. */
  function Marshal(l: Log): bytes {
    NumField(1, FromKind(l.kind)) + (BytesField(2, l.data) + NumField(3, l.checksum))
  }

  /** The tags on the wire; a field with its default value is not there. */
  lemma MarshalLayout(l: Log)
    requires l.kind != 0 && l.data != [] && l.checksum != 0
    ensures Marshal(l) == [0x08] + Varint(FromKind(l.kind)) + [0x12] + Varint(|l.data|) + l.data +
                          [0x18] + Varint(l.checksum)
  {
  }

  /** Fields that the message does not have are ignored. */
  function WithField(l: Log, num: nat, v: Value): Log
    requires v.Num? ==> v.n < Limit(ROOM)
  {
    LimitOf10();
    match v
    case Num(n) => if num == 1 then l.(kind := ToKind(n)) else if num == 3 then l.(checksum := n) else l
    case Str(s) => if num == 2 then l.(data := s) else l
    case Skipped => l
  }

  /** The fields one after the other; of several with one number the last counts. */
  function Parse(b: bytes, l: Log): Option<Log>
    decreases |b|
  {
    if b == [] then Some(l)
    else
      match NextField(b)
      case None => None
      case Some((num, v, rest)) => Parse(rest, WithField(l, num, v))
  }

  function Unmarshal(b: bytes): Option<Log> {
    Parse(b, EMPTY_LOG)
  }

  lemma ParseKind(k: LogType, rest: bytes, l: Log)
    requires l.kind == 0
    ensures Parse(NumField(1, FromKind(k)) + rest, l) == Parse(rest, l.(kind := k))
  {
    hide NextField, NumField, ToKind;
    LimitOf10();
    KindInverse(k);
    NoField(1, rest);
    if k != 0 {
      NumFieldReads(1, FromKind(k), rest);
    }
  }

  lemma ParseData(s: bytes, rest: bytes, l: Log)
    requires l.data == [] && |s| < TWO_64
    ensures Parse(BytesField(2, s) + rest, l) == Parse(rest, l.(data := s))
  {
    hide NextField, BytesField;
    LimitOf10();
    NoField(2, rest);
    if s != [] {
      BytesFieldReads(2, s, rest);
    }
  }

  lemma ParseSum(v: uint64, rest: bytes, l: Log)
    requires l.checksum == 0
    ensures Parse(NumField(3, v) + rest, l) == Parse(rest, l.(checksum := v))
  {
    hide NextField, NumField;
    LimitOf10();
    NoField(3, rest);
    if v != 0 {
      NumFieldReads(3, v, rest);
    }
  }

  lemma NoField(num: nat, rest: bytes)
    requires 0 < num < 16
    ensures NumField(num, 0) + rest == rest == BytesField(num, []) + rest
  {
  }

  lemma MarshalInverse(l: Log)
    requires |l.data| < TWO_64
    ensures Unmarshal(Marshal(l)) == Some(l)
  {
    hide NumField, BytesField, Parse;
    var a, b, c := NumField(1, FromKind(l.kind)), BytesField(2, l.data), NumField(3, l.checksum);
    ParseKind(l.kind, b + c, EMPTY_LOG);
    ParseData(l.data, c, EMPTY_LOG.(kind := l.kind));
    assert c == c + [];
    ParseSum(l.checksum, [], l.(checksum := 0));
    ParseNothing(l);
  }

  lemma ParseNothing(l: Log)
    ensures Parse([], l) == Some(l)
  {
  }

  // ---------------------------------------------------------------- entries

  /** The data is field 1, the extra metadata field 2 and the index field 3. */
  function MarshalEntry(e: Entry): bytes {
    BytesField(1, e.data) + (BytesField(2, e.extraMeta) + NumField(3, e.index))
  }

  lemma MarshalEntryLayout(e: Entry)
    requires e.data != [] && e.extraMeta != [] && e.index != 0
    ensures MarshalEntry(e) == [0x0A] + Varint(|e.data|) + e.data + [0x12] + Varint(|e.extraMeta|) + e.extraMeta +
                               [0x18] + Varint(e.index)
  {
  }

  const EMPTY_ENTRY := Entry([], [], 0)

  function WithEntryField(e: Entry, num: nat, v: Value): Entry
    requires v.Num? ==> v.n < Limit(ROOM)
  {
    LimitOf10();
    match v
    case Num(n) => if num == 3 then e.(index := n) else e
    case Str(s) => if num == 1 then e.(data := s) else if num == 2 then e.(extraMeta := s) else e
    case Skipped => e
  }

  function ParseEntry(b: bytes, e: Entry): Option<Entry>
    decreases |b|
  {
    if b == [] then Some(e)
    else
      match NextField(b)
      case None => None
      case Some((num, v, rest)) => ParseEntry(rest, WithEntryField(e, num, v))
  }

  function UnmarshalEntry(b: bytes): Option<Entry> {
    ParseEntry(b, EMPTY_ENTRY)
  }

  lemma ParseEntryBytes(num: nat, s: bytes, rest: bytes, e: Entry)
    requires (num == 1 && e.data == []) || (num == 2 && e.extraMeta == [])
    requires |s| < TWO_64
    ensures ParseEntry(BytesField(num, s) + rest, e) ==
            ParseEntry(rest, if num == 1 then e.(data := s) else e.(extraMeta := s))
  {
    hide NextField, BytesField;
    LimitOf10();
    NoField(num, rest);
    if s != [] {
      BytesFieldReads(num, s, rest);
    }
  }

  lemma ParseIndex(v: uint64, e: Entry)
    requires e.index == 0
    ensures ParseEntry(NumField(3, v), e) == Some(e.(index := v))
  {
    hide NextField, NumField;
    LimitOf10();
    NoField(3, []);
    assert NumField(3, v) + [] == NumField(3, v);
    if v != 0 {
      NumFieldReads(3, v, []);
    }
  }

  lemma MarshalEntryInverse(e: Entry)
    requires |MarshalEntry(e)| < TWO_64
    ensures UnmarshalEntry(MarshalEntry(e)) == Some(e)
  {
    var b, c := BytesField(2, e.extraMeta), NumField(3, e.index);
    BytesAreLonger(1, e.data);
    BytesAreLonger(2, e.extraMeta);
    hide BytesField, NumField, ParseEntry;
    ParseEntryBytes(1, e.data, b + c, EMPTY_ENTRY);
    ParseEntryBytes(2, e.extraMeta, c, EMPTY_ENTRY.(data := e.data));
    ParseIndex(e.index, e.(index := 0));
  }

  lemma BytesAreLonger(num: nat, s: bytes)
    requires 0 < num < 16
    ensures |s| <= |BytesField(num, s)|
  {
  }

  // ---------------------------------------------------------------- the codec

  /** The messages of the log with any checksum. */
  function ProtoCodec(update: (uint64, bytes) -> uint64): Codec {
    Codec(Marshal, Unmarshal, MarshalEntry, UnmarshalEntry, update)
  }

  lemma FieldSizes(l: Log)
    ensures |Marshal(l)| == (if l.kind == 0 then 0 else 1 + |Varint(FromKind(l.kind))|)
                            + (if l.data == [] then 0 else 1 + |Varint(|l.data|)| + |l.data|)
                            + (if l.checksum == 0 then 0 else 1 + |Varint(l.checksum)|)
  {
  }

  lemma VarintLength(v: uint64)
    ensures |Varint(v)| <= 10 && (v < 0x80 ==> |Varint(v)| == 1) && (0x80 <= v < 0x4000 ==> |Varint(v)| == 2)
  {
    LimitOf10();
    VarintInverse(v, [], ROOM);
  }

  lemma MarshalSize(l: Log)
    ensures |l.data| <= |Marshal(l)| && (Marshal(l) == [] ==> l == EMPTY_LOG)
  {
    BytesAreLonger(2, l.data);
  }

  /** It decodes what it encodes. */
  lemma ProtoCodecIsValid(update: (uint64, bytes) -> uint64)
    ensures ProtoCodec(update).Valid()
  {
    hide Marshal, Unmarshal, MarshalEntry, UnmarshalEntry;
    var c := ProtoCodec(update);
    forall l: Log | c.Fits(l) ensures c.unmarshal(c.marshal(l)) == Some(l) {
      MarshalSize(l);
      MarshalInverse(l);
    }
    forall l: Log | c.marshal(l) == [] ensures l == EMPTY_LOG {
      MarshalSize(l);
    }
    forall l: Log, e: Entry | c.Fits(l) && l.data == c.marshalEntry(e) ensures c.unmarshalEntry(l.data) == Some(e) {
      MarshalSize(l);
      MarshalEntryInverse(e);
    }
  }

  // ---------------------------------------------------------------- a torn record

  /**
   What a record decodes to if only the first j bytes of its encoding are there and zeros follow: the last field
   must be reached, and a number must lack its last byte only.
   */
  function Remains(l: Log, j: nat): Option<Log>
    requires j < |Marshal(l)|
  {
    var n := |Marshal(l)|;
    if l.checksum != 0 then
      if j == n - 1 then Some(l.(checksum := l.checksum % Pow128(|Varint(l.checksum)| - 1))) else None
    else if l.data != [] then
      if j >= n - |l.data| then Some(l.(data := Damaged(l.data, j - (n - |l.data|)))) else None
    else if j == n - 1 && n >= 2 then Some(l.(kind := ToKind(FromKind(l.kind) % Pow128(n - 2))))
    else None
  }

  lemma ParseZeros(z: nat, l: Log)
    ensures Parse(Zeros(z), l) == if z == 0 then Some(l) else None
  {
    if z > 0 {
      assert Zeros(z) == [0] + Zeros(z - 1);
      ZeroTagIsRefused(Zeros(z - 1));
    }
  }

  lemma ParseNext(b: bytes, num: nat, v: Value, z: nat, l: Log)
    requires b != [] && NextField(b) == Some((num, v, Zeros(z)))
    ensures Parse(b, l) == if z == 0 then Some(WithField(l, num, v)) else None
  {
    hide NextField, WithField;
    ParseZeros(z, WithField(l, num, v));
  }

  /** The cut is in the field f, after whole fields p. */
  lemma DamagedIs(p: bytes, f: bytes, s: bytes, j: nat)
    requires |p| <= j < |p| + |f|
    ensures Damaged(p + (f + s), j) == p + (f[..j - |p|] + Zeros(|f| + |s| - (j - |p|)))
  {
  }

  lemma CutNumField(num: nat, v: nat, i: nat, more: nat, l: Log)
    requires 0 < num < 16 && 0 < v < TWO_64 && i < |NumField(num, v)|
    ensures v % Pow128(|Varint(v)| - 1) < Limit(ROOM)
    ensures var n := |NumField(num, v)|;
            Parse(NumField(num, v)[..i] + Zeros(n - i + more), l) ==
            if i == n - 1 && more == 0 then Some(WithField(l, num, Num(v % Pow128(|Varint(v)| - 1)))) else None
  {
    hide Parse, NextField, Varint, WithField, Pow128;
    var f := NumField(num, v);
    var z := |f| - i + more;
    LimitOf10();
    LengthShrinks(v, |Varint(v)| - 1);
    if i == 0 {
      assert f[..0] + Zeros(z) == Zeros(z);
      ParseZeros(z, l);
    } else {
      var b := [8 * num + VARINT_TYPE] + (Varint(v)[..i - 1] + Zeros(z));
      assert f[..i] + Zeros(z) == b;
      NumFieldCut(num, v, i - 1, z);
      ParseNext(b, num, Num(v % Pow128(i - 1)), z - 1, l);
    }
  }

  lemma CutBytesField(s: bytes, i: nat, more: nat, l: Log)
    requires 0 < |s| < TWO_64 && i < |BytesField(2, s)|
    ensures |BytesField(2, s)| > |s|
    ensures var n := |BytesField(2, s)|;
            Parse(BytesField(2, s)[..i] + Zeros(n - i + more), l) ==
            if i >= n - |s| && more == 0 then Some(l.(data := Damaged(s, i - (n - |s|)))) else None
  {
    hide Parse, NextField, Varint, Pow128;
    var f, n := BytesField(2, s), |Varint(|s|)|;
    var z := |f| - i + more;
    LimitOf10();
    if i == 0 {
      assert f[..0] + Zeros(z) == Zeros(z);
      ParseZeros(z, l);
    } else if i <= n {
      var b := [8 * 2 + BYTES_TYPE] + (Varint(|s|)[..i - 1] + Zeros(z));
      assert f[..i] + Zeros(z) == b;
      LengthCut(2, |s|, i - 1, z);
      var m := |s| % Pow128(i - 1);
      ParseNext(b, 2, Str(Zeros(m)), z - 1 - m, l);
    } else {
      var k := i - 1 - n;
      var b := [8 * 2 + BYTES_TYPE] + (Varint(|s|) + (s[..k] + Zeros(z)));
      assert f[..i] + Zeros(z) == b;
      BytesFieldCut(2, s, k, z);
      ParseNext(b, 2, Str(s[..k] + Zeros(|s| - k)), z - (|s| - k), l);
    }
  }

  lemma CutInKind(l: Log, j: nat)
    requires j < |NumField(1, FromKind(l.kind))|
    ensures j < |Marshal(l)| && Unmarshal(Damaged(Marshal(l), j)) == Remains(l, j)
  {
    hide Parse, Varint, Pow128, ToKind, Damaged;
    var a, rest := NumField(1, FromKind(l.kind)), BytesField(2, l.data) + NumField(3, l.checksum);
    var none: bytes := [];
    DamagedIs([], a, rest, j);
    assert none + (a + rest) == a + rest;
    assert none + (a[..j] + Zeros(|a| + |rest| - j)) == a[..j] + Zeros(|a| - j + |rest|);
    CutNumField(1, FromKind(l.kind), j, |rest|, EMPTY_LOG);
  }

  lemma CutInData(l: Log, j: nat)
    requires |l.data| < TWO_64
    requires var a, b := NumField(1, FromKind(l.kind)), BytesField(2, l.data); |a| <= j < |a| + |b|
    ensures j < |Marshal(l)| && Unmarshal(Damaged(Marshal(l), j)) == Remains(l, j)
  {
    hide Parse, Varint, Pow128, ToKind, Damaged;
    var a, b, c := NumField(1, FromKind(l.kind)), BytesField(2, l.data), NumField(3, l.checksum);
    DamagedIs(a, b, c, j);
    ParseKind(l.kind, b[..j - |a|] + Zeros(|b| + |c| - (j - |a|)), EMPTY_LOG);
    CutBytesField(l.data, j - |a|, |c|, EMPTY_LOG.(kind := l.kind));
  }

  lemma CutInSum(l: Log, j: nat)
    requires |l.data| < TWO_64
    requires var a, b := NumField(1, FromKind(l.kind)), BytesField(2, l.data); |a| + |b| <= j < |Marshal(l)|
    ensures Unmarshal(Damaged(Marshal(l), j)) == Remains(l, j)
  {
    hide Parse, Varint, Pow128, ToKind, Damaged;
    var a, b, c := NumField(1, FromKind(l.kind)), BytesField(2, l.data), NumField(3, l.checksum);
    var none: bytes := [];
    var i := j - |a| - |b|;
    var x := c[..i] + Zeros(|c| - i);
    DamagedIs(a + b, c, [], j);
    assert a + b + (c + none) == Marshal(l);
    assert a + b + x == a + (b + x);
    ParseKind(l.kind, b + x, EMPTY_LOG);
    ParseData(l.data, x, EMPTY_LOG.(kind := l.kind));
    CutNumField(3, l.checksum, i, 0, l.(checksum := 0));
  }

  /** The only cuts of a record that its decoder does not notice. */
  lemma TornRecordDecodes(l: Log, j: nat)
    requires |l.data| < TWO_64 && j < |Marshal(l)|
    ensures Unmarshal(Damaged(Marshal(l), j)) == Remains(l, j)
  {
    hide Parse, NumField, BytesField, Pow128, Varint, ToKind, Damaged;
    var a, b, c := NumField(1, FromKind(l.kind)), BytesField(2, l.data), NumField(3, l.checksum);
    if j < |a| {
      CutInKind(l, j);
    } else if j < |a| + |b| {
      CutInData(l, j);
    } else {
      CutInSum(l, j);
    }
  }
}
