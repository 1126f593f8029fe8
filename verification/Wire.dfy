/** The wire format of protocol buffers: varints, tags, and the values of fields. */
module Wire {
  import opened Arithmetic
  import opened Bytes
  import opened Options

  // ---------------------------------------------------------------- varints

  const ROOM: nat := 10

  /** AppendVarint: seven bits in a byte, the lowest first; all but the last byte have the top bit set. */
  function Varint(v: nat): (r: bytes)
    ensures r != []
  {
    if v < 0x80 then [v] else [0x80 + v % 0x80] + Varint(v / 0x80)
  }

  /** One more than the largest number that fits into so many bytes; the last of them holds one bit only. */
  function Limit(room: nat): nat {
    if room == 0 then 0 else if room == 1 then 2 else 0x80 * Limit(room - 1)
  }

  function Pow128(i: nat): (r: nat)
    ensures r > 0
  {
    if i == 0 then 1 else 0x80 * Pow128(i - 1)
  }

  /** ConsumeVarint: the number and how many bytes it takes. */
  function ConsumeVarint(b: bytes, room: nat): (r: Option<(nat, nat)>)
    ensures r.Some? ==> 0 < r.value.1 <= |b| && r.value.0 < Limit(room)
  {
    if b == [] || room == 0 then None
    else if room == 1 then (if b[0] < 2 then Some((b[0], 1)) else None)
    else if b[0] < 0x80 then LimitGrows(room); Some((b[0], 1))
    else
      match ConsumeVarint(b[1..], room - 1)
      case None => None
      case Some((v, n)) => Some((b[0] - 0x80 + 0x80 * v, n + 1))
  }

  lemma {:induction false} LimitGrows(room: nat)
    requires room > 1
    ensures Limit(room) >= 0x80
  {
    if room > 2 {
      LimitGrows(room - 1);
    }
  }

  lemma LimitOf10()
    ensures Limit(10) == 0x1_0000_0000_0000_0000
  {
    assert Limit(2) == 0x100 && Limit(3) == 0x8000 && Limit(4) == 0x40_0000;
    assert Limit(5) == 0x2000_0000 && Limit(6) == 0x10_0000_0000 && Limit(7) == 0x800_0000_0000;
    assert Limit(8) == 0x4_0000_0000_0000 && Limit(9) == 0x200_0000_0000_0000;
  }

  lemma {:induction false} VarintInverse(v: nat, rest: bytes, room: nat)
    requires v < Limit(room)
    ensures ConsumeVarint(Varint(v) + rest, room) == Some((v, |Varint(v)|))
    ensures |Varint(v)| <= room
    decreases room
  {
    var b := Varint(v) + rest;
    if v >= 0x80 {
      VarintInverse(v / 0x80, rest, room - 1);
      assert b[1..] == Varint(v / 0x80) + rest;
    }
  }

  /** The last byte of a varint is not zero, so a shorter one stands for a smaller number. */
  lemma {:induction false} VarintSize(v: nat)
    requires v > 0
    ensures Pow128(|Varint(v)| - 1) <= v < Pow128(|Varint(v)|)
  {
    if v >= 0x80 {
      VarintSize(v / 0x80);
    }
  }

  /** A varint of which only the first i bytes are there, followed by a zero. */
  lemma {:induction false} VarintCut(v: nat, i: nat, rest: bytes, room: nat)
    requires v < Limit(room) && i < |Varint(v)|
    ensures ConsumeVarint(Varint(v)[..i] + ([0] + rest), room) == Some((v % Pow128(i), i + 1))
    decreases room
  {
    var b := Varint(v)[..i] + ([0] + rest);
    if i > 0 {
      VarintCut(v / 0x80, i - 1, rest, room - 1);
      assert Varint(v)[..i] == [0x80 + v % 0x80] + Varint(v / 0x80)[..i - 1];
      assert b[1..] == Varint(v / 0x80)[..i - 1] + ([0] + rest);
      ModStep(v, Pow128(i - 1));
    } else {
      assert b[0] == 0;
    }
  }

  lemma ModStep(v: nat, p: nat)
    requires p > 0
    ensures v % (0x80 * p) == v % 0x80 + 0x80 * (v / 0x80 % p)
  {
    var q := v / 0x80 / p;
    var r := v % 0x80 + 0x80 * (v / 0x80 % p);
    assert v / 0x80 == q * p + v / 0x80 % p;
    assert v == 0x80 * (q * p + v / 0x80 % p) + v % 0x80 == q * (0x80 * p) + r;
    assert v / 0x80 % p <= p - 1;
    assert 0 <= r < 0x80 * p;
    ModOfSum(q, r, 0x80 * p);
  }

  // ---------------------------------------------------------------- fields

  const VARINT_TYPE: nat := 0
  const FIXED64_TYPE: nat := 1
  const BYTES_TYPE: nat := 2
  const START_GROUP_TYPE: nat := 3
  const END_GROUP_TYPE: nat := 4
  const FIXED32_TYPE: nat := 5

  const MAX_VALID_NUMBER: nat := 0x1FFF_FFFF
  const MAX_INT32: nat := 0x7FFF_FFFF

  /** What is read of a field. Values that no message here has a field for are skipped. */
  datatype Value = Num(n: nat) | Str(s: bytes) | Skipped

  /** The number and the type of the next field, and what follows. */
  function ConsumeTag(b: bytes, max: nat): (r: Option<(nat, nat, bytes)>)
    ensures r.Some? ==> |r.value.2| < |b|
  {
    match ConsumeVarint(b, ROOM)
    case None => None
    case Some((tag, n)) => if 1 <= tag / 8 <= max then Some((tag / 8, tag % 8, b[n..])) else None
  }

  /** ConsumeFieldValue: the value of a field, and what follows. */
  function ConsumeValue(num: nat, kind: nat, b: bytes): (r: Option<(Value, bytes)>)
    ensures r.Some? ==> |r.value.1| <= |b| && (r.value.0.Num? ==> r.value.0.n < Limit(ROOM))
    decreases |b|, 1
  {
    if kind == VARINT_TYPE then
      match ConsumeVarint(b, ROOM) case None => None case Some((v, n)) => Some((Num(v), b[n..]))
    else if kind == FIXED32_TYPE then (if |b| < 4 then None else Some((Skipped, b[4..])))
    else if kind == FIXED64_TYPE then (if |b| < 8 then None else Some((Skipped, b[8..])))
    else if kind == BYTES_TYPE then
      match ConsumeVarint(b, ROOM)
      case None => None
      case Some((m, n)) => if m > |b| - n then None else Some((Str(b[n..n + m]), b[n + m..]))
    else if kind == START_GROUP_TYPE then
      match ConsumeGroup(num, b) case None => None case Some(rest) => Some((Skipped, rest))
    else None
  }

  /** The fields of a group, up to its end marker. */
  function ConsumeGroup(num: nat, b: bytes): (r: Option<bytes>)
    ensures r.Some? ==> |r.value| <= |b|
    decreases |b|, 0
  {
    match ConsumeTag(b, MAX_INT32)
    case None => None
    case Some((num2, kind2, rest)) =>
      if kind2 == END_GROUP_TYPE then (if num2 == num then Some(rest) else None)
      else
        match ConsumeValue(num2, kind2, rest)
        case None => None
        case Some((_, more)) => ConsumeGroup(num, more)
  }

  /** The next field of a message. */
  function NextField(b: bytes): (r: Option<(nat, Value, bytes)>)
    ensures r.Some? ==> |r.value.2| < |b| && (r.value.1.Num? ==> r.value.1.n < Limit(ROOM))
  {
    match ConsumeTag(b, MAX_VALID_NUMBER)
    case None => None
    case Some((num, kind, rest)) =>
      match ConsumeValue(num, kind, rest)
      case None => None
      case Some((v, more)) => Some((num, v, more))
  }

  /** A field with a number below 16 as it is written; a default value is not. */
  function NumField(num: nat, v: nat): bytes
    requires 0 < num < 16
  {
    if v == 0 then [] else [8 * num + VARINT_TYPE] + Varint(v)
  }

  function BytesField(num: nat, s: bytes): bytes
    requires 0 < num < 16
  {
    if s == [] then [] else [8 * num + BYTES_TYPE] + (Varint(|s|) + s)
  }

  lemma TagIs(num: nat, kind: nat, rest: bytes)
    requires 0 < num < 16 && kind < 8
    ensures ConsumeTag([8 * num + kind] + rest, MAX_VALID_NUMBER) == Some((num, kind, rest))
  {
    var b := [8 * num + kind] + rest;
    assert b[1..] == rest;
    assert ConsumeVarint(b, ROOM) == Some((8 * num + kind, 1));
  }

  lemma NextIs(num: nat, kind: nat, b: bytes, v: Value, rest: bytes)
    requires 0 < num < 16 && kind < 8 && ConsumeValue(num, kind, b) == Some((v, rest))
    ensures NextField([8 * num + kind] + b) == Some((num, v, rest))
  {
    hide ConsumeTag, ConsumeValue;
    TagIs(num, kind, b);
  }

  /** Field number 0 is refused. */
  lemma ZeroTagIsRefused(rest: bytes)
    ensures NextField([0] + rest) == None
  {
    assert ConsumeVarint([0] + rest, ROOM) == Some((0, 1));
  }

  lemma NumFieldReads(num: nat, v: nat, rest: bytes)
    requires 0 < num < 16 && 0 < v < Limit(ROOM)
    ensures NextField(NumField(num, v) + rest) == Some((num, Num(v), rest))
  {
    hide ConsumeVarint, Varint, NextField;
    assert NumField(num, v) + rest == [8 * num + VARINT_TYPE] + (Varint(v) + rest);
    VarintInverse(v, rest, ROOM);
    assert (Varint(v) + rest)[|Varint(v)|..] == rest;
    NextIs(num, VARINT_TYPE, Varint(v) + rest, Num(v), rest);
  }

  /** A length and at least so many bytes. */
  lemma BytesRead(num: nat, m: nat, s: bytes, rest: bytes)
    requires |s| == m < Limit(ROOM)
    ensures ConsumeValue(num, BYTES_TYPE, Varint(m) + (s + rest)) == Some((Str(s), rest))
  {
    hide Varint, ConsumeVarint;
    VarintInverse(m, s + rest, ROOM);
    var p, n := Varint(m) + (s + rest), |Varint(m)|;
    assert p[n..n + m] == s && p[n + m..] == rest;
  }

  lemma BytesFieldReads(num: nat, s: bytes, rest: bytes)
    requires 0 < num < 16 && 0 < |s| < Limit(ROOM)
    ensures NextField(BytesField(num, s) + rest) == Some((num, Str(s), rest))
  {
    hide ConsumeVarint, Varint, ConsumeValue, NextField;
    var p := Varint(|s|) + (s + rest);
    assert BytesField(num, s) + rest == [8 * num + BYTES_TYPE] + p;
    BytesRead(num, |s|, s, rest);
    NextIs(num, BYTES_TYPE, p, Str(s), rest);
  }

  // ---------------------------------------------------------------- fields that end in zeros

  /** A number of which only the first i bytes are there, followed by zeros. */
  lemma NumFieldCut(num: nat, v: nat, i: nat, z: nat)
    requires 0 < num < 16 && v < Limit(ROOM) && i < |Varint(v)| && z > 0
    ensures NextField([8 * num + VARINT_TYPE] + (Varint(v)[..i] + Zeros(z))) ==
            Some((num, Num(v % Pow128(i)), Zeros(z - 1)))
  {
    hide ConsumeVarint, Varint, NextField;
    var p := Varint(v)[..i] + Zeros(z);
    assert Zeros(z) == [0] + Zeros(z - 1);
    VarintCut(v, i, Zeros(z - 1), ROOM);
    assert p[i + 1..] == Zeros(z - 1);
    NextIs(num, VARINT_TYPE, p, Num(v % Pow128(i)), Zeros(z - 1));
  }

  /** A length of which only the first i bytes are there, followed by zeros for the bytes and more. */
  lemma LengthCut(num: nat, m: nat, i: nat, z: nat)
    requires 0 < num < 16 && 0 < m < Limit(ROOM) && i < |Varint(m)| && z > m
    ensures m % Pow128(i) < m
    ensures NextField([8 * num + BYTES_TYPE] + (Varint(m)[..i] + Zeros(z))) ==
            Some((num, Str(Zeros(m % Pow128(i))), Zeros(z - 1 - m % Pow128(i))))
  {
    hide ConsumeVarint, Varint, Pow128, NextField;
    var p, n := Varint(m)[..i] + Zeros(z), m % Pow128(i);
    LengthShrinks(m, i);
    assert Zeros(z) == [0] + Zeros(z - 1);
    VarintCut(m, i, Zeros(z - 1), ROOM);
    assert p[i + 1..i + 1 + n] == Zeros(n) && p[i + 1 + n..] == Zeros(z - 1 - n);
    NextIs(num, BYTES_TYPE, p, Str(Zeros(n)), Zeros(z - 1 - n));
  }

  lemma LengthShrinks(m: nat, i: nat)
    requires m > 0 && i < |Varint(m)|
    ensures m % Pow128(i) < m
  {
    VarintSize(m);
    Pow128Grows(i, |Varint(m)| - 1);
  }

  lemma {:induction false} Pow128Grows(i: nat, j: nat)
    requires i <= j
    ensures Pow128(i) <= Pow128(j)
    decreases j
  {
    if i < j {
      Pow128Grows(i, j - 1);
    }
  }

  /** Bytes of which only the first i are there, followed by zeros. */
  lemma BytesFieldCut(num: nat, s: bytes, i: nat, z: nat)
    requires 0 < num < 16 && i <= |s| < Limit(ROOM) && z >= |s| - i
    ensures NextField([8 * num + BYTES_TYPE] + (Varint(|s|) + (s[..i] + Zeros(z)))) ==
            Some((num, Str(s[..i] + Zeros(|s| - i)), Zeros(z - (|s| - i))))
  {
    hide ConsumeVarint, Varint, ConsumeValue, NextField;
    var t, rest := s[..i] + Zeros(|s| - i), Zeros(z - (|s| - i));
    assert s[..i] + Zeros(z) == t + rest;
    BytesRead(num, |s|, t, rest);
    NextIs(num, BYTES_TYPE, Varint(|s|) + (t + rest), Str(t), rest);
  }
}
