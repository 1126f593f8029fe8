/** The format of the write-ahead log: checksummed, padded frames in a chain of segments. */
module WalFormat {
  import opened GoInt
  import opened Bytes
  import opened Options

  const TWO_56: int := 0x100_0000_0000_0000
  const FRAME_SIZE_LENGTH: int := 8
  const MIN_SECTOR_SIZE: int := 512

  const CRC_TYPE: int := 0
  const META_DATA_TYPE: int := 2
  const ENTRY_TYPE: int := 3

  type uint64 = x: int | 0 <= x < 0x1_0000_0000_0000_0000

  /** The type of a record; the encoding of an enumeration is a 32-bit integer. */
  type LogType = x: int | -0x8000_0000 <= x < 0x8000_0000

  datatype Log = Log(kind: LogType, data: bytes, checksum: uint64)

  datatype Entry = Entry(data: bytes, extraMeta: bytes, index: uint64)

  /** Protocol-buffer encoding of the two messages, and one step of the running checksum. */
  datatype Codec = Codec(marshal: Log -> bytes,
                         unmarshal: bytes -> Option<Log>,
                         marshalEntry: Entry -> bytes,
                         unmarshalEntry: bytes -> Option<Entry>,
                         update: (uint64, bytes) -> uint64)
  {
    /** The record fits into the 56 bits of a length field. */
    predicate Fits(l: Log) {
      |marshal(l)| < TWO_56
    }

    /**
     Decoding inverts encoding of records that fit and of their entries, and only a message of default values has
     an empty encoding.
     */
    ghost predicate Valid() {
      && (forall l :: Fits(l) ==> unmarshal(marshal(l)) == Some(l))
      && (forall l :: marshal(l) == [] ==> l.kind == 0 && l.data == [] && l.checksum == 0)
      && (forall l, e :: Fits(l) && l.data == marshalEntry(e) ==> unmarshalEntry(l.data) == Some(e))
    }
  }

  // ---------------------------------------------------------------- frame sizes

  function PadBytes(dataBytes: nat): nat {
    (8 - dataBytes % 8) % 8
  }

  /** Bitwise or of two bytes. */
  function OrByte(a: byte, b: byte): byte {
    ((a as bv8) | (b as bv8)) as int
  }

  /** The length field: the size in the low 56 bits; if there is padding, the top byte says how much. */
  function EncodeFrameSize(dataBytes: nat): (lenField: uint64) {
    var low, top := dataBytes % TWO_56, dataBytes / TWO_56 % 256;
    low + (if PadBytes(dataBytes) == 0 then top else OrByte(top, 0x80 + PadBytes(dataBytes))) * TWO_56
  }

  /** The size and the padding, read from the 64-bit length field. */
  function DecodeFrameSize(lenField: uint64): (nat, nat) {
    (lenField % TWO_56, if lenField >= TWO_63 then lenField / TWO_56 % 8 else 0)
  }

  /** The top byte of the length field is 0x80 plus the padding, or zero if there is none. */
  lemma FrameSizeLayout(dataBytes: nat)
    requires dataBytes < 0x100_0000_0000_0000
    ensures EncodeFrameSize(dataBytes) ==
            dataBytes + (if dataBytes % 8 == 0 then 0 else (0x88 - dataBytes % 8) * 0x100_0000_0000_0000)
  {
    OrNothing(0x80 + PadBytes(dataBytes));
  }

  lemma FrameSizeInverse(dataBytes: nat)
    requires dataBytes < TWO_56
    ensures DecodeFrameSize(EncodeFrameSize(dataBytes)) == (dataBytes, PadBytes(dataBytes))
    ensures (dataBytes + PadBytes(dataBytes)) % 8 == 0
    ensures EncodeFrameSize(dataBytes) == 0 <==> dataBytes == 0
  {
    OrNothing(0x80 + PadBytes(dataBytes));
  }

  lemma OrNothing(b: byte)
    ensures OrByte(0, b) == b
  {
    assert (0 as bv8) | (b as bv8) == b as bv8;
  }

  // ---------------------------------------------------------------- writing

  datatype Record = Record(kind: LogType, data: bytes)

  function Frame(c: Codec, l: Log): (r: bytes)
    ensures |r| == FRAME_SIZE_LENGTH + |c.marshal(l)| + PadBytes(|c.marshal(l)|)
  {
    var data := c.marshal(l);
    LittleEndian(EncodeFrameSize(|data|), FRAME_SIZE_LENGTH) + data + Zeros(PadBytes(|data|))
  }

  /** Where everything is in a frame: the length field from its low byte on, the record, and zeros. */
  lemma FrameLayout(c: Codec, l: Log)
    ensures var f, data := Frame(c, l), c.marshal(l);
            && (forall i :: 0 <= i < 8 ==> f[i] == EncodeFrameSize(|data|) / Pow256(i) % 256)
            && (forall i :: 8 <= i < 8 + |data| ==> f[i] == data[i - 8])
            && (forall i :: 8 + |data| <= i < |f| ==> f[i] == 0)
  {
    hide EncodeFrameSize, PadBytes;
    var n := EncodeFrameSize(|c.marshal(l)|);
    forall i | 0 <= i < 8 ensures LittleEndian(n, 8)[i] == n / Pow256(i) % 256 {
      LittleEndianAt(n, 8, i);
    }
  }

  /** A file starts with the checksum of the files before it, from its high byte on. */
  lemma HeaderLayout(prev: uint64, metadata: bytes, i: nat)
    requires i < 8
    ensures var h := Header(prev, metadata);
            && |h| == 2 && h[0].kind == 0 && |h[0].data| == 8 && h[1] == Record(2, metadata)
            && h[0].data[7 - i] == prev / Pow256(i) % 256
  {
    BigEndianAt(prev, 8, i);
  }

  /** The records of a file as bytes, from a running checksum. */
  ghost function Frames(c: Codec, crc: uint64, recs: seq<Record>): bytes
    decreases |recs|
  {
    if recs == [] then []
    else
      Frame(c, LogOf(c, crc, recs[0])) + Frames(c, c.update(crc, recs[0].data), recs[1..])
  }

  /** The record as it is written from a running checksum. */
  function LogOf(c: Codec, crc: uint64, r: Record): Log {
    Log(r.kind, r.data, c.update(crc, r.data))
  }

  /** All records fit. */
  ghost predicate Fit(c: Codec, crc: uint64, recs: seq<Record>)
    decreases |recs|
  {
    recs != [] ==> c.Fits(LogOf(c, crc, recs[0])) && Fit(c, c.update(crc, recs[0].data), recs[1..])
  }

  /** The running checksum after some records. */
  ghost function CrcAfter(c: Codec, crc: uint64, recs: seq<Record>): uint64
    decreases |recs|
  {
    if recs == [] then crc else CrcAfter(c, c.update(crc, recs[0].data), recs[1..])
  }

  lemma {:induction false} FramesAppend(c: Codec, crc: uint64, a: seq<Record>, b: seq<Record>)
    ensures Frames(c, crc, a + b) == Frames(c, crc, a) + Frames(c, CrcAfter(c, crc, a), b)
    ensures CrcAfter(c, crc, a + b) == CrcAfter(c, CrcAfter(c, crc, a), b)
    ensures Fit(c, crc, a + b) <==> Fit(c, crc, a) && Fit(c, CrcAfter(c, crc, a), b)
    decreases |a|
  {
    if a == [] {
      assert a + b == b;
    } else {
      assert (a + b)[1..] == a[1..] + b;
      FramesAppend(c, c.update(crc, a[0].data), a[1..], b);
    }
  }

  function EntryRecord(c: Codec, e: Entry): Record {
    Record(ENTRY_TYPE, c.marshalEntry(e))
  }

  function EntryRecords(c: Codec, ents: seq<Entry>): (r: seq<Record>)
    ensures |r| == |ents| && forall i :: 0 <= i < |ents| ==> r[i] == EntryRecord(c, ents[i])
  {
    seq(|ents|, i requires 0 <= i < |ents| => EntryRecord(c, ents[i]))
  }

  /** The two records at the head of a segment: the checksum so far, and the metadata. */
  function Header(prev: uint64, metadata: bytes): seq<Record> {
    [Record(CRC_TYPE, BigEndian(prev, 8)), Record(META_DATA_TYPE, metadata)]
  }

  function SegmentRecords(c: Codec, prev: uint64, metadata: bytes, ents: seq<Entry>): seq<Record> {
    Header(prev, metadata) + EntryRecords(c, ents)
  }

  /** The files written for groups of entries, with a cut between any two groups. */
  ghost function Files(c: Codec, prev: uint64, metadata: bytes, groups: seq<seq<Entry>>): (r: seq<bytes>)
    ensures |r| == |groups|
    decreases |groups|
  {
    if groups == [] then []
    else
      var recs := SegmentRecords(c, prev, metadata, groups[0]);
      [Frames(c, prev, recs)] + Files(c, CrcAfter(c, prev, recs), metadata, groups[1..])
  }

  function Concat<T>(groups: seq<seq<T>>): seq<T> {
    if groups == [] then [] else groups[0] + Concat(groups[1..])
  }
}
