/** An entry that is torn so that what is saved after the crash cannot be read back. */
module WalTornEntry {
  import opened Bytes
  import opened Wire
  import opened WalFormat
  import opened WalRead
  import opened WalCrash
  import opened WalProto
  import opened WalLoss
  import opened Crc64

  /** The messages and the checksum of the log. */
  function LogCodec(): Codec {
    ProtoCodec(Update)
  }

  lemma UpdateIsInjective()
    ensures Injective(Update)
  {
    hide Update;
    forall x: uint64, y: uint64, data: bytes | Update(x, data) == Update(y, data) ensures x == y {
      UpdateInjective(x, y, data);
    }
  }

  // ---------------------------------------------------------------- the records before the entry

  ghost function Start(): seq<Record> {
    Header(0, [])
  }

  ghost function StartSize(): nat {
    |Frames(LogCodec(), 0, Start())|
  }

  ghost function StartSum(): uint64 {
    CrcAfter(LogCodec(), 0, Start())
  }

  lemma {:induction false} ZeroBytes(k: nat)
    ensures BigEndian(0, k) == Zeros(k)
    decreases k
  {
    if k > 0 {
      ZeroBytes(k - 1);
      assert Zeros(k - 1) + [0] == Zeros(k);
    }
  }

  lemma StartSumIs()
    ensures StartSum() == Update(0, Zeros(8)) != MAX_UINT64
  {
    hide Update;
    ZeroBytes(8);
    SumOfZeros(8);
    var crc := Update(0, Zeros(8));
    UpdateByNothing(crc);
    var c, recs := LogCodec(), Start();
    assert recs[1..] == [recs[1]] && recs[1..][1..] == [];
    assert CrcAfter(c, crc, recs[1..]) == CrcAfter(c, Update(crc, []), []);
  }

  lemma SecondFrame(sum: uint64)
    ensures |Frame(LogCodec(), Log(META_DATA_TYPE, [], sum))| <= 24
  {
    hide Marshal, Varint;
    FieldSizes(Log(META_DATA_TYPE, [], sum));
    VarintLength(FromKind(META_DATA_TYPE));
    VarintLength(sum);
  }

  /** The two records take a multiple of eight bytes, and far less than a sector. */
  lemma StartIs()
    ensures StartSize() <= 56 && StartSize() % 8 == 0 && Fit(LogCodec(), 0, Start())
  {
    hide Frame, Frames, Update, Marshal, Fit, Codec.Fits, LogCodec, BigEndian, CrcAfter, Start, StartSize,
        Header, LogOf;
    var c := LogCodec();
    CodecIs();
    HeaderFrames(c, 0, []);
    var crc := Update(0, BigEndian(0, 8));
    var a, b := Log(CRC_TYPE, BigEndian(0, 8), crc), Log(META_DATA_TYPE, [], Update(crc, []));
    FirstFrame(Update, 0, crc);
    SecondFrame(b.checksum);
    FrameAligned(c, a);
    FrameAligned(c, b);
    TwoAligned(|Frame(c, a)|, |Frame(c, b)|);
    SmallFits(a);
    SmallFits(b);
    LogsAre(c, 0, []);
    StartParts();
  }

  lemma TwoAligned(x: nat, y: nat)
    requires x % 8 == 0 && y % 8 == 0
    ensures (x + y) % 8 == 0
  {
  }

  lemma LogsAre(c: Codec, prev: uint64, data: bytes)
    ensures var crc := c.update(prev, BigEndian(prev, 8));
            && LogOf(c, prev, Record(CRC_TYPE, BigEndian(prev, 8))) == Log(CRC_TYPE, BigEndian(prev, 8), crc)
            && LogOf(c, crc, Record(META_DATA_TYPE, data)) == Log(META_DATA_TYPE, data, c.update(crc, data))
  {
  }

  lemma StartParts()
    ensures StartSize() == |Frames(LogCodec(), 0, Start())| && Start() == Header(0, [])
    ensures StartSum() == CrcAfter(LogCodec(), 0, Start())
  {
  }

  lemma CodecIs()
    ensures LogCodec() == ProtoCodec(Update) && LogCodec().update == Update
  {
  }

  lemma SmallFits(l: Log)
    requires |Frame(LogCodec(), l)| < 1000
    ensures LogCodec().Fits(l)
  {
  }

  // ---------------------------------------------------------------- the entry

  /** What precedes the last eight bytes in the encoding of the entry. */
  function Front(body: bytes): bytes {
    [8 * 1 + BYTES_TYPE] + (Varint(|body| + 8) + body)
  }

  /** Its last bytes make its checksum the largest number, which is written in ten bytes. */
  ghost function Sealed(body: bytes): Entry {
    Entry(body + Seal(StartSum(), Front(body)), [], 0)
  }

  ghost function SealedLog(body: bytes): Log {
    Log(ENTRY_TYPE, MarshalEntry(Sealed(body)), MAX_UINT64)
  }

  /** The length of the body for which the last byte of the record is the first byte of the second sector. */
  ghost predicate Reaches(body: bytes) {
    |body| == 478 - StartSize()
  }

  lemma MaxIsLong()
    ensures |Varint(MAX_UINT64)| == 10
  {
    VarintLength(MAX_UINT64);
    if |Varint(MAX_UINT64)| < 10 {
      VarintSize(MAX_UINT64);
      Pow128Grows(|Varint(MAX_UINT64)|, 9);
      Pow128Of9();
    }
  }

  lemma Pow128Of9()
    ensures Pow128(9) == 0x8000_0000_0000_0000
  {
    assert Pow128(3) == 0x20_0000 && Pow128(6) == 0x400_0000_0000;
  }

  lemma SealedEntryIs(body: bytes)
    requires 200 <= |body| < 1000
    ensures var s := MarshalEntry(Sealed(body));
            && s == Front(body) + Seal(StartSum(), Front(body)) && |s| == |body| + 11
            && Update(StartSum(), s) == MAX_UINT64
  {
    hide Update, Seal, Varint, StartSum;
    var f := Front(body);
    SealedSum(StartSum(), f);
    VarintLength(|body| + 8);
    assert MarshalEntry(Sealed(body)) == f + Seal(StartSum(), f);
  }

  lemma SealedSize(body: bytes)
    requires 200 <= |body| < 1000
    ensures |Marshal(SealedLog(body))| == |body| + 27
  {
    hide Varint, MarshalEntry, Sealed, Marshal;
    SealedEntryIs(body);
    FieldSizes(SealedLog(body));
    VarintLength(FromKind(ENTRY_TYPE));
    VarintLength(|body| + 11);
    MaxIsLong();
  }

  // ---------------------------------------------------------------- the torn log

  ghost function Records(body: bytes): seq<Record> {
    SegmentRecords(LogCodec(), 0, [], [Sealed(body)])
  }

  /** The header is followed by the record of the entry. */
  lemma RecordsShape(body: bytes)
    requires 200 <= |body| < 1000
    ensures var recs, r := Records(body), Record(ENTRY_TYPE, SealedLog(body).data);
            recs == Start() + [r] && |recs| == 3 && LogOf(LogCodec(), StartSum(), r) == SealedLog(body)
  {
    hide Update, MarshalEntry, Sealed, StartSum, BigEndian;
    SealedEntryIs(body);
  }

  lemma BodySize(body: bytes)
    requires Reaches(body)
    ensures 422 <= |body| <= 478 && (|body| + 27) % 8 == 1
  {
    hide StartSize, Start, Fit, LogCodec;
    StartIs();
    LastByte(StartSize());
  }

  lemma LastByte(o: nat)
    requires o <= 56 && o % 8 == 0
    ensures (478 - o + 27) % 8 == 1
  {
    var q := o / 8;
    assert 478 - o + 27 == 8 * (63 - q) + 1;
  }

  lemma RecordsAre(body: bytes)
    requires Reaches(body)
    ensures var c, recs, l := LogCodec(), Records(body), SealedLog(body);
            && |recs| == 3 && recs[..2] == Start() && LogOf(c, StartSum(), recs[2]) == l
            && |Frame(c, l)| == 520 - StartSize() && Fit(c, 0, recs) && |Frames(c, 0, recs)| == 520
  {
    hide Frame, Frames, Update, Marshal, Fit, Codec.Fits, CrcAfter, StartSum, StartSize, Start, SealedLog,
        Records, LogCodec;
    var c, l := LogCodec(), SealedLog(body);
    var r := Record(ENTRY_TYPE, l.data);
    StartIs();
    StartParts();
    BodySize(body);
    RecordsShape(body);
    FramesAppend(c, 0, Start(), [r]);
    OneRecord(c, StartSum(), r);
    SealedSize(body);
    FrameSizeIs(l, |body| + 27);
    SmallFits(l);
  }

  lemma FrameSizeIs(l: Log, n: nat)
    requires |Marshal(l)| == n && n % 8 == 1
    ensures |Frame(LogCodec(), l)| == n + 15
  {
  }

  /** The first sector ends one byte before the end of the record. */
  lemma CutIsLast(body: bytes, z: nat)
    requires Reaches(body) && z >= 8
    ensures var c, recs := LogCodec(), Records(body);
            && Whole(c, 0, recs, 512) == 2 && IsCut(c, 0, [], [Sealed(body)], 512, z)
            && TornRecord(c, 0, recs, 512) == Torn(SealedLog(body), |Marshal(SealedLog(body))| - 1, StartSum())
            && IsTorn(c, 0, recs, 512, z)
  {
    hide Frame, Frames, Update, Marshal, MarshalEntry, Fit, CrcAfter, Sealed, StartSum, StartSize, Header, Whole;
    var c, recs := LogCodec(), Records(body);
    StartIs();
    StartParts();
    RecordsAre(body);
    SealedSize(body);
    WholeFrames(c, 0, recs, 512);
    FramesNext(c, 0, recs, 0);
    FramesNext(c, 0, recs, 1);
    assert recs[..0] == [] && recs[..3] == recs;
  }

  /** It is read with its data and part of its checksum, so it enters the running checksum. */
  lemma TornEndIs(body: bytes, z: nat)
    requires Reaches(body) && z >= 8
    ensures var c, recs := LogCodec(), Records(body);
            && Whole(c, 0, recs, 512) < |recs|
            && !Mistaken(c, TornRecord(c, 0, recs, 512)) && Spoils(c, TornRecord(c, 0, recs, 512))
            && TornEnd(c, 0, recs, 512, z) == (2, MAX_UINT64)
  {
    hide Frame, Frames, Marshal, Unmarshal, MarshalEntry, Fit, CrcAfter, Whole, Written, Damaged, Update,
        StartSum, Sealed, Records, Pow128, Varint;
    var c, recs := LogCodec(), Records(body);
    var l := SealedLog(body);
    CutIsLast(body, z);
    StartSumIs();
    BodySize(body);
    SealedEntryIs(body);
    TornRecordDecodes(l, |Marshal(l)| - 1);
    SumShrinks(MAX_UINT64);
  }

  /**
   The entry was cut before the last byte of its checksum. It is not read back, which is right, but it has entered
   the running checksum, so an entry saved after recovery is not read back either.
   */
  lemma NextEntryIsLost(body: bytes, next: Entry, z: nat, z1: nat)
    requires Reaches(body) && z >= 8 && Fit(LogCodec(), MAX_UINT64, EntryRecords(LogCodec(), [next]))
    ensures LastCrc(LogCodec(), 0, [], []) == 0 && |Frames(LogCodec(), 0, Records(body))| == 520
    ensures var c := LogCodec();
            EndsWith(ReadLogs(c, Decoding(TornLog(c, [], [], [Sealed(body)], 512, z), 0, 0), [], []),
                     [], MAX_UINT64, StartSize())
    ensures var c := LogCodec();
            var files := ResumedLog(c, [], [], [Sealed(body)], 2, MAX_UINT64, [next], z1);
            var s := ReadLogs(c, Decoding(files, 0, 0), [], []);
            !(s.Done? && s.entries == [next])
  {
    hide *;
    var c, recs, e := LogCodec(), Records(body), Sealed(body);
    CodecIs();
    NothingBefore(c);
    RecordsAre(body);
    StartParts();
    TornEndIs(body, z);
    CutIsLast(body, z);
    UpdateIsInjective();
    OneFile(c, 0, [], [e]);
    var none: seq<seq<Entry>> := [];
    assert none + [[e]] == [[e]];
    AtSector(z);
    RecordsIs(body);
    ReadBackExact(Update, [], [], [e], 512, z, [next], z1);
    NoEntries([e], [next]);
    EndParts(ReadLogs(c, Decoding(TornLog(c, [], [], [e], 512, z), 0, 0), [], []), [], MAX_UINT64, StartSize());
  }

  lemma RecordsIs(body: bytes)
    ensures Records(body) == SegmentRecords(LogCodec(), 0, [], [Sealed(body)])
  {
  }

  lemma EndParts(r: Result, entries: seq<Entry>, crc: uint64, off: int)
    requires EndsWith(r, entries, crc, off)
    ensures r.Done? && r.entries == entries
  {
  }

  lemma AtSector(z: nat)
    ensures CrashPoint(512, z)
  {
  }

  lemma NothingBefore(c: Codec)
    ensures LastCrc(c, 0, [], []) == 0
  {
  }

  lemma NoEntries(ents: seq<Entry>, more: seq<Entry>)
    ensures var none: seq<Entry> := []; Concat([]) + EntriesOf(ents, 2) == none && none + more == more
  {
  }
}
