/**
 What a torn record does to a log of protocol-buffer messages: when it is misread, when it spoils the running
 checksum, and a record after which what is saved next cannot be read back.
 */
module WalLoss {
  import opened Bytes
  import opened GoInt
  import opened Options
  import opened Wire
  import opened WalFormat
  import opened WalRead
  import opened WalCrash
  import opened WalProto

  // ---------------------------------------------------------------- the torn record

  /** The record that the cut goes through, how many bytes of its encoding are left, and the checksum before it. */
  datatype Torn = Torn(log: Log, kept: int, before: uint64)

  ghost function TornRecord(c: Codec, crc: uint64, recs: seq<Record>, k: nat): Torn
    requires Whole(c, crc, recs, k) < |recs|
  {
    var i := Whole(c, crc, recs, k);
    Torn(Written(c, crc, recs, i), k - |Frames(c, crc, recs[..i])| - FRAME_SIZE_LENGTH, CrcAfter(c, crc, recs[..i]))
  }

  /** The encoding of the torn record lacks bytes, and zeros take their place. */
  ghost predicate IsTorn(c: Codec, crc: uint64, recs: seq<Record>, k: nat, z: nat) {
    && Whole(c, crc, recs, k) < |recs|
    && var t := TornRecord(c, crc, recs, k);
    0 <= t.kept < |c.marshal(t.log)| && |Frame(c, t.log)| <= FRAME_SIZE_LENGTH + t.kept + z
  }

  /** The data, if it is in the last field, with zeros for what is lost of it. */
  function DataLeft(c: Codec, t: Torn): bytes {
    var start := |c.marshal(t.log)| - |t.log.data|;
    if t.kept < start then [] else Damaged(t.log.data, t.kept - start)
  }

  ghost predicate DataIsCut(c: Codec, t: Torn) {
    t.kept >= |c.marshal(t.log)| - |t.log.data| && DataLeft(c, t) != t.log.data
  }

  /**
   The zeros make another record of the torn one. Only the checksum 0 allows that, because it is not written:
   either the data has another ending and still the checksum 0, or a type is all that was written.
   */
  ghost predicate Mistaken(c: Codec, t: Torn) {
    && t.log.checksum == 0
    && if t.log.data == [] then t.kept == |c.marshal(t.log)| - 1
       else DataIsCut(c, t) && c.update(t.before, DataLeft(c, t)) == 0
  }

  /**
   The torn record has changed the running checksum. It lacks the last byte of its checksum and nothing else; or
   the checksum is 0, so that the data is what was written last, and has lost its end.
   */
  ghost predicate Spoils(c: Codec, t: Torn) {
    if t.log.checksum != 0 then t.kept == |c.marshal(t.log)| - 1 && t.log.checksum != t.before
    else t.log.data != [] && DataIsCut(c, t) && c.update(t.before, DataLeft(c, t)) != t.before
  }

  /** What the decoder makes of the torn record. */
  lemma TornRecordExact(update: (uint64, bytes) -> uint64, t: Torn)
    requires 0 <= t.kept < |Marshal(t.log)| && |t.log.data| < TWO_64
    requires t.log.kind in {META_DATA_TYPE, ENTRY_TYPE} && t.log.checksum == update(t.before, t.log.data)
    ensures var c := ProtoCodec(update);
            var p := Damaged(Marshal(t.log), t.kept);
            && (Passes(c, t.before, p) && Unmarshal(p) != Some(t.log) <==> Mistaken(c, t))
            && (!Mistaken(c, t) && Unmarshal(p) != Some(t.log) ==>
                  (CrcSeen(c, t.before, p) != t.before <==> Spoils(c, t)))
            && (Unmarshal(p) == Some(t.log) ==> !Spoils(c, t))
  {
    hide Marshal, Unmarshal, Damaged, Pow128, Varint;
    TornRecordDecodes(t.log, t.kept);
    SumShrinks(t.log.checksum);
    if t.log.data == [] && t.log.checksum == 0 {
      KindIsShort(t.log);
    }
  }

  lemma SumShrinks(v: uint64)
    ensures v != 0 ==> v % Pow128(|Varint(v)| - 1) < v
  {
    if v != 0 {
      LengthShrinks(v, |Varint(v)| - 1);
    }
  }

  /** The types of the records that hold data are written in one byte. */
  lemma KindIsShort(l: Log)
    requires l.kind in {META_DATA_TYPE, ENTRY_TYPE} && l.data == [] && l.checksum == 0
    ensures |Marshal(l)| == 2 && ToKind(FromKind(l.kind) % Pow128(0)) == CRC_TYPE
  {
  }

  // ---------------------------------------------------------------- the torn segment

  /** A segment of entries, cut at k. */
  ghost predicate IsCut(c: Codec, prev: uint64, data: bytes, ents: seq<Entry>, k: nat, z: nat) {
    var recs := SegmentRecords(c, prev, data, ents);
    Fit(c, prev, recs) && k <= |Frames(c, prev, recs)| && CrashPoint(k, z)
  }

  lemma FirstFrame(update: (uint64, bytes) -> uint64, prev: uint64, sum: uint64)
    ensures |Frame(ProtoCodec(update), Log(CRC_TYPE, BigEndian(prev, 8), sum))| <= 32
  {
    hide Marshal, Varint;
    FieldSizes(Log(CRC_TYPE, BigEndian(prev, 8), sum));
    VarintLength(8);
    VarintLength(sum);
  }

  /** The record at the beginning of a segment lies within its first sector. */
  lemma HeadIsWhole(update: (uint64, bytes) -> uint64, prev: uint64, data: bytes, ents: seq<Entry>, k: nat, z: nat)
    requires var c := ProtoCodec(update);
             IsCut(c, prev, data, ents, k, z) && IsTorn(c, prev, SegmentRecords(c, prev, data, ents), k, z)
    ensures var c := ProtoCodec(update); Whole(c, prev, SegmentRecords(c, prev, data, ents), k) >= 1
  {
    hide Frame, Whole, Marshal, Fit;
    var c := ProtoCodec(update);
    var recs := SegmentRecords(c, prev, data, ents);
    if Whole(c, prev, recs, k) == 0 {
      assert recs[..0] == [] && recs[0] == Record(CRC_TYPE, BigEndian(prev, 8));
      FirstFrame(update, prev, Written(c, prev, recs, 0).checksum);
    }
  }

  /** What is known about the torn record of a segment. */
  lemma TornFacts(update: (uint64, bytes) -> uint64, prev: uint64, data: bytes, ents: seq<Entry>, k: nat, z: nat)
    requires var c := ProtoCodec(update);
             IsCut(c, prev, data, ents, k, z) && IsTorn(c, prev, SegmentRecords(c, prev, data, ents), k, z)
    ensures var c := ProtoCodec(update);
            var t := TornRecord(c, prev, SegmentRecords(c, prev, data, ents), k);
            && 0 <= t.kept < |Marshal(t.log)| && |t.log.data| < TWO_64
            && t.log.kind in {META_DATA_TYPE, ENTRY_TYPE} && t.log.checksum == update(t.before, t.log.data)
  {
    hide Frame, Frames, Whole, Marshal, Fit, CrcAfter;
    var c := ProtoCodec(update);
    var recs := SegmentRecords(c, prev, data, ents);
    var i := Whole(c, prev, recs, k);
    HeadIsWhole(update, prev, data, ents, k, z);
    FramesNext(c, prev, recs, i);
    MarshalSize(Written(c, prev, recs, i));
    assert recs[i].kind in {META_DATA_TYPE, ENTRY_TYPE};
  }

  /** A record that is not torn is read or missed as a whole. */
  lemma NotTorn(update: (uint64, bytes) -> uint64, prev: uint64, data: bytes, ents: seq<Entry>, k: nat, z: nat)
    requires var c := ProtoCodec(update);
             IsCut(c, prev, data, ents, k, z) && !IsTorn(c, prev, SegmentRecords(c, prev, data, ents), k, z)
    ensures var c := ProtoCodec(update);
            var recs := SegmentRecords(c, prev, data, ents);
            && !Misread(c, prev, recs, k, z)
            && TornEnd(c, prev, recs, k, z).1 == CrcAfter(c, prev, recs[..TornEnd(c, prev, recs, k, z).0])
  {
    hide Frame, Frames, Whole, Marshal, Unmarshal, Fit, CrcAfter;
    var c := ProtoCodec(update);
    var recs := SegmentRecords(c, prev, data, ents);
    var i := Whole(c, prev, recs, k);
    if i < |recs| {
      FramesNext(c, prev, recs, i);
      ProtoCodecIsValid(update);
    }
  }

  /** A torn record is taken for another one exactly if the condition on the cut holds. */
  lemma MisreadExact(update: (uint64, bytes) -> uint64, prev: uint64, data: bytes, ents: seq<Entry>, k: nat, z: nat)
    requires IsCut(ProtoCodec(update), prev, data, ents, k, z)
    ensures var c := ProtoCodec(update);
            var recs := SegmentRecords(c, prev, data, ents);
            Misread(c, prev, recs, k, z) <==>
            IsTorn(c, prev, recs, k, z) && Mistaken(c, TornRecord(c, prev, recs, k))
  {
    hide Frame, Frames, Whole, Marshal, Unmarshal, Fit, CrcAfter, Damaged, Passes, Mistaken;
    var c := ProtoCodec(update);
    var recs := SegmentRecords(c, prev, data, ents);
    if IsTorn(c, prev, recs, k, z) {
      TornFacts(update, prev, data, ents, k, z);
      TornRecordExact(update, TornRecord(c, prev, recs, k));
    } else {
      NotTorn(update, prev, data, ents, k, z);
    }
  }

  /** Recovery continues with the checksum of the records that were read, exactly unless the torn record spoils it. */
  lemma SpoilsExact(update: (uint64, bytes) -> uint64, prev: uint64, data: bytes, ents: seq<Entry>, k: nat, z: nat)
    requires IsCut(ProtoCodec(update), prev, data, ents, k, z)
    requires var c := ProtoCodec(update); !Misread(c, prev, SegmentRecords(c, prev, data, ents), k, z)
    ensures var c := ProtoCodec(update);
            var recs := SegmentRecords(c, prev, data, ents);
            var (n, crc) := TornEnd(c, prev, recs, k, z);
            crc != CrcAfter(c, prev, recs[..n]) <==>
            IsTorn(c, prev, recs, k, z) && Spoils(c, TornRecord(c, prev, recs, k))
  {
    hide Frame, Frames, Whole, Marshal, Unmarshal, Fit, CrcAfter, Damaged, Passes, Mistaken, Spoils, CrcSeen;
    var c := ProtoCodec(update);
    var recs := SegmentRecords(c, prev, data, ents);
    MisreadExact(update, prev, data, ents, k, z);
    if IsTorn(c, prev, recs, k, z) {
      TornFacts(update, prev, data, ents, k, z);
      TornRecordExact(update, TornRecord(c, prev, recs, k));
      FramesNext(c, prev, recs, Whole(c, prev, recs, k));
    } else {
      NotTorn(update, prev, data, ents, k, z);
    }
  }

  /**
   After a crash everything but the end is read back, unless the torn record is mistaken for another one. What is
   saved then is read back exactly if it is nothing, or if the torn record has not spoilt the running checksum.
   */
  lemma ReadBackExact(update: (uint64, bytes) -> uint64, data: bytes, groups: seq<seq<Entry>>, ents: seq<Entry>,
                      k: nat, z: nat, more: seq<Entry>, z1: nat)
    requires Injective(update)
    requires var c := ProtoCodec(update); var prev := LastCrc(c, 0, data, groups);
             var recs := SegmentRecords(c, prev, data, ents);
             && FilesFit(c, 0, data, groups + [ents]) && CrashPoint(k, z)
             && k <= |Frames(c, prev, recs)|
             && !(IsTorn(c, prev, recs, k, z) && Mistaken(c, TornRecord(c, prev, recs, k)))
             && Fit(c, TornEnd(c, prev, recs, k, z).1, EntryRecords(c, more))
    ensures var c := ProtoCodec(update); var prev := LastCrc(c, 0, data, groups);
            var recs := SegmentRecords(c, prev, data, ents);
            var (n, crc) := TornEnd(c, prev, recs, k, z);
            var r := ReadLogs(c, Decoding(TornLog(c, data, groups, ents, k, z), 0, 0), [], []);
            var s := ReadLogs(c, Decoding(ResumedLog(c, data, groups, ents, n, crc, more, z1), 0, 0), [], []);
            && EndsWith(r, Concat(groups) + EntriesOf(ents, n), crc, |Frames(c, prev, recs[..n])|)
            && (s.Done? && s.entries == r.entries + more <==>
                more == [] || !(IsTorn(c, prev, recs, k, z) && Spoils(c, TornRecord(c, prev, recs, k))))
  {
    hide *;
    var c := ProtoCodec(update);
    var prev := LastCrc(c, 0, data, groups);
    var recs := SegmentRecords(c, prev, data, ents);
    SegmentSize(c, prev, data, ents);
    ProtoCodecIsValid(update);
    LastOfFiles(c, data, groups, ents);
    CutIs(c, prev, data, ents, k, z);
    MisreadExact(update, prev, data, ents, k, z);
    AppendAfterCrash(c, data, groups, ents, k, z, more, z1);
    SpoilsExact(update, prev, data, ents, k, z);
    var (n, crc) := TornEnd(c, prev, recs, k, z);
    UpdateIs(update);
    ResumesExact(c, CrcAfter(c, prev, recs[..n]), crc, more);
  }

  lemma CutIs(c: Codec, prev: uint64, data: bytes, ents: seq<Entry>, k: nat, z: nat)
    requires var recs := SegmentRecords(c, prev, data, ents);
             Fit(c, prev, recs) && k <= |Frames(c, prev, recs)| && CrashPoint(k, z)
    ensures IsCut(c, prev, data, ents, k, z)
  {
  }

  lemma UpdateIs(update: (uint64, bytes) -> uint64)
    ensures ProtoCodec(update).update == update
  {
  }
}
