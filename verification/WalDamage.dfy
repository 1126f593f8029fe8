/** Damage of the log: which of it reading reports, and which of it goes unnoticed. */
module WalDamage {
  import opened Bytes
  import opened Options
  import opened Sequences
  import opened WalFormat
  import opened WalRead
  import opened WalCrash

  // ---------------------------------------------------------------- one frame

  /** A frame with any payload and padding. */
  function FrameOf(p: bytes, q: bytes): bytes {
    LittleEndian(EncodeFrameSize(|p|), FRAME_SIZE_LENGTH) + (p + q)
  }

  ghost predicate IsFrame(p: bytes, q: bytes) {
    0 < |p| < TWO_56 && |q| == PadBytes(|p|)
  }

  lemma FrameOfStarts(p: bytes, q: bytes, tail: bytes)
    requires IsFrame(p, q)
    ensures var f, end := FrameOf(p, q) + tail, FRAME_SIZE_LENGTH + |p| + |q|;
            && |f| >= end == |FrameOf(p, q)| && LengthField(f) == EncodeFrameSize(|p|) != 0
            && f[FRAME_SIZE_LENGTH..end] == p + q && f[FRAME_SIZE_LENGTH..end][..|p|] == p && f[end..] == tail
  {
    var size := EncodeFrameSize(|p|);
    var f := FrameOf(p, q) + tail;
    assert f[..FRAME_SIZE_LENGTH] == LittleEndian(size, FRAME_SIZE_LENGTH);
    Pow256Of8();
    LittleEndianInverse(size, FRAME_SIZE_LENGTH);
    FrameSizeInverse(|p|);
  }

  /** The payload does not parse, or its checksum is not the running one. */
  ghost predicate Broken(c: Codec, crc: uint64, p: bytes) {
    match c.unmarshal(p)
    case None => true
    case Some(log) => log.kind != CRC_TYPE && log.checksum != c.update(crc, log.data)
  }

  /** What some sector of the file holds of the payload and its padding is all zero. */
  ghost predicate HasZeroSector(payload: bytes, fileOff: nat) {
    exists s: nat :: SectorIsZero(payload, fileOff, s)
  }

  lemma DecodeBroken(c: Codec, d: Decoding, p: bytes, q: bytes, tail: bytes)
    requires IsFrame(p, q) && d.lastOffset >= 0 && d.readers != [] && d.readers[0] == FrameOf(p, q) + tail
    requires Broken(c, d.crc, p)
    ensures Decode(c, d).1 ==
            if |d.readers| == 1 && HasZeroSector(p + q, d.lastOffset + FRAME_SIZE_LENGTH) then UnexpectedEof
            else Corrupt
  {
    hide FrameOf, ZeroSector;
    FrameOfStarts(p, q, tail);
    FrameSizeInverse(|p|);
    ZeroSectorExact(p + q, d.lastOffset + FRAME_SIZE_LENGTH);
    assert Decode(c, d) == DecodeFrame(c, d);
  }

  lemma DecodeUnbroken(c: Codec, d: Decoding, p: bytes, q: bytes, tail: bytes)
    requires IsFrame(p, q) && d.lastOffset >= 0 && d.readers != [] && d.readers[0] == FrameOf(p, q) + tail
    requires !Broken(c, d.crc, p)
    ensures var log := c.unmarshal(p).value;
            Decode(c, d) == (Decoding([tail] + d.readers[1..],
                                      if log.kind == CRC_TYPE then d.crc else log.checksum,
                                      d.lastOffset + |FrameOf(p, q)|), Read(log))
  {
    hide FrameOf, TornWrite;
    FrameOfStarts(p, q, tail);
    FrameSizeInverse(|p|);
    assert Decode(c, d) == DecodeFrame(c, d);
  }

  /** The payload is a record that ReadAll does not accept at this point. */
  ghost predicate Rejected(c: Codec, crc: uint64, metadata: bytes, p: bytes)
    requires !Broken(c, crc, p)
  {
    var log := c.unmarshal(p).value;
    if log.kind == CRC_TYPE then crc != 0 && FromBigEndian(log.data) != crc && log.checksum != crc
    else if log.kind == META_DATA_TYPE then metadata != [] && metadata != log.data
    else log.kind == ENTRY_TYPE ==> c.unmarshalEntry(log.data).None?
  }

  /** What is read from a frame on. */
  lemma ReadFrame(c: Codec, p: bytes, q: bytes, tail: bytes, rest: seq<bytes>, crc: uint64, off: nat, metadata: bytes,
                  acc: seq<Entry>)
    requires IsFrame(p, q)
    ensures var r := ReadLogs(c, Decoding([FrameOf(p, q) + tail] + rest, crc, off), metadata, acc);
            if Broken(c, crc, p) then
              && (r.Failed? <==> rest != [] || !HasZeroSector(p + q, off + FRAME_SIZE_LENGTH))
              && (r.Done? ==> r.entries == acc && r.metadata == metadata)
            else if Rejected(c, crc, metadata, p) then r.Failed?
            else
              var log := c.unmarshal(p).value;
              r == ReadLogs(c, Decoding([tail] + rest, log.checksum, off + |FrameOf(p, q)|),
                            if log.kind == META_DATA_TYPE then log.data else metadata,
                            if log.kind == ENTRY_TYPE then acc + [c.unmarshalEntry(log.data).value] else acc)
  {
    hide FrameOf, HasZeroSector, Decode, IsFrame;
    var d := Decoding([FrameOf(p, q) + tail] + rest, crc, off);
    assert d.readers[1..] == rest;
    if Broken(c, crc, p) {
      DecodeBroken(c, d, p, q, tail);
    } else {
      DecodeUnbroken(c, d, p, q, tail);
    }
  }

  // ---------------------------------------------------------------- one frame of a log

  /** Files in which the record at position i of the segment of `ents` is replaced by other bytes f. */
  ghost function Damage(c: Codec, data: bytes, groups: seq<seq<Entry>>, ents: seq<Entry>, i: nat, f: bytes,
                        after: seq<bytes>): seq<bytes>
    requires i <= |ents| + 2
  {
    var prev := LastCrc(c, 0, data, groups);
    Files(c, 0, data, groups) + ([Frames(c, prev, SegmentRecords(c, prev, data, ents)[..i]) + f] + after)
  }

  /** Where reading stands before the record at position i: the checksum, the offset and the metadata. */
  ghost function SumAt(c: Codec, data: bytes, groups: seq<seq<Entry>>, ents: seq<Entry>, i: nat): uint64
    requires i <= |ents| + 2
  {
    var prev := LastCrc(c, 0, data, groups);
    CrcAfter(c, prev, SegmentRecords(c, prev, data, ents)[..i])
  }

  ghost function OffsetAt(c: Codec, data: bytes, groups: seq<seq<Entry>>, ents: seq<Entry>, i: nat): nat
    requires i <= |ents| + 2
  {
    var prev := LastCrc(c, 0, data, groups);
    |Frames(c, prev, SegmentRecords(c, prev, data, ents)[..i])|
  }

  function DataAt(data: bytes, groups: seq<seq<Entry>>, i: nat): bytes {
    if groups == [] && i < 2 then [] else data
  }

  lemma ReadUpTo(c: Codec, data: bytes, groups: seq<seq<Entry>>, ents: seq<Entry>, i: nat, f: bytes, after: seq<bytes>)
    requires c.Valid() && FilesFit(c, 0, data, groups + [ents]) && i <= |ents| + 2
    ensures ReadLogs(c, Decoding(Damage(c, data, groups, ents, i, f, after), 0, 0), [], []) ==
            ReadLogs(c, Decoding([f] + after, SumAt(c, data, groups, ents, i), OffsetAt(c, data, groups, ents, i)),
                     DataAt(data, groups, i), Concat(groups) + EntriesOf(ents, i))
  {
    hide ReadLogs, Frames, CrcAfter, Fit, FilesFit, SegmentRecords, Files, LastCrc, Concat;
    var prev := LastCrc(c, 0, data, groups);
    SegmentSize(c, prev, data, ents);
    LastOfFiles(c, data, groups, ents);
    var last := [Frames(c, prev, SegmentRecords(c, prev, data, ents)[..i]) + f] + after;
    ReadUpToLast(c, data, groups, last);
    ReadPartThen(c, prev, data, ents, i, f, after, if groups == [] then [] else data, Concat(groups));
  }

  /**
   A frame of any payload in the place of a record. If the payload does not parse or has another checksum, reading
   fails exactly if another file follows or no sector of the frame is all zero; otherwise it ends before the frame.
   A record out of place fails in any case. Any other payload is read as the record it is.
   */
  lemma DamageExact(c: Codec, data: bytes, groups: seq<seq<Entry>>, ents: seq<Entry>, i: nat, p: bytes, q: bytes,
                    tail: bytes, after: seq<bytes>)
    requires c.Valid() && FilesFit(c, 0, data, groups + [ents]) && i <= |ents| + 2 && IsFrame(p, q)
    ensures var files := Damage(c, data, groups, ents, i, FrameOf(p, q) + tail, after);
            var r := ReadLogs(c, Decoding(files, 0, 0), [], []);
            var crc, off := SumAt(c, data, groups, ents, i), OffsetAt(c, data, groups, ents, i);
            var metadata, acc := DataAt(data, groups, i), Concat(groups) + EntriesOf(ents, i);
            if Broken(c, crc, p) then
              && (r.Failed? <==> after != [] || !HasZeroSector(p + q, off + FRAME_SIZE_LENGTH))
              && (r.Done? ==> r.entries == acc && r.metadata == metadata)
            else if Rejected(c, crc, metadata, p) then r.Failed?
            else
              var log := c.unmarshal(p).value;
              r == ReadLogs(c, Decoding([tail] + after, log.checksum, off + |FrameOf(p, q)|),
                            if log.kind == META_DATA_TYPE then log.data else metadata,
                            if log.kind == ENTRY_TYPE then acc + [c.unmarshalEntry(log.data).value] else acc)
  {
    hide *;
    var crc, off := SumAt(c, data, groups, ents, i), OffsetAt(c, data, groups, ents, i);
    var metadata, acc := DataAt(data, groups, i), Concat(groups) + EntriesOf(ents, i);
    ReadUpTo(c, data, groups, ents, i, FrameOf(p, q) + tail, after);
    ReadFrame(c, p, q, tail, after, crc, off, metadata, acc);
  }

  // ---------------------------------------------------------------- a closed file that was cut

  /** The log with the file of `ents`, which others follow, cut to its first k bytes. */
  ghost function CutLog(c: Codec, data: bytes, groups: seq<seq<Entry>>, ents: seq<Entry>, k: nat,
                        later: seq<seq<Entry>>): seq<bytes>
    requires var prev := LastCrc(c, 0, data, groups); k <= |Frames(c, prev, SegmentRecords(c, prev, data, ents))|
  {
    var prev := LastCrc(c, 0, data, groups);
    var recs := SegmentRecords(c, prev, data, ents);
    Files(c, 0, data, groups) + ([Frames(c, prev, recs)[..k]] + Files(c, CrcAfter(c, prev, recs), data, later))
  }

  /** The file ends inside a frame. */
  lemma ReadShort(c: Codec, l: Log, j: nat, rest: seq<bytes>, crc: uint64, off: nat, metadata: bytes, acc: seq<Entry>)
    requires c.Fits(l) && c.marshal(l) != [] && 0 < j < |Frame(c, l)|
    ensures var r := ReadLogs(c, Decoding([Frame(c, l)[..j]] + rest, crc, off), metadata, acc);
            r.Done? && r.entries == acc
  {
    hide Frame, EncodeFrameSize;
    var f := Frame(c, l)[..j];
    var d := Decoding([f] + rest, crc, off);
    assert d.readers[0] == f;
    if j >= FRAME_SIZE_LENGTH {
      TornLength(c, l, j, 0);
      assert f + Zeros(0) == f;
      FrameSizeInverse(|c.marshal(l)|);
      assert Decode(c, d) == DecodeFrame(c, d);
    }
    assert Decode(c, d).1 == UnexpectedEof;
  }

  lemma ReadWrongBoundary(c: Codec, prev: uint64, crc: uint64, tail: bytes, rest: seq<bytes>, metadata: bytes,
                          acc: seq<Entry>)
    requires c.Valid() && !Continues(c, prev, crc) && c.Fits(LogOf(c, prev, Record(CRC_TYPE, BigEndian(prev, 8))))
    ensures var frame := Frame(c, Log(CRC_TYPE, BigEndian(prev, 8), c.update(prev, BigEndian(prev, 8))));
            ReadLogs(c, Decoding([frame + tail] + rest, crc, 0), metadata, acc).Failed?
  {
    hide Frame, BigEndian;
    var l := Log(CRC_TYPE, BigEndian(prev, 8), c.update(prev, BigEndian(prev, 8)));
    var d := Decoding([Frame(c, l) + tail] + rest, crc, 0);
    assert d.readers[1..] == rest;
    ContinuesExact(c, prev, crc);
    WrittenIsNotEmpty(c, CRC_TYPE, l.data, l.checksum);
    DecodeFrameReads(c, d, l, tail);
  }

  /** Later files are read, or refused at the first record, by the checksum with which they are reached. */
  lemma ReadLater(c: Codec, prev: uint64, data: bytes, later: seq<seq<Entry>>, crc: uint64, metadata: bytes,
                  acc: seq<Entry>)
    requires c.Valid() && later != [] && FilesFit(c, prev, data, later) && (metadata == [] || metadata == data)
    ensures var r := ReadLogs(c, Decoding(Files(c, prev, data, later), crc, 0), metadata, acc);
            if Continues(c, prev, crc) then r.Done? && r.entries == acc + Concat(later) else r.Failed?
  {
    hide ReadLogs, Frames, CrcAfter, SegmentRecords, Fit, Continues;
    var files := Files(c, prev, data, later);
    if Continues(c, prev, crc) {
      ReadFiles(c, prev, data, later, 0, crc, metadata, acc);
      PaddedByNothing(files);
    } else {
      var recs := SegmentRecords(c, prev, data, later[0]);
      FirstRecord(c, prev, data, later[0]);
      var tail := Frames(c, c.update(prev, BigEndian(prev, 8)), recs[1..]);
      ReadWrongBoundary(c, prev, crc, tail, files[1..], metadata, acc);
      assert files == [files[0]] + files[1..];
    }
  }

  lemma PaddedByNothing(files: seq<bytes>)
    requires files != []
    ensures Padded(files, 0) == files
  {
    var f := files[|files| - 1];
    assert f + Zeros(0) == f && files == files[..|files| - 1] + [f];
  }

  lemma FirstRecord(c: Codec, prev: uint64, data: bytes, ents: seq<Entry>)
    ensures var recs := SegmentRecords(c, prev, data, ents);
            var crc := c.update(prev, BigEndian(prev, 8));
            && recs != []
            && Frames(c, prev, recs) == Frame(c, Log(CRC_TYPE, BigEndian(prev, 8), crc)) + Frames(c, crc, recs[1..])
            && (Fit(c, prev, recs) ==> c.Fits(LogOf(c, prev, Record(CRC_TYPE, BigEndian(prev, 8)))))
  {
    hide Frame, BigEndian;
    var recs := SegmentRecords(c, prev, data, ents);
    assert recs[0] == Record(CRC_TYPE, BigEndian(prev, 8));
  }

  /**
   A closed file that has lost its end. If the cut goes through a record, reading ends there without an error, and all
   later files are dropped. If it lies between two records, reading fails exactly if the next file does not continue
   the checksum; otherwise the later files are read, and only the end of the cut file is missing.
   */
  lemma CutFileExact(c: Codec, data: bytes, groups: seq<seq<Entry>>, ents: seq<Entry>, k: nat, later: seq<seq<Entry>>)
    requires c.Valid() && later != [] && FilesFit(c, 0, data, groups + [ents])
    requires var prev := LastCrc(c, 0, data, groups);
             var recs := SegmentRecords(c, prev, data, ents);
             && k <= |Frames(c, prev, recs)| && FilesFit(c, CrcAfter(c, prev, recs), data, later)
    ensures var prev := LastCrc(c, 0, data, groups);
            var recs := SegmentRecords(c, prev, data, ents);
            var i := Whole(c, prev, recs, k);
            var r := ReadLogs(c, Decoding(CutLog(c, data, groups, ents, k, later), 0, 0), [], []);
            && i <= |ents| + 2
            && if |Frames(c, prev, recs[..i])| < k then r.Done? && r.entries == Concat(groups) + EntriesOf(ents, i)
               else if Continues(c, CrcAfter(c, prev, recs), CrcAfter(c, prev, recs[..i])) then
                 r.Done? && r.entries == Concat(groups) + EntriesOf(ents, i) + Concat(later)
               else r.Failed?
  {
    hide ReadLogs, Frame, Frames, CrcAfter, Fit, FilesFit, SegmentRecords, Files, LastCrc, Concat, Whole, Continues;
    var prev := LastCrc(c, 0, data, groups);
    var recs := SegmentRecords(c, prev, data, ents);
    var i, next := Whole(c, prev, recs, k), CrcAfter(c, prev, recs);
    var part, after := Frames(c, prev, recs[..i]), Files(c, next, data, later);
    SegmentSize(c, prev, data, ents);
    WholeFrames(c, prev, recs, k);
    LastOfFiles(c, data, groups, ents);
    var f := Frames(c, prev, recs)[|part|..k];
    CutSplits(c, prev, recs, k, i);
    ReadUpTo(c, data, groups, ents, i, f, after);
    var crc, acc := SumAt(c, data, groups, ents, i), Concat(groups) + EntriesOf(ents, i);
    if |part| < k {
      FramesNext(c, prev, recs, i);
      WrittenInSegment(c, prev, data, ents, i);
      ReadShort(c, Written(c, prev, recs, i), k - |part|, after, crc, |part|, DataAt(data, groups, i), acc);
    } else {
      FilesAreThere(c, next, data, later);
      NextFile(c, after, crc, |part|, DataAt(data, groups, i), acc);
      ReadLater(c, next, data, later, crc, DataAt(data, groups, i), acc);
    }
  }

  lemma CutSplits(c: Codec, crc: uint64, recs: seq<Record>, k: nat, i: nat)
    requires CutAt(c, crc, recs, k, i)
    ensures var part := Frames(c, crc, recs[..i]);
            && |part| <= k && part + Frames(c, crc, recs)[|part|..k] == Frames(c, crc, recs)[..k]
            && (|part| < k ==>
                  && i < |recs| && k - |part| < |Frame(c, Written(c, crc, recs, i))|
                  && Frames(c, crc, recs)[|part|..k] == Frame(c, Written(c, crc, recs, i))[..k - |part|])
            && (|part| == k ==> Frames(c, crc, recs)[|part|..k] == [])
  {
    hide Frame, Frames, CrcAfter;
    var all, part := Frames(c, crc, recs), Frames(c, crc, recs[..i]);
    assert all[..k][|part|..] == all[|part|..k] && all[..k] == all[..k][..|part|] + all[..k][|part|..];
  }

  lemma FilesAreThere(c: Codec, prev: uint64, data: bytes, groups: seq<seq<Entry>>)
    requires groups != []
    ensures Files(c, prev, data, groups) != []
  {
  }

  /** For example, of a log whose first file has only its first byte left, nothing is read, and no error reported. */
  lemma LaterFilesAreDropped(c: Codec, data: bytes, ents: seq<Entry>, later: seq<seq<Entry>>)
    requires c.Valid() && later != [] && FilesFit(c, 0, data, [ents] + later)
    ensures var all := Files(c, 0, data, [ents] + later);
            var r := ReadLogs(c, Decoding([all[0][..1]] + all[1..], 0, 0), [], []);
            |all[0]| > 1 && r.Done? && r.entries == []
  {
    hide ReadLogs, Frame, Frames, CrcAfter, Fit, SegmentRecords;
    var all, recs := Files(c, 0, data, [ents] + later), SegmentRecords(c, 0, data, ents);
    assert ([ents] + later)[1..] == later;
    FirstRecord(c, 0, data, ents);
    var l := LogOf(c, 0, Record(CRC_TYPE, BigEndian(0, 8)));
    WrittenIsNotEmpty(c, CRC_TYPE, BigEndian(0, 8), l.checksum);
    assert all[0][..1] == Frame(c, l)[..1];
    ReadShort(c, l, 1, all[1..], 0, 0, [], []);
  }
}
