/** What a crash leaves readable: a prefix of the entries, and whether more can be appended to it. */
module WalCrash {
  import opened Bytes
  import opened Options
  import opened Sequences
  import opened WalFormat
  import opened WalRead

  // ---------------------------------------------------------------- torn writes

  /** The part of the data that lies in sector s of the file is not empty and all zero. */
  ghost predicate SectorIsZero(data: bytes, fileOff: nat, s: nat) {
    && data != [] && s * MIN_SECTOR_SIZE < fileOff + |data| && fileOff < (s + 1) * MIN_SECTOR_SIZE
    && forall i :: 0 <= i < |data| && s * MIN_SECTOR_SIZE <= fileOff + i < (s + 1) * MIN_SECTOR_SIZE ==> data[i] == 0
  }

  /** isTornWrite finds a zero sector exactly if there is one. */
  lemma {:induction false} ZeroSectorExact(data: bytes, fileOff: nat)
    ensures ZeroSector(data, fileOff) <==> exists s: nat :: SectorIsZero(data, fileOff, s)
    decreases |data|
  {
    if data == [] {
      forall s: nat ensures !SectorIsZero(data, fileOff, s) {
      }
    } else {
      var n, first := ChunkLength(data, fileOff), fileOff / MIN_SECTOR_SIZE;
      ZeroSectorExact(data[n..], fileOff + n);
      FirstSector(data, fileOff);
      forall s: nat | s != first ensures SectorIsZero(data, fileOff, s) <==> SectorIsZero(data[n..], fileOff + n, s) {
        LaterSector(data, fileOff, s);
      }
      if ZeroSector(data[n..], fileOff + n) {
        var s: nat :| SectorIsZero(data[n..], fileOff + n, s);
        assert SectorIsZero(data, fileOff, s);
      }
      if s: nat :| SectorIsZero(data, fileOff, s) {
        assert s != first ==> SectorIsZero(data[n..], fileOff + n, s);
      }
    }
  }

  lemma FirstSector(data: bytes, fileOff: nat)
    requires data != []
    ensures var n, first := ChunkLength(data, fileOff), fileOff / MIN_SECTOR_SIZE;
            && (SectorIsZero(data, fileOff, first) <==> AllZero(data[..n]))
            && !SectorIsZero(data[n..], fileOff + n, first)
  {
    var n, first := ChunkLength(data, fileOff), fileOff / MIN_SECTOR_SIZE;
    assert (first + 1) * MIN_SECTOR_SIZE == fileOff + MIN_SECTOR_SIZE - fileOff % MIN_SECTOR_SIZE;
    assert forall i :: 0 <= i < n ==> data[..n][i] == data[i];
  }

  lemma LaterSector(data: bytes, fileOff: nat, s: nat)
    requires data != [] && s != fileOff / MIN_SECTOR_SIZE
    ensures var n := ChunkLength(data, fileOff);
            SectorIsZero(data, fileOff, s) <==> SectorIsZero(data[n..], fileOff + n, s)
  {
    var n := ChunkLength(data, fileOff);
    var rest := data[n..];
    assert forall i :: 0 <= i < |rest| ==> rest[i] == data[n + i];
    if SectorIsZero(data, fileOff, s) {
      assert s > fileOff / MIN_SECTOR_SIZE;
      assert SectorIsZero(rest, fileOff + n, s);
    }
    if SectorIsZero(rest, fileOff + n, s) {
      forall i | 0 <= i < |data| && s * MIN_SECTOR_SIZE <= fileOff + i < (s + 1) * MIN_SECTOR_SIZE
        ensures data[i] == 0
      {
        assert i >= n;
        assert data[i] == rest[i - n];
      }
    }
  }

  // ---------------------------------------------------------------- the torn frame

  /** A payload of which only the first j bytes were written; the rest reads as zeros. */
  function Damaged(payload: bytes, j: nat): (r: bytes)
    ensures |r| == |payload|
  {
    if j >= |payload| then payload else payload[..j] + Zeros(|payload| - j)
  }

  /** The decoder takes a payload for a record. */
  predicate Passes(c: Codec, crc: uint64, payload: bytes) {
    match c.unmarshal(payload)
    case None => false
    case Some(log) => log.kind == CRC_TYPE || log.checksum == c.update(crc, log.data)
  }

  /** The running checksum after a payload that does not pass. */
  function CrcSeen(c: Codec, crc: uint64, payload: bytes): uint64 {
    match c.unmarshal(payload)
    case None => crc
    case Some(log) => if log.kind == CRC_TYPE then crc else c.update(crc, log.data)
  }

  lemma FrameParts(c: Codec, l: Log, i: nat)
    requires i < |Frame(c, l)|
    ensures i < FRAME_SIZE_LENGTH ==>
            Frame(c, l)[i] == LittleEndian(EncodeFrameSize(|c.marshal(l)|), FRAME_SIZE_LENGTH)[i]
    ensures var n := |c.marshal(l)|;
            i >= FRAME_SIZE_LENGTH ==>
              Frame(c, l)[i] == if i - FRAME_SIZE_LENGTH < n then c.marshal(l)[i - FRAME_SIZE_LENGTH] else 0
  {
  }

  /** The payload found in a torn frame. */
  lemma TornPayload(c: Codec, l: Log, j: nat, z: nat)
    requires c.Fits(l) && c.marshal(l) != [] && FRAME_SIZE_LENGTH <= j < |Frame(c, l)| <= j + z
    ensures var f, n := Frame(c, l)[..j] + Zeros(z), |c.marshal(l)|;
            && LengthField(f) == EncodeFrameSize(n) != 0
            && f[FRAME_SIZE_LENGTH..|Frame(c, l)|][..n] == Damaged(c.marshal(l), j - FRAME_SIZE_LENGTH)
            && f[|Frame(c, l)|..] == Zeros(j + z - |Frame(c, l)|)
  {
    var f, n := Frame(c, l)[..j] + Zeros(z), |c.marshal(l)|;
    FrameStarts(c, l, []);
    assert Frame(c, l) + [] == Frame(c, l);
    assert f[..FRAME_SIZE_LENGTH] == Frame(c, l)[..FRAME_SIZE_LENGTH];
    var p, q := f[FRAME_SIZE_LENGTH..|Frame(c, l)|][..n], Damaged(c.marshal(l), j - FRAME_SIZE_LENGTH);
    forall i | 0 <= i < n ensures p[i] == q[i] {
      FrameParts(c, l, FRAME_SIZE_LENGTH + i);
    }
    assert p == q;
  }

  /** The zeros behind a sector boundary give a torn frame away. */
  lemma TornIsSeen(c: Codec, l: Log, j: nat, z: nat, crc: uint64, off: nat)
    requires FRAME_SIZE_LENGTH <= j < |Frame(c, l)| <= j + z && (off + j) % MIN_SECTOR_SIZE == 0
    ensures var f := Frame(c, l)[..j] + Zeros(z);
            TornWrite(Decoding([f], crc, off), f[FRAME_SIZE_LENGTH..|Frame(c, l)|])
  {
    var f := Frame(c, l)[..j] + Zeros(z);
    var data, s := f[FRAME_SIZE_LENGTH..|Frame(c, l)|], (off + j) / MIN_SECTOR_SIZE;
    assert s * MIN_SECTOR_SIZE == off + j;
    assert SectorIsZero(data, off + FRAME_SIZE_LENGTH, s);
    ZeroSectorExact(data, off + FRAME_SIZE_LENGTH);
  }

  /** What the decoder makes of a torn frame: a record exactly if the payload passes. */
  lemma DecodeTorn(c: Codec, l: Log, j: nat, z: nat, crc: uint64, off: nat)
    requires c.Fits(l) && c.marshal(l) != [] && FRAME_SIZE_LENGTH <= j < |Frame(c, l)|
    requires |Frame(c, l)| <= j + z ==> (off + j) % MIN_SECTOR_SIZE == 0
    ensures var d := Decoding([Frame(c, l)[..j] + Zeros(z)], crc, off);
            var p := Damaged(c.marshal(l), j - FRAME_SIZE_LENGTH);
            if j + z < |Frame(c, l)| then Decode(c, d) == (d, UnexpectedEof)
            else if Passes(c, crc, p) then
              Decode(c, d) == (Decoding([Zeros(j + z - |Frame(c, l)|)], CrcSeen(c, crc, p), off + |Frame(c, l)|),
                               Read(c.unmarshal(p).value))
            else Decode(c, d) == (d.(crc := CrcSeen(c, crc, p)), UnexpectedEof)
  {
    hide Frame, TornWrite, EncodeFrameSize, Damaged;
    var n := |c.marshal(l)|;
    var f := Frame(c, l)[..j] + Zeros(z);
    var d := Decoding([f], crc, off);
    FrameSizeInverse(n);
    TornLength(c, l, j, z);
    assert d.readers[0] == f && d.readers[1..] == [] && f != [];
    assert Decode(c, d) == DecodeFrame(c, d);
    if |Frame(c, l)| <= j + z {
      TornPayload(c, l, j, z);
      TornIsSeen(c, l, j, z, crc, off);
      assert [f[|Frame(c, l)|..]] + [] == [Zeros(j + z - |Frame(c, l)|)];
    }
  }

  lemma TornLength(c: Codec, l: Log, j: nat, z: nat)
    requires c.Fits(l) && c.marshal(l) != [] && FRAME_SIZE_LENGTH <= j <= |Frame(c, l)|
    ensures var f := Frame(c, l)[..j] + Zeros(z); LengthField(f) == EncodeFrameSize(|c.marshal(l)|) != 0
  {
    var f := Frame(c, l)[..j] + Zeros(z);
    FrameStarts(c, l, []);
    assert Frame(c, l) + [] == Frame(c, l);
    assert f[..FRAME_SIZE_LENGTH] == Frame(c, l)[..FRAME_SIZE_LENGTH];
  }

  // ---------------------------------------------------------------- the torn segment

  /** Reading ended without an error. */
  ghost predicate EndsWith(r: Result, entries: seq<Entry>, crc: uint64, off: int) {
    r.Done? && r.entries == entries && r.final.crc == crc && r.final.lastOffset == off
  }

  /** How many records lie within the first k bytes. */
  ghost function Whole(c: Codec, crc: uint64, recs: seq<Record>, k: nat): (i: nat)
    ensures i <= |recs|
    decreases |recs|
  {
    if recs == [] || |Frame(c, LogOf(c, crc, recs[0]))| > k then 0
    else 1 + Whole(c, c.update(crc, recs[0].data), recs[1..], k - |Frame(c, LogOf(c, crc, recs[0]))|)
  }

  /** The record at position i as it was written. */
  ghost function Written(c: Codec, crc: uint64, recs: seq<Record>, i: nat): Log
    requires i < |recs|
  {
    LogOf(c, CrcAfter(c, crc, recs[..i]), recs[i])
  }

  lemma FrameAligned(c: Codec, l: Log)
    ensures |Frame(c, l)| % 8 == 0
  {
    hide Frame, PadBytes;
    PadAligns(|c.marshal(l)|);
  }

  lemma PadAligns(n: nat)
    ensures (n + PadBytes(n)) % 8 == 0
  {
  }

  /** The records up to position i, and then the record there. */
  lemma FramesNext(c: Codec, crc: uint64, recs: seq<Record>, i: nat)
    requires i < |recs|
    ensures Frames(c, crc, recs[..i + 1]) == Frames(c, crc, recs[..i]) + Frame(c, Written(c, crc, recs, i))
    ensures CrcAfter(c, crc, recs[..i + 1]) == Written(c, crc, recs, i).checksum
    ensures Fit(c, crc, recs) ==> c.Fits(Written(c, crc, recs, i))
  {
    hide Frame;
    assert recs[..i + 1] == recs[..i] + [recs[i]] && recs == recs[..i + 1] + recs[i + 1..];
    FramesAppend(c, crc, recs[..i], [recs[i]]);
    FramesAppend(c, crc, recs[..i + 1], recs[i + 1..]);
    OneRecord(c, CrcAfter(c, crc, recs[..i]), recs[i]);
  }

  /** The first k bytes hold i whole frames and the beginning of the next one. */
  ghost predicate CutAt(c: Codec, crc: uint64, recs: seq<Record>, k: nat, i: nat) {
    && i <= |recs| && k <= |Frames(c, crc, recs)|
    && var o := |Frames(c, crc, recs[..i])|;
    && o <= k && o % 8 == 0
    && (i == |recs| ==> o == k && Frames(c, crc, recs)[..k] == Frames(c, crc, recs[..i]))
    && (i < |recs| ==>
          && k - o < |Frame(c, Written(c, crc, recs, i))|
          && Frames(c, crc, recs)[..k] == Frames(c, crc, recs[..i]) + Frame(c, Written(c, crc, recs, i))[..k - o])
  }

  lemma {:induction false} WholeFrames(c: Codec, crc: uint64, recs: seq<Record>, k: nat)
    requires k <= |Frames(c, crc, recs)|
    ensures CutAt(c, crc, recs, k, Whole(c, crc, recs, k))
    decreases |recs|
  {
    hide Frame;
    if recs == [] {
      assert recs[..0] == [];
    } else if |Frame(c, LogOf(c, crc, recs[0]))| <= k {
      hide CutAt;
      WholeFrames(c, c.update(crc, recs[0].data), recs[1..], k - |Frame(c, LogOf(c, crc, recs[0]))|);
      CutLater(c, crc, recs, k, Whole(c, crc, recs, k) - 1);
    } else {
      CutFirst(c, crc, recs, k);
    }
  }

  lemma CutFirst(c: Codec, crc: uint64, recs: seq<Record>, k: nat)
    requires recs != [] && k < |Frame(c, LogOf(c, crc, recs[0]))|
    ensures CutAt(c, crc, recs, k, 0)
  {
    hide Frame;
    var frame := Frame(c, LogOf(c, crc, recs[0]));
    assert recs[..0] == [] && Written(c, crc, recs, 0) == LogOf(c, crc, recs[0]);
    assert Frames(c, crc, recs)[..k] == frame[..k] == [] + frame[..k];
  }

  lemma CutLater(c: Codec, crc: uint64, recs: seq<Record>, k: nat, i: nat)
    requires recs != [] && |Frame(c, LogOf(c, crc, recs[0]))| <= k
    requires CutAt(c, c.update(crc, recs[0].data), recs[1..], k - |Frame(c, LogOf(c, crc, recs[0]))|, i)
    ensures CutAt(c, crc, recs, k, i + 1)
  {
    hide Frame, Frames, Written, CrcAfter;
    var next, frame := c.update(crc, recs[0].data), Frame(c, LogOf(c, crc, recs[0]));
    var more := Frames(c, next, recs[1..]);
    FrameAligned(c, LogOf(c, crc, recs[0]));
    WholeStep(c, crc, recs, |recs| - 1);
    assert recs[..|recs|] == recs && recs[1..][..|recs| - 1] == recs[1..];
    WholeStep(c, crc, recs, i);
    assert (frame + more)[..k] == frame + more[..k - |frame|];
    if i < |recs| - 1 {
      var part := Frames(c, next, recs[1..][..i]);
      Regroup(frame, part, Frame(c, Written(c, next, recs[1..], i))[..k - |frame| - |part|]);
    }
  }

  lemma WholeStep(c: Codec, crc: uint64, recs: seq<Record>, i: nat)
    requires recs != [] && i <= |recs| - 1
    ensures var next := c.update(crc, recs[0].data);
            && Frames(c, crc, recs[..i + 1]) == Frame(c, LogOf(c, crc, recs[0])) + Frames(c, next, recs[1..][..i])
            && CrcAfter(c, crc, recs[..i + 1]) == CrcAfter(c, next, recs[1..][..i])
            && (i < |recs| - 1 ==> Written(c, crc, recs, i + 1) == Written(c, next, recs[1..], i))
  {
    hide Frame;
    assert recs[..i + 1][1..] == recs[1..][..i];
  }

  /** The cut goes through a record, and the zeros behind it make another record of it. */
  ghost predicate Misread(c: Codec, crc: uint64, recs: seq<Record>, k: nat, z: nat) {
    var i := Whole(c, crc, recs, k);
    && i < |recs|
    && var l, j := Written(c, crc, recs, i), k - |Frames(c, crc, recs[..i])|;
    && FRAME_SIZE_LENGTH <= j && |Frame(c, l)| <= j + z
    && var p := Damaged(c.marshal(l), j - FRAME_SIZE_LENGTH);
    Passes(c, CrcAfter(c, crc, recs[..i]), p) && c.unmarshal(p) != Some(l)
  }

  /** How many records are read from a torn segment, and the running checksum after that. */
  ghost function TornEnd(c: Codec, crc: uint64, recs: seq<Record>, k: nat, z: nat): (r: (nat, uint64))
    ensures r.0 <= |recs|
  {
    var i := Whole(c, crc, recs, k);
    var before := CrcAfter(c, crc, recs[..i]);
    if i == |recs| then (i, before)
    else
      var l, j := Written(c, crc, recs, i), k - |Frames(c, crc, recs[..i])|;
      if j < FRAME_SIZE_LENGTH || j + z < |Frame(c, l)| then (i, before)
      else
        var p := Damaged(c.marshal(l), j - FRAME_SIZE_LENGTH);
        if c.unmarshal(p) == Some(l) then (i + 1, l.checksum) else (i, CrcSeen(c, before, p))
  }

  /** The entries among the first i records of a segment, which begins with two other records. */
  function EntriesOf(ents: seq<Entry>, i: nat): seq<Entry>
    requires i <= |ents| + 2
  {
    if i < 2 then [] else ents[..i - 2]
  }

  /** The first i records of the last segment are read back. */
  lemma ReadPart(c: Codec, prev: uint64, data: bytes, ents: seq<Entry>, i: nat, tail: bytes, metadata: bytes,
                 acc: seq<Entry>)
    requires c.Valid() && (metadata == [] || metadata == data) && i <= |ents| + 2
    requires Fit(c, prev, SegmentRecords(c, prev, data, ents))
    ensures var recs := SegmentRecords(c, prev, data, ents);
            var frames := Frames(c, prev, recs[..i]);
            ReadLogs(c, Decoding([frames + tail], prev, 0), metadata, acc) ==
            ReadLogs(c, Decoding([tail], CrcAfter(c, prev, recs[..i]), |frames|),
                     if i < 2 then metadata else data, acc + EntriesOf(ents, i))
  {
    hide *;
    SegmentSize(c, prev, data, ents);
    ReadPartThen(c, prev, data, ents, i, tail, [], metadata, acc);
    NoMore(Frames(c, prev, SegmentRecords(c, prev, data, ents)[..i]) + tail);
    NoMore(tail);
  }

  /** The first i records of a segment are read back. */
  lemma ReadPartThen(c: Codec, prev: uint64, data: bytes, ents: seq<Entry>, i: nat, tail: bytes, rest: seq<bytes>,
                     metadata: bytes, acc: seq<Entry>)
    requires c.Valid() && (metadata == [] || metadata == data) && i <= |ents| + 2
    requires Fit(c, prev, SegmentRecords(c, prev, data, ents))
    ensures var recs := SegmentRecords(c, prev, data, ents);
            var frames := Frames(c, prev, recs[..i]);
            ReadLogs(c, Decoding([frames + tail] + rest, prev, 0), metadata, acc) ==
            ReadLogs(c, Decoding([tail] + rest, CrcAfter(c, prev, recs[..i]), |frames|),
                     if i < 2 then metadata else data, acc + EntriesOf(ents, i))
  {
    hide ReadLogs, Frame;
    var recs := SegmentRecords(c, prev, data, ents);
    assert acc + [] == acc;
    if i == 0 {
      assert recs[..0] == [] && Frames(c, prev, recs[..0]) + tail == tail;
    } else if i == 1 {
      assert recs[..1] == [Record(CRC_TYPE, BigEndian(prev, 8))];
      FramesNext(c, prev, recs, 0);
      OneRecord(c, prev, recs[0]);
      ReadCrc(c, prev, prev, tail, rest, 0, metadata, acc);
    } else {
      ReadPartOfEntries(c, prev, data, ents, i - 2, tail, rest, metadata, acc);
    }
  }

  lemma ReadPartOfEntries(c: Codec, prev: uint64, data: bytes, ents: seq<Entry>, m: nat, tail: bytes, rest: seq<bytes>,
                          metadata: bytes, acc: seq<Entry>)
    requires c.Valid() && (metadata == [] || metadata == data) && m <= |ents|
    requires Fit(c, prev, SegmentRecords(c, prev, data, ents))
    ensures var recs := SegmentRecords(c, prev, data, ents);
            var frames := Frames(c, prev, recs[..m + 2]);
            ReadLogs(c, Decoding([frames + tail] + rest, prev, 0), metadata, acc) ==
            ReadLogs(c, Decoding([tail] + rest, CrcAfter(c, prev, recs[..m + 2]), |frames|), data, acc + ents[..m])
  {
    hide ReadLogs, Frame, Frames, CrcAfter, Fit;
    var recs := SegmentRecords(c, prev, data, ents);
    var part := SegmentRecords(c, prev, data, ents[..m]);
    assert part == recs[..m + 2] && recs == part + recs[m + 2..];
    FramesAppend(c, prev, part, recs[m + 2..]);
    ReadSegment(c, prev, data, ents[..m], prev, tail, rest, metadata, acc);
  }

  /** What is read of a torn frame at the end of the last file. */
  lemma ReadTornFrame(c: Codec, l: Log, j: nat, z: nat, crc: uint64, off: nat, metadata: bytes, acc: seq<Entry>)
    requires c.Fits(l) && c.marshal(l) != [] && j < |Frame(c, l)|
    requires z > 0 ==> (off + j) % MIN_SECTOR_SIZE == 0 && off % 8 == 0
    requires j < FRAME_SIZE_LENGTH || j + z < |Frame(c, l)| ||
             !Passes(c, crc, Damaged(c.marshal(l), j - FRAME_SIZE_LENGTH))
    ensures var r := ReadLogs(c, Decoding([Frame(c, l)[..j] + Zeros(z)], crc, off), metadata, acc);
            var left := if j < FRAME_SIZE_LENGTH || j + z < |Frame(c, l)| then crc
                        else CrcSeen(c, crc, Damaged(c.marshal(l), j - FRAME_SIZE_LENGTH));
            EndsWith(r, acc, left, off) && r.metadata == metadata
  {
    hide Frame, Decode, Passes, CrcSeen;
    var f := Frame(c, l)[..j] + Zeros(z);
    if j == 0 {
      assert f == Zeros(z);
      LastFile(c, z, crc, off, metadata, acc);
    } else if j < FRAME_SIZE_LENGTH {
      if z > 0 {
        SectorAligned(off, j);
      }
      DecodeShort(c, f, crc, off);
    } else {
      DecodeTorn(c, l, j, z, crc, off);
    }
  }

  lemma SectorAligned(off: nat, j: nat)
    requires (off + j) % MIN_SECTOR_SIZE == 0 && off % 8 == 0
    ensures j % 8 == 0
  {
  }

  lemma DecodeShort(c: Codec, f: bytes, crc: uint64, off: nat)
    requires 0 < |f| < FRAME_SIZE_LENGTH
    ensures var d := Decoding([f], crc, off); Decode(c, d) == (d, UnexpectedEof)
  {
    assert [f][0] == f;
  }

  /** If the zeros change nothing, the record is read as if it were whole. */
  lemma ReadUndamaged(c: Codec, l: Log, j: nat, z: nat, crc: uint64, off: nat, metadata: bytes, acc: seq<Entry>)
    requires c.Valid() && c.Fits(l) && c.marshal(l) != [] && FRAME_SIZE_LENGTH <= j < |Frame(c, l)| <= j + z
    requires (off + j) % MIN_SECTOR_SIZE == 0 && (l.kind != CRC_TYPE ==> l.checksum == c.update(crc, l.data))
    requires c.unmarshal(Damaged(c.marshal(l), j - FRAME_SIZE_LENGTH)) == Some(l)
    ensures ReadLogs(c, Decoding([Frame(c, l)[..j] + Zeros(z)], crc, off), metadata, acc) ==
            ReadLogs(c, Decoding([Frame(c, l) + Zeros(j + z - |Frame(c, l)|)], crc, off), metadata, acc)
  {
    hide Frame, Decode, Damaged;
    var tail := Zeros(j + z - |Frame(c, l)|);
    var d := Decoding([Frame(c, l) + tail], crc, off);
    assert d.readers[0] == Frame(c, l) + tail && [tail] + d.readers[1..] == [tail];
    DecodeFrameReads(c, d, l, tail);
    DecodeTorn(c, l, j, z, crc, off);
  }

  /** The record at position i of a segment is not empty, and it is what the reader expects there. */
  lemma WrittenInSegment(c: Codec, prev: uint64, data: bytes, ents: seq<Entry>, i: nat)
    requires c.Valid() && i < |ents| + 2 && Fit(c, prev, SegmentRecords(c, prev, data, ents))
    ensures var recs := SegmentRecords(c, prev, data, ents);
            var l := Written(c, prev, recs, i);
            && c.Fits(l) && c.marshal(l) != []
            && l.checksum == c.update(CrcAfter(c, prev, recs[..i]), l.data)
  {
    var recs := SegmentRecords(c, prev, data, ents);
    FramesNext(c, prev, recs, i);
    assert recs[i].kind != 0 || recs[i].data != [];
    WrittenIsNotEmpty(c, recs[i].kind, recs[i].data, Written(c, prev, recs, i).checksum);
  }

  /** What is left of a segment after a crash: its first k bytes, and z zeros of the preallocated file. */
  ghost function TornSegment(c: Codec, prev: uint64, data: bytes, ents: seq<Entry>, k: nat, z: nat): bytes
    requires k <= |Frames(c, prev, SegmentRecords(c, prev, data, ents))|
  {
    Frames(c, prev, SegmentRecords(c, prev, data, ents))[..k] + Zeros(z)
  }

  /** Without a zero tail the file may end anywhere; a zero tail begins at a sector. */
  predicate CrashPoint(k: nat, z: nat) {
    z > 0 ==> k % MIN_SECTOR_SIZE == 0
  }

  /** A torn segment is read up to the torn record, unless that record is misread. */
  lemma ReadTornSegment(c: Codec, prev: uint64, data: bytes, ents: seq<Entry>, k: nat, z: nat, metadata: bytes,
                        acc: seq<Entry>)
    requires c.Valid() && (metadata == [] || metadata == data) && CrashPoint(k, z)
    requires Fit(c, prev, SegmentRecords(c, prev, data, ents))
    requires k <= |Frames(c, prev, SegmentRecords(c, prev, data, ents))|
    requires !Misread(c, prev, SegmentRecords(c, prev, data, ents), k, z)
    ensures var recs := SegmentRecords(c, prev, data, ents);
            var (n, crc) := TornEnd(c, prev, recs, k, z);
            var r := ReadLogs(c, Decoding([TornSegment(c, prev, data, ents, k, z)], prev, 0), metadata, acc);
            EndsWith(r, acc + EntriesOf(ents, n), crc, |Frames(c, prev, recs[..n])|)
  {
    hide ReadLogs, Frame, Frames, CrcAfter, Fit, Damaged, Written, Passes, SegmentRecords, Whole, CutAt, CrcSeen;
    var recs := SegmentRecords(c, prev, data, ents);
    SegmentSize(c, prev, data, ents);
    WholeFrames(c, prev, recs, k);
    var i := Whole(c, prev, recs, k);
    if i == |recs| {
      ReadWholeSegment(c, prev, data, ents, k, z, metadata, acc);
    } else {
      ReadCutSegment(c, prev, data, ents, k, z, i, metadata, acc);
    }
  }

  lemma SegmentSize(c: Codec, prev: uint64, data: bytes, ents: seq<Entry>)
    ensures |SegmentRecords(c, prev, data, ents)| == |ents| + 2
  {
  }

  lemma ReadWholeSegment(c: Codec, prev: uint64, data: bytes, ents: seq<Entry>, k: nat, z: nat, metadata: bytes,
                         acc: seq<Entry>)
    requires c.Valid() && (metadata == [] || metadata == data)
    requires Fit(c, prev, SegmentRecords(c, prev, data, ents))
    requires CutAt(c, prev, SegmentRecords(c, prev, data, ents), k, |ents| + 2)
    ensures var recs := SegmentRecords(c, prev, data, ents);
            var r := ReadLogs(c, Decoding([TornSegment(c, prev, data, ents, k, z)], prev, 0), metadata, acc);
            EndsWith(r, acc + EntriesOf(ents, |recs|), CrcAfter(c, prev, recs[..|recs|]),
                     |Frames(c, prev, recs[..|recs|])|)
  {
    hide ReadLogs, Frames, CrcAfter, Fit;
    var recs := SegmentRecords(c, prev, data, ents);
    ReadPart(c, prev, data, ents, |recs|, Zeros(z), metadata, acc);
    LastFile(c, z, CrcAfter(c, prev, recs[..|recs|]), |Frames(c, prev, recs[..|recs|])|, data,
             acc + EntriesOf(ents, |recs|));
  }

  lemma ReadCutSegment(c: Codec, prev: uint64, data: bytes, ents: seq<Entry>, k: nat, z: nat, i: nat, metadata: bytes,
                       acc: seq<Entry>)
    requires c.Valid() && (metadata == [] || metadata == data) && CrashPoint(k, z) && i < |ents| + 2
    requires Fit(c, prev, SegmentRecords(c, prev, data, ents))
    requires CutAt(c, prev, SegmentRecords(c, prev, data, ents), k, i)
    requires !Misread(c, prev, SegmentRecords(c, prev, data, ents), k, z)
    requires i == Whole(c, prev, SegmentRecords(c, prev, data, ents), k)
    ensures var recs := SegmentRecords(c, prev, data, ents);
            var (n, crc) := TornEnd(c, prev, recs, k, z);
            var r := ReadLogs(c, Decoding([TornSegment(c, prev, data, ents, k, z)], prev, 0), metadata, acc);
            EndsWith(r, acc + EntriesOf(ents, n), crc, |Frames(c, prev, recs[..n])|)
  {
    hide ReadLogs, Frame, Frames, CrcAfter, Fit, Damaged, Written, Passes, SegmentRecords, Whole, CrcSeen;
    var recs := SegmentRecords(c, prev, data, ents);
    SegmentSize(c, prev, data, ents);
    var l, crc, part := Written(c, prev, recs, i), CrcAfter(c, prev, recs[..i]), Frames(c, prev, recs[..i]);
    var j := k - |part|;
    var torn := Frame(c, l)[..j] + Zeros(z);
    WrittenInSegment(c, prev, data, ents, i);
    Regroup(part, Frame(c, l)[..j], Zeros(z));
    ReadPart(c, prev, data, ents, i, torn, metadata, acc);
    var md := if i < 2 then metadata else data;
    if j >= FRAME_SIZE_LENGTH && |Frame(c, l)| <= j + z &&
        c.unmarshal(Damaged(c.marshal(l), j - FRAME_SIZE_LENGTH)) == Some(l) {
      var z1 := j + z - |Frame(c, l)|;
      ReadUndamaged(c, l, j, z, crc, |part|, md, acc + EntriesOf(ents, i));
      ReadPart(c, prev, data, ents, i, Frame(c, l) + Zeros(z1), metadata, acc);
      FramesNext(c, prev, recs, i);
      Regroup(part, Frame(c, l), Zeros(z1));
      ReadPart(c, prev, data, ents, i + 1, Zeros(z1), metadata, acc);
      LastFile(c, z1, l.checksum, |part + Frame(c, l)|,
               if i + 1 < 2 then metadata else data, acc + EntriesOf(ents, i + 1));
    } else {
      ReadTornFrame(c, l, j, z, crc, |part|, md, acc + EntriesOf(ents, i));
    }
  }

  // ---------------------------------------------------------------- the whole log

  /** Closed files in front of other files of any contents. */
  lemma {:induction false} ReadClosed(c: Codec, prev: uint64, data: bytes, groups: seq<seq<Entry>>, last: seq<bytes>,
                                      crc: uint64, metadata: bytes, acc: seq<Entry>)
    requires c.Valid() && groups != [] && (crc == 0 || crc == prev) && (metadata == [] || metadata == data)
    requires FilesFit(c, prev, data, groups) && last != []
    ensures ReadLogs(c, Decoding(Files(c, prev, data, groups) + last, crc, 0), metadata, acc) ==
            ReadLogs(c, Decoding(last, LastCrc(c, prev, data, groups), 0), data, acc + Concat(groups))
    decreases |groups|
  {
    hide ReadLogs, Frames, CrcAfter, SegmentRecords;
    var recs := SegmentRecords(c, prev, data, groups[0]);
    var next := CrcAfter(c, prev, recs);
    var f, more := Frames(c, prev, recs), Files(c, next, data, groups[1..]) + last;
    assert f + [] == f && Files(c, prev, data, groups) + last == [f + []] + more;
    ReadSegment(c, prev, data, groups[0], crc, [], more, metadata, acc);
    NextFile(c, more, next, |f|, data, acc + groups[0]);
    if |groups| == 1 {
      assert more == last && Concat(groups) == groups[0];
    } else {
      ReadClosed(c, next, data, groups[1..], last, next, data, acc + groups[0]);
      assert acc + groups[0] + Concat(groups[1..]) == acc + Concat(groups);
    }
  }

  /** The files of a log are read back up to the files `last`. */
  lemma ReadUpToLast(c: Codec, data: bytes, groups: seq<seq<Entry>>, last: seq<bytes>)
    requires c.Valid() && FilesFit(c, 0, data, groups) && last != []
    ensures ReadLogs(c, Decoding(Files(c, 0, data, groups) + last, 0, 0), [], []) ==
            ReadLogs(c, Decoding(last, LastCrc(c, 0, data, groups), 0),
                     if groups == [] then [] else data, Concat(groups))
  {
    hide ReadLogs, FilesFit;
    if groups == [] {
      assert Files(c, 0, data, groups) + last == last;
    } else {
      ReadClosed(c, 0, data, groups, last, 0, [], []);
      assert [] + Concat(groups) == Concat(groups);
    }
  }

  /** The log as a crash leaves it: closed files, and a torn last one. */
  ghost function TornLog(c: Codec, data: bytes, groups: seq<seq<Entry>>, ents: seq<Entry>, k: nat, z: nat): seq<bytes>
    requires var prev := LastCrc(c, 0, data, groups); k <= |Frames(c, prev, SegmentRecords(c, prev, data, ents))|
  {
    Files(c, 0, data, groups) + [TornSegment(c, LastCrc(c, 0, data, groups), data, ents, k, z)]
  }

  /**
   However short the last file is cut, and however many zeros of the preallocated file follow the sectors that
   were written, all earlier entries and a prefix of its own are read back without an error, unless the zeros
   make another record of the torn one.
   */
  lemma CrashLosesOnlyTheEnd(c: Codec, data: bytes, groups: seq<seq<Entry>>, ents: seq<Entry>, k: nat, z: nat)
    requires c.Valid() && FilesFit(c, 0, data, groups + [ents]) && CrashPoint(k, z)
    requires var prev := LastCrc(c, 0, data, groups);
             && k <= |Frames(c, prev, SegmentRecords(c, prev, data, ents))|
             && !Misread(c, prev, SegmentRecords(c, prev, data, ents), k, z)
    ensures var prev := LastCrc(c, 0, data, groups); var recs := SegmentRecords(c, prev, data, ents);
            var (n, crc) := TornEnd(c, prev, recs, k, z);
            && n <= |ents| + 2
            && EndsWith(ReadLogs(c, Decoding(TornLog(c, data, groups, ents, k, z), 0, 0), [], []),
                        Concat(groups) + EntriesOf(ents, n), crc, |Frames(c, prev, recs[..n])|)
  {
    hide *;
    var prev := LastCrc(c, 0, data, groups);
    LastOfFiles(c, data, groups, ents);
    SegmentSize(c, prev, data, ents);
    var torn := TornSegment(c, prev, data, ents, k, z);
    TornLogIs(c, data, groups, ents, k, z);
    ReadUpToLast(c, data, groups, [torn]);
    ReadTornSegment(c, prev, data, ents, k, z, if groups == [] then [] else data, Concat(groups));
  }

  lemma NoMore(f: bytes)
    ensures [f] + [] == [f]
  {
  }

  lemma LastOfFiles(c: Codec, data: bytes, groups: seq<seq<Entry>>, ents: seq<Entry>)
    requires FilesFit(c, 0, data, groups + [ents])
    ensures var prev := LastCrc(c, 0, data, groups);
            FilesFit(c, 0, data, groups) && Fit(c, prev, SegmentRecords(c, prev, data, ents))
  {
    hide *;
    FilesLast(c, 0, data, groups, ents);
  }

  lemma TornLogIs(c: Codec, data: bytes, groups: seq<seq<Entry>>, ents: seq<Entry>, k: nat, z: nat)
    requires var prev := LastCrc(c, 0, data, groups); k <= |Frames(c, prev, SegmentRecords(c, prev, data, ents))|
    ensures TornLog(c, data, groups, ents, k, z) ==
            Files(c, 0, data, groups) + [TornSegment(c, LastCrc(c, 0, data, groups), data, ents, k, z)]
  {
  }

  // ---------------------------------------------------------------- appending after a crash

  /** Entries written from the checksum `from` can be read from the checksum crc. */
  ghost predicate Resumes(c: Codec, crc: uint64, from: uint64, more: seq<Entry>) {
    more == [] || c.update(crc, c.marshalEntry(more[0])) == c.update(from, c.marshalEntry(more[0]))
  }

  /** The checksum never forgets where it started, as a CRC never does. */
  ghost predicate Injective(update: (uint64, bytes) -> uint64) {
    forall x: uint64, y: uint64, data: bytes :: update(x, data) == update(y, data) ==> x == y
  }

  /** With such a checksum only the right one will do. */
  lemma ResumesExact(c: Codec, crc: uint64, from: uint64, more: seq<Entry>)
    requires Injective(c.update)
    ensures Resumes(c, crc, from, more) <==> more == [] || crc == from
  {
  }

  lemma ResumedFrames(c: Codec, crc: uint64, from: uint64, more: seq<Entry>)
    requires Resumes(c, crc, from, more)
    ensures var recs := EntryRecords(c, more);
            Frames(c, crc, recs) == Frames(c, from, recs) && (Fit(c, crc, recs) <==> Fit(c, from, recs))
  {
    hide Frame;
  }

  lemma DecodeWrongSum(c: Codec, d: Decoding, l: Log, tail: bytes)
    requires c.Valid() && c.Fits(l) && c.marshal(l) != [] && d.lastOffset >= 0
    requires d.readers != [] && d.readers[0] == Frame(c, l) + tail
    requires l.kind != CRC_TYPE && l.checksum != c.update(d.crc, l.data)
    ensures Decode(c, d).1.UnexpectedEof? || Decode(c, d).1.Corrupt?
  {
    hide Frame, EncodeFrameSize, TornWrite;
    FrameStarts(c, l, tail);
    var n, f := |c.marshal(l)|, d.readers[0];
    FrameSizeInverse(n);
    var end := FRAME_SIZE_LENGTH + n + PadBytes(n);
    assert f[FRAME_SIZE_LENGTH..end][..n] == f[FRAME_SIZE_LENGTH..FRAME_SIZE_LENGTH + n] == c.marshal(l);
    assert Decode(c, d) == DecodeFrame(c, d);
  }

  /** Appended entries are read exactly if the first of them has the checksum that the reader computes. */
  lemma ReadAppended(c: Codec, crc: uint64, from: uint64, more: seq<Entry>, z: nat, off: nat, metadata: bytes,
                     acc: seq<Entry>)
    requires c.Valid() && Fit(c, from, EntryRecords(c, more))
    ensures var r := ReadLogs(c, Decoding([Frames(c, from, EntryRecords(c, more)) + Zeros(z)], crc, off), metadata,
                              acc);
            r.Done? && r.entries == acc + more <==> Resumes(c, crc, from, more)
  {
    hide ReadLogs, Frames, CrcAfter, Fit, EntryRecords;
    var recs := EntryRecords(c, more);
    if Resumes(c, crc, from, more) {
      ResumedFrames(c, crc, from, more);
      var frames := Frames(c, crc, recs);
      ReadEntries(c, crc, more, Zeros(z), [], off, metadata, acc);
      assert [frames + Zeros(z)] + [] == [frames + Zeros(z)] && [Zeros(z)] + [] == [Zeros(z)];
      LastFile(c, z, CrcAfter(c, crc, recs), off + |frames|, metadata, acc + more);
    } else {
      ReadWrongSum(c, crc, from, more, z, off, metadata, acc);
      assert |acc + more| > |acc|;
    }
  }

  lemma ReadWrongSum(c: Codec, crc: uint64, from: uint64, more: seq<Entry>, z: nat, off: nat, metadata: bytes,
                     acc: seq<Entry>)
    requires c.Valid() && Fit(c, from, EntryRecords(c, more)) && !Resumes(c, crc, from, more)
    ensures var r := ReadLogs(c, Decoding([Frames(c, from, EntryRecords(c, more)) + Zeros(z)], crc, off), metadata,
                              acc);
            r.Failed? || r.entries == acc
  {
    hide Frame, Decode;
    var recs := EntryRecords(c, more);
    var l := LogOf(c, from, recs[0]);
    var tail := Frames(c, l.checksum, recs[1..]) + Zeros(z);
    Regroup(Frame(c, l), Frames(c, l.checksum, recs[1..]), Zeros(z));
    var d := Decoding([Frame(c, l) + tail], crc, off);
    WrittenIsNotEmpty(c, l.kind, l.data, l.checksum);
    assert d.readers[0] == Frame(c, l) + tail;
    DecodeWrongSum(c, d, l, tail);
  }

  /** The log after recovery from a crash and the saving of more entries. */
  ghost function ResumedLog(c: Codec, data: bytes, groups: seq<seq<Entry>>, ents: seq<Entry>, n: nat, crc: uint64,
                            more: seq<Entry>, z: nat): seq<bytes>
    requires n <= |ents| + 2
  {
    var prev := LastCrc(c, 0, data, groups);
    Files(c, 0, data, groups) +
    [Frames(c, prev, SegmentRecords(c, prev, data, ents)[..n]) + (Frames(c, crc, EntryRecords(c, more)) + Zeros(z))]
  }

  /**
   Recovery continues at the end of the last record that was read, with the running checksum of the reader. What
   is saved then is read back exactly if its first record has the checksum the next reader computes, that is,
   if the torn record did not enter the running checksum or left it without an effect.
   */
  lemma AppendAfterCrash(c: Codec, data: bytes, groups: seq<seq<Entry>>, ents: seq<Entry>, k: nat, z: nat,
                         more: seq<Entry>, z1: nat)
    requires c.Valid() && FilesFit(c, 0, data, groups + [ents]) && CrashPoint(k, z)
    requires var prev := LastCrc(c, 0, data, groups); var recs := SegmentRecords(c, prev, data, ents);
             && k <= |Frames(c, prev, recs)| && !Misread(c, prev, recs, k, z)
             && Fit(c, TornEnd(c, prev, recs, k, z).1, EntryRecords(c, more))
    ensures var prev := LastCrc(c, 0, data, groups); var recs := SegmentRecords(c, prev, data, ents);
            var (n, crc) := TornEnd(c, prev, recs, k, z);
            var r := ReadLogs(c, Decoding(TornLog(c, data, groups, ents, k, z), 0, 0), [], []);
            var s := ReadLogs(c, Decoding(ResumedLog(c, data, groups, ents, n, crc, more, z1), 0, 0), [], []);
            && EndsWith(r, Concat(groups) + EntriesOf(ents, n), crc, |Frames(c, prev, recs[..n])|)
            && (s.Done? && s.entries == r.entries + more <==> Resumes(c, CrcAfter(c, prev, recs[..n]), crc, more))
  {
    hide ReadLogs, Frame, Frames, CrcAfter, Fit, FilesFit, SegmentRecords, Files, LastCrc, Misread, TornEnd, TornLog,
        Resumes;
    var prev := LastCrc(c, 0, data, groups);
    var recs := SegmentRecords(c, prev, data, ents);
    SegmentSize(c, prev, data, ents);
    CrashLosesOnlyTheEnd(c, data, groups, ents, k, z);
    LastOfFiles(c, data, groups, ents);
    var (n, crc) := TornEnd(c, prev, recs, k, z);
    var md := if groups == [] then [] else data;
    var part, tail := Frames(c, prev, recs[..n]), Frames(c, crc, EntryRecords(c, more)) + Zeros(z1);
    ReadUpToLast(c, data, groups, [part + tail]);
    ReadPart(c, prev, data, ents, n, tail, md, Concat(groups));
    ReadAppended(c, CrcAfter(c, prev, recs[..n]), crc, more, z1, |part|,
                 if n < 2 then md else data, Concat(groups) + EntriesOf(ents, n));
  }
}
