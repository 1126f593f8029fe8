/** Reading the write-ahead log, and why it returns what was written. */
module WalRead {
  import opened Bytes
  import opened Options
  import opened WalFormat

  /** The state of the decoder: what is left of each file, the running checksum, the end of the last record. */
  datatype Decoding = Decoding(readers: seq<bytes>, crc: uint64, lastOffset: int)

  datatype Outcome = Read(log: Log) | Eof | UnexpectedEof | Corrupt

  predicate AllZero(s: bytes) {
    forall i :: 0 <= i < |s| ==> s[i] == 0
  }

  /** Whether a piece of `data`, split at the sector boundaries of the file, is all zero. */
  predicate ZeroSector(data: bytes, fileOff: nat)
    decreases |data|
  {
    data != [] && (var n := ChunkLength(data, fileOff); AllZero(data[..n]) || ZeroSector(data[n..], fileOff + n))
  }

  function ChunkLength(data: bytes, fileOff: nat): (n: nat)
    requires data != []
    ensures 0 < n <= |data|
  {
    var n := MIN_SECTOR_SIZE - fileOff % MIN_SECTOR_SIZE;
    if n > |data| then |data| else n
  }

  predicate TornWrite(d: Decoding, data: bytes)
    requires d.lastOffset >= 0
  {
    |d.readers| == 1 && ZeroSector(data, d.lastOffset + FRAME_SIZE_LENGTH)
  }

  function Size(readers: seq<bytes>): nat {
    if readers == [] then 0 else 1 + |readers[0]| + Size(readers[1..])
  }

  /** decodeRecord. A record that fails its checksum has already entered the running checksum. */
  function Decode(c: Codec, d: Decoding): (r: (Decoding, Outcome))
    requires d.lastOffset >= 0
    ensures r.0.lastOffset >= 0
    ensures r.1.Read? ==> Size(r.0.readers) < Size(d.readers)
    decreases |d.readers|
  {
    if d.readers == [] then (d, Eof)
    else
      var f, rest := d.readers[0], d.readers[1..];
      if f == [] || (|f| >= FRAME_SIZE_LENGTH && FromLittleEndian(f[..FRAME_SIZE_LENGTH]) == 0) then
        if rest == [] then (d.(readers := rest), Eof)
        else Decode(c, Decoding(rest, d.crc, 0))
      else if |f| < FRAME_SIZE_LENGTH then (d, UnexpectedEof)
      else DecodeFrame(c, d)
  }

  /** The rest of decodeRecord, once a non-zero length field has been read. */
  function DecodeFrame(c: Codec, d: Decoding): (r: (Decoding, Outcome))
    requires d.lastOffset >= 0 && d.readers != [] && |d.readers[0]| >= FRAME_SIZE_LENGTH
    ensures r.0.lastOffset >= 0
    ensures r.1.Read? ==> Size(r.0.readers) < Size(d.readers)
  {
    var f := d.readers[0];
    var (rec, pad) := DecodeFrameSize(LengthField(f));
    if |f| - FRAME_SIZE_LENGTH < rec + pad then (d, UnexpectedEof)
    else
      var end := FRAME_SIZE_LENGTH + rec + pad;
      var data := f[FRAME_SIZE_LENGTH..end];
      match c.unmarshal(data[..rec])
      case None => (d, if TornWrite(d, data) then UnexpectedEof else Corrupt)
      case Some(log) =>
        var crc := if log.kind != CRC_TYPE then c.update(d.crc, log.data) else d.crc;
        if log.kind != CRC_TYPE && log.checksum != crc then
          (d.(crc := crc), if TornWrite(d, data) then UnexpectedEof else Corrupt)
        else (Decoding([f[end..]] + d.readers[1..], crc, d.lastOffset + end), Read(log))
  }

  function LengthField(f: bytes): uint64
    requires |f| >= FRAME_SIZE_LENGTH
  {
    LittleEndianBound(f[..FRAME_SIZE_LENGTH]);
    Pow256Of8();
    FromLittleEndian(f[..FRAME_SIZE_LENGTH])
  }

  lemma {:induction false} LittleEndianBound(s: bytes)
    ensures FromLittleEndian(s) < Pow256(|s|)
  {
    if s != [] {
      LittleEndianBound(s[1..]);
    }
  }

  /** Check */
  predicate Checks(log: Log, crc: uint64) {
    (log.kind == CRC_TYPE && FromBigEndian(log.data) == crc) || log.checksum == crc
  }

  datatype Result = Done(metadata: bytes, entries: seq<Entry>, final: Decoding) | Failed

  /** The loop of ReadAll. Metadata is empty until a metadata record has been read. */
  function ReadLogs(c: Codec, d: Decoding, metadata: bytes, entries: seq<Entry>): Result
    requires d.lastOffset >= 0
    decreases Size(d.readers)
  {
    var (next, o) := Decode(c, d);
    match o
    case Eof => Done(metadata, entries, next)
    case UnexpectedEof => Done(metadata, entries, next)
    case Corrupt => Failed
    case Read(log) =>
      if log.kind == ENTRY_TYPE then
        var e := c.unmarshalEntry(log.data);
        if e.None? then Failed else ReadLogs(c, next, metadata, entries + [e.value])
      else if log.kind == META_DATA_TYPE then
        if metadata != [] && metadata != log.data then Failed else ReadLogs(c, next, log.data, entries)
      else if log.kind == CRC_TYPE then
        if next.crc != 0 && !Checks(log, next.crc) then Failed
        else ReadLogs(c, next.(crc := log.checksum), metadata, entries)
      else Failed
  }

  // ---------------------------------------------------------------- one frame

  lemma FrameStarts(c: Codec, l: Log, tail: bytes)
    requires c.Fits(l) && c.marshal(l) != []
    ensures var f := Frame(c, l) + tail;
            && |f| >= FRAME_SIZE_LENGTH && LengthField(f) == EncodeFrameSize(|c.marshal(l)|) != 0
            && f[FRAME_SIZE_LENGTH..FRAME_SIZE_LENGTH + |c.marshal(l)|] == c.marshal(l)
            && f[|Frame(c, l)|..] == tail
  {
    var size := EncodeFrameSize(|c.marshal(l)|);
    var f := Frame(c, l) + tail;
    assert f[..FRAME_SIZE_LENGTH] == LittleEndian(size, FRAME_SIZE_LENGTH);
    Pow256Of8();
    LittleEndianInverse(size, FRAME_SIZE_LENGTH);
    FrameSizeInverse(|c.marshal(l)|);
  }

  /** A frame at the front of a file is read back, and only it is consumed. */
  lemma DecodeFrameReads(c: Codec, d: Decoding, l: Log, tail: bytes)
    requires c.Valid() && c.Fits(l) && c.marshal(l) != [] && d.lastOffset >= 0
    requires d.readers != [] && d.readers[0] == Frame(c, l) + tail
    requires l.kind != CRC_TYPE ==> l.checksum == c.update(d.crc, l.data)
    ensures Decode(c, d) ==
            (Decoding([tail] + d.readers[1..],
                      if l.kind == CRC_TYPE then d.crc else l.checksum,
                      d.lastOffset + |Frame(c, l)|), Read(l))
  {
    FrameStarts(c, l, tail);
    var n := |c.marshal(l)|;
    FrameSizeInverse(n);
    var f := d.readers[0];
    var end := FRAME_SIZE_LENGTH + n + PadBytes(n);
    assert end == |Frame(c, l)|;
    assert f[FRAME_SIZE_LENGTH..end][..n] == f[FRAME_SIZE_LENGTH..FRAME_SIZE_LENGTH + n] == c.marshal(l);
    assert Decode(c, d) == DecodeFrame(c, d);
  }

  // ---------------------------------------------------------------- one segment

  lemma WrittenIsNotEmpty(c: Codec, kind: LogType, data: bytes, checksum: uint64)
    requires c.Valid() && (kind != 0 || data != [])
    ensures c.marshal(Log(kind, data, checksum)) != []
  {
  }

  lemma ReadEntry(c: Codec, crc: uint64, e: Entry, tail: bytes, rest: seq<bytes>, off: nat, metadata: bytes,
                  acc: seq<Entry>)
    requires c.Valid() && c.Fits(LogOf(c, crc, EntryRecord(c, e)))
    ensures var next := c.update(crc, c.marshalEntry(e));
            var frame := Frame(c, Log(ENTRY_TYPE, c.marshalEntry(e), next));
            ReadLogs(c, Decoding([frame + tail] + rest, crc, off), metadata, acc) ==
            ReadLogs(c, Decoding([tail] + rest, next, off + |frame|), metadata, acc + [e])
  {
    var data := c.marshalEntry(e);
    var l := Log(ENTRY_TYPE, data, c.update(crc, data));
    var d := Decoding([Frame(c, l) + tail] + rest, crc, off);
    assert d.readers[1..] == rest;
    WrittenIsNotEmpty(c, ENTRY_TYPE, data, l.checksum);
    DecodeFrameReads(c, d, l, tail);
  }

  lemma {:induction false} ReadEntries(c: Codec, crc: uint64, ents: seq<Entry>, tail: bytes, rest: seq<bytes>,
                                       off: nat, metadata: bytes, acc: seq<Entry>)
    requires c.Valid() && Fit(c, crc, EntryRecords(c, ents))
    ensures var recs := EntryRecords(c, ents);
            ReadLogs(c, Decoding([Frames(c, crc, recs) + tail] + rest, crc, off), metadata, acc) ==
            ReadLogs(c, Decoding([tail] + rest, CrcAfter(c, crc, recs), off + |Frames(c, crc, recs)|), metadata,
                     acc + ents)
    decreases |ents|
  {
    hide ReadLogs, Frame;
    var recs := EntryRecords(c, ents);
    if ents == [] {
      assert Frames(c, crc, recs) + tail == tail && acc + ents == acc;
    } else {
      var next := c.update(crc, recs[0].data);
      var frame := Frame(c, Log(ENTRY_TYPE, recs[0].data, next));
      var more := Frames(c, next, recs[1..]);
      assert recs[1..] == EntryRecords(c, ents[1..]);
      assert Frames(c, crc, recs) + tail == frame + (more + tail);
      ReadEntry(c, crc, ents[0], more + tail, rest, off, metadata, acc);
      ReadEntries(c, next, ents[1..], tail, rest, off + |frame|, metadata, acc + [ents[0]]);
      assert acc + [ents[0]] + ents[1..] == acc + ents;
    }
  }

  lemma BoundaryChecks(prev: uint64, checksum: uint64)
    ensures Checks(Log(CRC_TYPE, BigEndian(prev, 8), checksum), prev)
  {
    Pow256Of8();
    BigEndianInverse(prev, 8);
  }

  /** A segment that was started with the checksum prev may follow a reader that has arrived at crc. */
  ghost predicate Continues(c: Codec, prev: uint64, crc: uint64) {
    crc == 0 || crc == prev || crc == c.update(prev, BigEndian(prev, 8))
  }

  lemma ContinuesExact(c: Codec, prev: uint64, crc: uint64)
    ensures var l := Log(CRC_TYPE, BigEndian(prev, 8), c.update(prev, BigEndian(prev, 8)));
            Continues(c, prev, crc) <==> crc == 0 || Checks(l, crc)
  {
    Pow256Of8();
    BigEndianInverse(prev, 8);
  }

  /** The checksum record: the reader takes over the writer's running checksum. */
  lemma ReadCrcRecord(c: Codec, l: Log, crc: uint64, tail: bytes, rest: seq<bytes>, off: nat, metadata: bytes,
                      acc: seq<Entry>)
    requires c.Valid() && c.Fits(l) && l.kind == CRC_TYPE && l.data != [] && (crc == 0 || Checks(l, crc))
    ensures ReadLogs(c, Decoding([Frame(c, l) + tail] + rest, crc, off), metadata, acc) ==
            ReadLogs(c, Decoding([tail] + rest, l.checksum, off + |Frame(c, l)|), metadata, acc)
  {
    hide Frame;
    var d := Decoding([Frame(c, l) + tail] + rest, crc, off);
    assert d.readers[1..] == rest;
    WrittenIsNotEmpty(c, CRC_TYPE, l.data, l.checksum);
    DecodeFrameReads(c, d, l, tail);
  }

  lemma ReadCrc(c: Codec, prev: uint64, crc: uint64, tail: bytes, rest: seq<bytes>, off: nat, metadata: bytes,
                acc: seq<Entry>)
    requires c.Valid() && Continues(c, prev, crc) && c.Fits(LogOf(c, prev, Record(CRC_TYPE, BigEndian(prev, 8))))
    ensures var next := c.update(prev, BigEndian(prev, 8));
            var frame := Frame(c, Log(CRC_TYPE, BigEndian(prev, 8), next));
            ReadLogs(c, Decoding([frame + tail] + rest, crc, off), metadata, acc) ==
            ReadLogs(c, Decoding([tail] + rest, next, off + |frame|), metadata, acc)
  {
    hide ReadLogs, Frame, BigEndian;
    var l := Log(CRC_TYPE, BigEndian(prev, 8), c.update(prev, BigEndian(prev, 8)));
    ContinuesExact(c, prev, crc);
    ReadCrcRecord(c, l, crc, tail, rest, off, metadata, acc);
  }

  lemma ReadMetadata(c: Codec, crc: uint64, data: bytes, tail: bytes, rest: seq<bytes>, off: nat, metadata: bytes,
                     acc: seq<Entry>)
    requires c.Valid() && (metadata == [] || metadata == data) && c.Fits(LogOf(c, crc, Record(META_DATA_TYPE, data)))
    ensures var next := c.update(crc, data);
            var frame := Frame(c, Log(META_DATA_TYPE, data, next));
            ReadLogs(c, Decoding([frame + tail] + rest, crc, off), metadata, acc) ==
            ReadLogs(c, Decoding([tail] + rest, next, off + |frame|), data, acc)
  {
    var l := Log(META_DATA_TYPE, data, c.update(crc, data));
    var d := Decoding([Frame(c, l) + tail] + rest, crc, off);
    assert d.readers[1..] == rest;
    WrittenIsNotEmpty(c, META_DATA_TYPE, data, l.checksum);
    DecodeFrameReads(c, d, l, tail);
  }

  lemma OneRecord(c: Codec, crc: uint64, r: Record)
    ensures Frames(c, crc, [r]) == Frame(c, Log(r.kind, r.data, c.update(crc, r.data)))
    ensures CrcAfter(c, crc, [r]) == c.update(crc, r.data)
    ensures Fit(c, crc, [r]) <==> c.Fits(LogOf(c, crc, r))
  {
    assert [r][1..] == [];
  }

  lemma HeaderFrames(c: Codec, prev: uint64, data: bytes)
    ensures var crc1 := c.update(prev, BigEndian(prev, 8)); var crc2 := c.update(crc1, data);
            && Frames(c, prev, Header(prev, data)) ==
               Frame(c, Log(CRC_TYPE, BigEndian(prev, 8), crc1)) + Frame(c, Log(META_DATA_TYPE, data, crc2))
            && CrcAfter(c, prev, Header(prev, data)) == crc2
            && (Fit(c, prev, Header(prev, data)) <==>
                c.Fits(LogOf(c, prev, Record(CRC_TYPE, BigEndian(prev, 8)))) &&
                c.Fits(LogOf(c, crc1, Record(META_DATA_TYPE, data))))
  {
    hide Frame;
    var h := Header(prev, data);
    assert h[1..] == [h[1]];
    var crc1 := c.update(prev, BigEndian(prev, 8));
    OneRecord(c, crc1, h[1]);
    assert h[0].data == BigEndian(prev, 8);
  }

  /** A whole segment is read back, starting from no checksum or from the one the segment continues. */
  lemma ReadSegment(c: Codec, prev: uint64, data: bytes, ents: seq<Entry>, crc: uint64, tail: bytes, rest: seq<bytes>,
                    metadata: bytes, acc: seq<Entry>)
    requires c.Valid() && Continues(c, prev, crc) && (metadata == [] || metadata == data)
    requires Fit(c, prev, SegmentRecords(c, prev, data, ents))
    ensures var recs := SegmentRecords(c, prev, data, ents);
            ReadLogs(c, Decoding([Frames(c, prev, recs) + tail] + rest, crc, 0), metadata, acc) ==
            ReadLogs(c, Decoding([tail] + rest, CrcAfter(c, prev, recs), |Frames(c, prev, recs)|), data, acc + ents)
  {
    hide ReadLogs, Frame, Frames, CrcAfter, Header, Fit;
    var crc1 := c.update(prev, BigEndian(prev, 8));
    var crc2 := c.update(crc1, data);
    var f1, f2 := Frame(c, Log(CRC_TYPE, BigEndian(prev, 8), crc1)), Frame(c, Log(META_DATA_TYPE, data, crc2));
    var f3 := Frames(c, crc2, EntryRecords(c, ents));
    HeaderFrames(c, prev, data);
    FramesAppend(c, prev, Header(prev, data), EntryRecords(c, ents));
    assert f1 + f2 + f3 + tail == f1 + (f2 + (f3 + tail));
    ReadCrc(c, prev, crc, f2 + (f3 + tail), rest, 0, metadata, acc);
    ReadMetadata(c, crc1, data, f3 + tail, rest, |f1|, metadata, acc);
    ReadEntries(c, crc2, ents, tail, rest, |f1| + |f2|, data, acc);
  }

  // ---------------------------------------------------------------- chains of segments

  /** The last file has been preallocated: zeros follow its records. */
  function Padded(files: seq<bytes>, zeros: nat): seq<bytes>
    requires files != []
  {
    files[..|files| - 1] + [files[|files| - 1] + Zeros(zeros)]
  }

  lemma PaddedCons(f: bytes, more: seq<bytes>, zeros: nat)
    requires more != []
    ensures Padded([f] + more, zeros) == [f + []] + Padded(more, zeros)
  {
    assert ([f] + more)[..|more|] == [f] + more[..|more| - 1];
    assert f + [] == f;
  }

  lemma NextFile(c: Codec, rest: seq<bytes>, crc: uint64, off: nat, metadata: bytes, acc: seq<Entry>)
    requires rest != []
    ensures ReadLogs(c, Decoding([[]] + rest, crc, off), metadata, acc) ==
            ReadLogs(c, Decoding(rest, crc, 0), metadata, acc)
  {
    var d := Decoding([[]] + rest, crc, off);
    assert d.readers[0] == [] && d.readers[1..] == rest;
    assert Decode(c, d) == Decode(c, Decoding(rest, crc, 0));
  }

  lemma LastFile(c: Codec, zeros: nat, crc: uint64, off: nat, metadata: bytes, acc: seq<Entry>)
    ensures var r := ReadLogs(c, Decoding([Zeros(zeros)], crc, off), metadata, acc);
            r.Done? && r.metadata == metadata && r.entries == acc && r.final.crc == crc && r.final.lastOffset == off
  {
    var d := Decoding([Zeros(zeros)], crc, off);
    if zeros >= FRAME_SIZE_LENGTH {
      ZeroIsZeros(Zeros(zeros)[..FRAME_SIZE_LENGTH]);
    }
    assert d.readers[1..] == [];
    assert Decode(c, d).1.Eof? || Decode(c, d).1.UnexpectedEof?;
  }

  /** The checksum that the last file ends with. */
  ghost function LastCrc(c: Codec, prev: uint64, data: bytes, groups: seq<seq<Entry>>): uint64
    decreases |groups|
  {
    if groups == [] then prev
    else LastCrc(c, CrcAfter(c, prev, SegmentRecords(c, prev, data, groups[0])), data, groups[1..])
  }

  /** Every record of the files fits. */
  ghost predicate FilesFit(c: Codec, prev: uint64, data: bytes, groups: seq<seq<Entry>>)
    decreases |groups|
  {
    groups != [] ==>
      var recs := SegmentRecords(c, prev, data, groups[0]);
      Fit(c, prev, recs) && FilesFit(c, CrcAfter(c, prev, recs), data, groups[1..])
  }

  lemma {:induction false} ReadFiles(c: Codec, prev: uint64, data: bytes, groups: seq<seq<Entry>>, zeros: nat,
                                     crc: uint64, metadata: bytes, acc: seq<Entry>)
    requires c.Valid() && groups != [] && Continues(c, prev, crc) && (metadata == [] || metadata == data)
    requires FilesFit(c, prev, data, groups)
    ensures var files := Files(c, prev, data, groups);
            var r := ReadLogs(c, Decoding(Padded(files, zeros), crc, 0), metadata, acc);
            && r.Done? && r.metadata == data && r.entries == acc + Concat(groups)
            && r.final.crc == LastCrc(c, prev, data, groups) && r.final.lastOffset == |files[|files| - 1]|
    decreases |groups|
  {
    hide ReadLogs, Frames, CrcAfter, SegmentRecords;
    var recs := SegmentRecords(c, prev, data, groups[0]);
    var next := CrcAfter(c, prev, recs);
    var f, more := Frames(c, prev, recs), Files(c, next, data, groups[1..]);
    if |groups| == 1 {
      assert Padded([f], zeros) == [f + Zeros(zeros)] + [];
      ReadSegment(c, prev, data, groups[0], crc, Zeros(zeros), [], metadata, acc);
      assert [Zeros(zeros)] + [] == [Zeros(zeros)];
      LastFile(c, zeros, next, |f|, data, acc + groups[0]);
      assert Concat(groups) == groups[0];
    } else {
      var rest := Padded(more, zeros);
      PaddedCons(f, more, zeros);
      ReadSegment(c, prev, data, groups[0], crc, [], rest, metadata, acc);
      NextFile(c, rest, next, |f|, data, acc + groups[0]);
      ReadFiles(c, next, data, groups[1..], zeros, next, data, acc + groups[0]);
      assert acc + groups[0] + Concat(groups[1..]) == acc + Concat(groups);
      assert more[|more| - 1] == ([f] + more)[|more|];
    }
  }

  /** The files from the j-th on are the files written for the groups from the j-th on. */
  lemma {:induction false} FilesSuffix(c: Codec, prev: uint64, data: bytes, groups: seq<seq<Entry>>, j: nat)
    requires j <= |groups|
    ensures Files(c, prev, data, groups)[j..] == Files(c, LastCrc(c, prev, data, groups[..j]), data, groups[j..])
    ensures FilesFit(c, prev, data, groups) ==> FilesFit(c, LastCrc(c, prev, data, groups[..j]), data, groups[j..])
    decreases j
  {
    hide Frames, CrcAfter, SegmentRecords, Fit;
    if j == 0 {
      assert groups[..0] == [] && groups[0..] == groups;
    } else {
      var next := CrcAfter(c, prev, SegmentRecords(c, prev, data, groups[0]));
      FilesSuffix(c, next, data, groups[1..], j - 1);
      assert groups[1..][..j - 1] == groups[..j][1..] && groups[1..][j - 1..] == groups[j..];
      assert Files(c, prev, data, groups)[j..] == Files(c, next, data, groups[1..])[j - 1..];
    }
  }

  /**
   Whatever entries were written and wherever the segments were cut, a fresh reader of any suffix of the
   segments gets back the entries of that suffix, in order, and ends at the end of the last record.
   */
  lemma ReadAnySuffix(c: Codec, data: bytes, groups: seq<seq<Entry>>, j: nat, zeros: nat)
    requires c.Valid() && j < |groups| && FilesFit(c, 0, data, groups)
    ensures var files := Files(c, 0, data, groups);
            var r := ReadLogs(c, Decoding(Padded(files[j..], zeros), 0, 0), [], []);
            && r.Done? && r.metadata == data && r.entries == Concat(groups[j..])
            && r.final.lastOffset == |files[|files| - 1]| && r.final.crc == LastCrc(c, 0, data, groups)
  {
    hide ReadLogs, Frames, CrcAfter, SegmentRecords;
    FilesSuffix(c, 0, data, groups, j);
    var prev := LastCrc(c, 0, data, groups[..j]);
    ReadFiles(c, prev, data, groups[j..], zeros, 0, [], []);
    LastCrcSuffix(c, 0, data, groups, j);
    assert [] + Concat(groups[j..]) == Concat(groups[j..]);
  }

  lemma {:induction false} LastCrcSuffix(c: Codec, prev: uint64, data: bytes, groups: seq<seq<Entry>>, j: nat)
    requires j <= |groups|
    ensures LastCrc(c, LastCrc(c, prev, data, groups[..j]), data, groups[j..]) == LastCrc(c, prev, data, groups)
    decreases j
  {
    if j == 0 {
      assert groups[..0] == [] && groups[0..] == groups;
    } else {
      LastCrcSuffix(c, CrcAfter(c, prev, SegmentRecords(c, prev, data, groups[0])), data, groups[1..], j - 1);
      assert groups[1..][..j - 1] == groups[..j][1..] && groups[1..][j - 1..] == groups[j..];
    }
  }

  /**
   After a clean end, the reader's checksum and offset are where the writer stopped: records appended
   there are read back with those before them.
   */
  lemma AppendAfterRecovery(c: Codec, data: bytes, groups: seq<seq<Entry>>, ents: seq<Entry>, more: seq<Entry>,
                            zeros: nat, z: nat)
    requires c.Valid() && FilesFit(c, 0, data, groups + [ents + more])
    ensures var files := Files(c, 0, data, groups + [ents]);
            var r := ReadLogs(c, Decoding(Padded(files, zeros), 0, 0), [], []);
            && r.Done? && r.final.lastOffset == |files[|groups|]|
            && var longer := files[|groups| := files[|groups|] + Frames(c, r.final.crc, EntryRecords(c, more))];
               var s := ReadLogs(c, Decoding(Padded(longer, z), 0, 0), [], []);
               s.Done? && s.metadata == data && s.entries == r.entries + more
  {
    hide *;
    assert Continues(c, 0, 0) by {
      ContinuesExact(c, 0, 0);
    }
    LongerFile(c, 0, data, groups, ents, more);
    ReadFiles(c, 0, data, groups + [ents], zeros, 0, [], []);
    ReadFiles(c, 0, data, groups + [ents + more], z, 0, [], []);
    ConcatLast(groups, ents);
    ConcatLast(groups, ents + more);
    LastEntries([], Concat(groups), ents, more);
  }

  lemma LastEntries(none: seq<Entry>, front: seq<Entry>, ents: seq<Entry>, more: seq<Entry>)
    requires none == []
    ensures none + (front + (ents + more)) == none + (front + ents) + more
  {
  }

  lemma {:induction false} ConcatLast<T>(groups: seq<seq<T>>, last: seq<T>)
    ensures Concat(groups + [last]) == Concat(groups) + last
    decreases |groups|
  {
    if groups == [] {
      assert groups + [last] == [last] && Concat([last]) == last + Concat([last][1..]);
    } else {
      assert (groups + [last])[1..] == groups[1..] + [last];
      ConcatLast(groups[1..], last);
    }
  }

  /** Appending entries to the last group appends their frames to the last file. */
  lemma {:induction false} LongerFile(c: Codec, prev: uint64, data: bytes, groups: seq<seq<Entry>>, ents: seq<Entry>,
                                      more: seq<Entry>)
    ensures var files := Files(c, prev, data, groups + [ents]);
            Files(c, prev, data, groups + [ents + more]) ==
            files[|groups| := files[|groups|] +
                  Frames(c, LastCrc(c, prev, data, groups + [ents]), EntryRecords(c, more))]
    ensures FilesFit(c, prev, data, groups + [ents + more]) <==>
            FilesFit(c, prev, data, groups + [ents]) &&
            Fit(c, LastCrc(c, prev, data, groups + [ents]), EntryRecords(c, more))
    decreases |groups|
  {
    if groups == [] {
      LongerSegment(c, prev, data, ents, more);
      OneFile(c, prev, data, ents);
      OneFile(c, prev, data, ents + more);
      assert groups + [ents] == [ents] && groups + [ents + more] == [ents + more];
    } else {
      hide Frames, CrcAfter, SegmentRecords, Fit;
      var next := CrcAfter(c, prev, SegmentRecords(c, prev, data, groups[0]));
      assert (groups + [ents])[1..] == groups[1..] + [ents] &&
             (groups + [ents + more])[1..] == groups[1..] + [ents + more];
      LongerFile(c, next, data, groups[1..], ents, more);
    }
  }

  lemma OneFile(c: Codec, prev: uint64, data: bytes, ents: seq<Entry>)
    ensures Files(c, prev, data, [ents]) == [Frames(c, prev, SegmentRecords(c, prev, data, ents))]
    ensures LastCrc(c, prev, data, [ents]) == CrcAfter(c, prev, SegmentRecords(c, prev, data, ents))
    ensures FilesFit(c, prev, data, [ents]) <==> Fit(c, prev, SegmentRecords(c, prev, data, ents))
  {
    hide Fit, Frames, CrcAfter, SegmentRecords;
    assert [ents][1..] == [];
  }

  lemma LongerSegment(c: Codec, prev: uint64, data: bytes, ents: seq<Entry>, more: seq<Entry>)
    ensures var recs := SegmentRecords(c, prev, data, ents);
            && Frames(c, prev, SegmentRecords(c, prev, data, ents + more)) ==
               Frames(c, prev, recs) + Frames(c, CrcAfter(c, prev, recs), EntryRecords(c, more))
            && (Fit(c, prev, SegmentRecords(c, prev, data, ents + more)) <==>
                Fit(c, prev, recs) && Fit(c, CrcAfter(c, prev, recs), EntryRecords(c, more)))
  {
    hide Frames, CrcAfter, Fit;
    var recs := SegmentRecords(c, prev, data, ents);
    assert EntryRecords(c, ents + more) == EntryRecords(c, ents) + EntryRecords(c, more);
    assert SegmentRecords(c, prev, data, ents + more) == recs + EntryRecords(c, more);
    FramesAppend(c, prev, recs, EntryRecords(c, more));
  }

  /** One more group is one more file, which continues the checksum of the files before it. */
  lemma {:induction false} FilesLast(c: Codec, prev: uint64, data: bytes, groups: seq<seq<Entry>>, ents: seq<Entry>)
    ensures var crc := LastCrc(c, prev, data, groups); var recs := SegmentRecords(c, crc, data, ents);
            && Files(c, prev, data, groups + [ents]) == Files(c, prev, data, groups) + [Frames(c, crc, recs)]
            && LastCrc(c, prev, data, groups + [ents]) == CrcAfter(c, crc, recs)
            && (FilesFit(c, prev, data, groups + [ents]) <==> FilesFit(c, prev, data, groups) && Fit(c, crc, recs))
    decreases |groups|
  {
    hide Frames, CrcAfter, SegmentRecords, Fit;
    if groups == [] {
      OneFile(c, prev, data, ents);
      assert groups + [ents] == [ents];
    } else {
      var next := CrcAfter(c, prev, SegmentRecords(c, prev, data, groups[0]));
      assert (groups + [ents])[1..] == groups[1..] + [ents];
      FilesLast(c, next, data, groups[1..], ents);
    }
  }
}
