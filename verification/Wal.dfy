/** The write-ahead log: encoder, decoder, and the log with its segments. */
module WalImpl {
  import opened Bytes
  import opened Options
  import opened WalFormat
  import opened WalRead
  import opened PageWriterImpl

  const SEGMENT_SIZE_BYTES: int := 8_000_000
  const WAL_PAGE_BYTES: int := 8 * MIN_SECTOR_SIZE

  class Encoder {
    const c: Codec
    const w: PageWriter
    var crc: uint64

    ghost predicate Valid()
      reads this, w, w.buf
    {
      w.Valid()
    }

    /** All bytes of the file, written or buffered. */
    ghost function Contents(): bytes
      requires Valid()
      reads this, w, w.buf
    {
      w.Accepted()
    }

    constructor (c: Codec, prevCrc: uint64, pageOffset: nat)
      ensures Valid() && Contents() == [] && crc == prevCrc && fresh(w) && fresh(w.buf) && this.c == c
    {
      this.c, crc := c, prevCrc;
      w := new PageWriter(WAL_PAGE_BYTES, pageOffset);
    }

    /** encode: the checksum runs over the data, and the frame is accepted by the page writer. */
    method Encode(kind: LogType, data: bytes)
      requires Valid()
      modifies this, w, w.buf
      ensures Valid() && crc == c.update(old(crc), data)
      ensures Contents() == old(Contents()) + Frame(c, Log(kind, data, crc))
    {
      crc := c.update(crc, data);
      var payload := c.marshal(Log(kind, data, crc));
      ghost var before := w.Accepted();
      ghost var depth;
      var n;
      var size := LittleEndian(EncodeFrameSize(|payload|), FRAME_SIZE_LENGTH);
      n, depth := w.Write(size);
      n, depth := w.Write(payload + Zeros(PadBytes(|payload|)));
      assert before + size + (payload + Zeros(PadBytes(|payload|))) ==
             before + (size + payload + Zeros(PadBytes(|payload|)));
    }

    method Flush()
      requires Valid()
      modifies w
      ensures Valid() && Contents() == old(Contents()) && w.sink == Contents()
    {
      w.Flush();
    }
  }

  class Decoder {
    const c: Codec
    var readers: seq<bytes>
    var crc: uint64
    var lastOffset: nat

    ghost function View(): Decoding
      reads this
    {
      Decoding(readers, crc, lastOffset)
    }

    constructor (c: Codec, files: seq<bytes>)
      ensures View() == Decoding(files, 0, 0) && this.c == c
    {
      this.c, readers, crc, lastOffset := c, files, 0, 0;
    }

    /** The first loop of isTornWrite: the data split at the sector boundaries of the file. */
    method Chunks(data: bytes) returns (chunks: seq<bytes>)
      ensures ZeroSector(data, lastOffset + FRAME_SIZE_LENGTH) <==> exists i :: 0 <= i < |chunks| && AllZero(chunks[i])
    {
      hide AllZero, ZeroSector, ChunkLength;
      var fileOff, curOff := lastOffset + FRAME_SIZE_LENGTH, 0;
      chunks := [];
      assert data[0..] == data;
      while curOff < |data|
        invariant 0 <= curOff <= |data| && fileOff >= 0
        invariant ZeroSector(data, lastOffset + FRAME_SIZE_LENGTH) <==>
                  (exists i :: 0 <= i < |chunks| && AllZero(chunks[i])) || ZeroSector(data[curOff..], fileOff)
      {
        var n := MIN_SECTOR_SIZE - fileOff % MIN_SECTOR_SIZE;
        if n > |data| - curOff {
          n := |data| - curOff;
        }
        NextChunk(data, curOff, fileOff, n);
        MoreChunks(chunks, data[curOff..curOff + n]);
        chunks := chunks + [data[curOff..curOff + n]];
        fileOff := fileOff + n;
        curOff := curOff + n;
      }
      NoMoreChunks(data[curOff..], fileOff);
    }

    /** isTornWrite */
    method IsTornWrite(data: bytes) returns (torn: bool)
      ensures torn <==> TornWrite(View(), data)
    {
      if |readers| != 1 {
        return false;
      }
      hide ZeroSector;
      var chunks := Chunks(data);
      for i := 0 to |chunks|
        invariant forall j :: 0 <= j < i ==> !AllZero(chunks[j])
      {
        if AllZero(chunks[i]) {
          return true;
        }
      }
      torn := false;
    }

    /** decodeRecord */
    method DecodeRecord() returns (o: Outcome)
      modifies this
      ensures (View(), o) == Decode(c, old(View()))
      decreases |readers|
    {
      if readers == [] {
        return Eof;
      }
      var f := readers[0];
      if f == [] || (|f| >= FRAME_SIZE_LENGTH && LengthField(f) == 0) {
        readers := readers[1..];
        if readers == [] {
          return Eof;
        }
        lastOffset := 0;
        o := DecodeRecord();
      } else if |f| < FRAME_SIZE_LENGTH {
        o := UnexpectedEof;
      } else {
        o := DecodeBody(f);
      }
    }

    /** decodeRecord, after the length field. */
    method DecodeBody(f: bytes) returns (o: Outcome)
      requires readers != [] && readers[0] == f && |f| >= FRAME_SIZE_LENGTH
      modifies this
      ensures (View(), o) == DecodeFrame(c, old(View()))
    {
      var (rec, pad) := DecodeFrameSize(LengthField(f));
      if |f| - FRAME_SIZE_LENGTH < rec + pad {
        return UnexpectedEof;
      }
      var end := FRAME_SIZE_LENGTH + rec + pad;
      var data := f[FRAME_SIZE_LENGTH..end];
      var torn := IsTornWrite(data);
      var log := c.unmarshal(data[..rec]);
      if log.None? {
        return if torn then UnexpectedEof else Corrupt;
      }
      if log.value.kind != CRC_TYPE {
        crc := c.update(crc, log.value.data);
        if log.value.checksum != crc {
          return if torn then UnexpectedEof else Corrupt;
        }
      }
      readers := [f[end..]] + readers[1..];
      lastOffset := lastOffset + end;
      o := Read(log.value);
    }

    /** The loop of ReadAll; the result is the metadata and the entries, or a failure. */
    method ReadAll() returns (r: Result)
      modifies this
      ensures r == ReadLogs(c, old(View()), [], [])
    {
      ghost var d := View();
      var metadata: bytes, entries: seq<Entry> := [], [];
      while true
        invariant ReadLogs(c, View(), metadata, entries) == ReadLogs(c, d, [], [])
        decreases Size(readers)
      {
        var o := DecodeRecord();
        match o
        case Eof => return Done(metadata, entries, Decoding(readers, crc, lastOffset));
        case UnexpectedEof => return Done(metadata, entries, Decoding(readers, crc, lastOffset));
        case Corrupt => return Failed;
        case Read(log) =>
          if log.kind == ENTRY_TYPE {
            var e := c.unmarshalEntry(log.data);
            if e.None? {
              return Failed;
            }
            entries := entries + [e.value];
          } else if log.kind == META_DATA_TYPE {
            if metadata != [] && metadata != log.data {
              return Failed;
            }
            metadata := log.data;
          } else if log.kind == CRC_TYPE {
            if crc != 0 && !Checks(log, crc) {
              return Failed;
            }
            crc := log.checksum;
          } else {
            return Failed;
          }
      }
    }
  }

  /** The index n places after another; indices wrap at 64 bits. */
  function IndexFrom(index: uint64, n: nat): uint64 {
    (index + n) % 0x1_0000_0000_0000_0000
  }

  lemma IndexNext(index: uint64, n: nat)
    ensures IndexFrom(index, 0) == index && IndexFrom(IndexFrom(index, n), 1) == IndexFrom(index, n + 1)
  {
  }

  /** One more file has been closed, as soon as it had reached the size of a segment. */
  ghost predicate Closes(before: seq<bytes>, files: seq<bytes>) {
    |files| == |before| + 1 && files[..|before|] == before && |files[|before|]| >= 8_000_000
  }

  class WAL {
    const c: Codec
    const metadata: bytes
    var files: seq<bytes>           // the closed segments
    var encoder: Encoder            // writes the open segment
    var lastEntryIndex: uint64
    ghost var groups: seq<seq<Entry>>   // the entries of the closed segments
    ghost var current: seq<Entry>       // the entries of the open segment

    /** The files hold what was written, and the encoder continues their checksum. */
    ghost predicate Valid()
      reads this, encoder, encoder.w, encoder.w.buf
    {
      && encoder.Valid() && encoder.c == c
      && files == Files(c, 0, metadata, groups)
      && var prev := LastCrc(c, 0, metadata, groups);
      && encoder.Contents() == Frames(c, prev, SegmentRecords(c, prev, metadata, current))
      && encoder.crc == CrcAfter(c, prev, SegmentRecords(c, prev, metadata, current))
    }

    /** No entry is left in the buffer. */
    ghost predicate Durable()
      requires Valid()
      reads this, encoder, encoder.w, encoder.w.buf
    {
      current == [] || encoder.w.sink == encoder.Contents()
    }

    /** All entries saved so far. */
    ghost function Entries(): seq<Entry>
      reads this
    {
      Concat(groups) + current
    }

    constructor (c: Codec, metadata: bytes)
      ensures Valid() && Entries() == [] && fresh(encoder) && fresh(encoder.w) && fresh(encoder.w.buf)
      ensures this.c == c && this.metadata == metadata && lastEntryIndex == 0
    {
      this.c, this.metadata, files, lastEntryIndex := c, metadata, [], 0;
      groups, current := [], [];
      var e := StartSegment(c, 0, metadata);
      encoder := e;
      new;
      assert Entries() == [];
    }

    /** A new file begins with the checksum so far and the metadata. */
    static method StartSegment(c: Codec, prev: uint64, metadata: bytes) returns (e: Encoder)
      ensures e.Valid() && fresh(e) && fresh(e.w) && fresh(e.w.buf) && e.c == c
      ensures e.Contents() == Frames(c, prev, SegmentRecords(c, prev, metadata, []))
      ensures e.crc == CrcAfter(c, prev, SegmentRecords(c, prev, metadata, []))
    {
      hide Frame, Frames, CrcAfter, Fit;
      e := new Encoder(c, prev, 0);
      e.Encode(CRC_TYPE, BigEndian(prev, 8));
      e.Encode(META_DATA_TYPE, metadata);
      e.Flush();
      HeaderFrames(c, prev, metadata);
      assert SegmentRecords(c, prev, metadata, []) == Header(prev, metadata);
    }

    /** saveEntry */
    method SaveEntry(ent: Entry) returns (saved: Entry)
      requires Valid()
      modifies this`lastEntryIndex, this`current, encoder, encoder.w, encoder.w.buf
      ensures Valid() && saved == ent.(index := old(lastEntryIndex)) && Entries() == old(Entries()) + [saved]
      ensures lastEntryIndex == IndexFrom(old(lastEntryIndex), 1)
    {
      hide Frames, CrcAfter, SegmentRecords, Files, LastCrc;
      saved := ent.(index := lastEntryIndex);
      lastEntryIndex := (lastEntryIndex + 1) % 0x1_0000_0000_0000_0000;
      encoder.Encode(ENTRY_TYPE, c.marshalEntry(saved));
      OneMoreEntry(c, LastCrc(c, 0, metadata, groups), metadata, current, saved);
      assert Concat(groups) + current + [saved] == Concat(groups) + (current + [saved]);
      current := current + [saved];
    }

    /** cut: the open segment is flushed and closed, and a new one is started. */
    method Cut()
      requires Valid()
      modifies this, encoder, encoder.w, encoder.w.buf
      ensures Valid() && Entries() == old(Entries()) && lastEntryIndex == old(lastEntryIndex) && current == []
      ensures fresh(encoder) && fresh(encoder.w) && fresh(encoder.w.buf)
      ensures files == old(files) + [old(encoder.Contents())] && |files[|old(files)|]| >= |old(encoder.w.sink)|
    {
      hide Frames, CrcAfter, SegmentRecords, Files, LastCrc;
      encoder.Flush();
      FilesLast(c, 0, metadata, groups, current);
      ConcatLast(groups, current);
      files := files + [encoder.w.sink];
      groups, current := groups + [current], [];
      encoder := StartSegment(c, encoder.crc, metadata);
    }

    /** SaveSingle */
    method SaveSingle(ent: Entry) returns (index: uint64, saved: Entry)
      requires Valid()
      modifies this, encoder, encoder.w, encoder.w.buf
      ensures Valid() && saved == ent.(index := old(lastEntryIndex)) && Entries() == old(Entries()) + [saved]
      ensures index == lastEntryIndex == IndexFrom(old(lastEntryIndex), 1)
      ensures Durable()
      ensures if files == old(files) then |encoder.w.sink| < 8_000_000 else Closes(old(files), files) && current == []
    {
      hide Frames, CrcAfter, SegmentRecords, Files, LastCrc;
      saved := SaveEntry(ent);
      encoder.Flush();
      if |encoder.w.sink| >= SEGMENT_SIZE_BYTES {
        Cut();
      }
      index := lastEntryIndex;
    }

    /** Save: the entries get the next indices, in order. */
    method Save(ents: seq<Entry>) returns (index: uint64, ghost saved: seq<Entry>)
      requires Valid()
      modifies this, encoder, encoder.w, encoder.w.buf
      ensures Valid() && |saved| == |ents| && Entries() == old(Entries()) + saved
      ensures forall i :: 0 <= i < |ents| ==> saved[i] == ents[i].(index := IndexFrom(old(lastEntryIndex), i))
      ensures index == lastEntryIndex == IndexFrom(old(lastEntryIndex), |ents|)
      ensures ents != [] ==>
                if files == old(files) then |encoder.w.sink| < 8_000_000 else Closes(old(files), files) && current == []
    {
      hide Frames, CrcAfter, SegmentRecords, Files, LastCrc, IndexFrom;
      saved := [];
      assert old(Entries()) + saved == old(Entries());
      IndexNext(lastEntryIndex, 0);
      if ents == [] {
        return lastEntryIndex, saved;
      }
      for i := 0 to |ents|
        modifies this`lastEntryIndex, this`current, encoder, encoder.w, encoder.w.buf
        invariant Valid() && |saved| == i && Entries() == old(Entries()) + saved
        invariant lastEntryIndex == IndexFrom(old(lastEntryIndex), i)
        invariant forall j :: 0 <= j < i ==> saved[j] == ents[j].(index := IndexFrom(old(lastEntryIndex), j))
      {
        IndexNext(old(lastEntryIndex), i);
        var e := SaveEntry(ents[i]);
        assert old(Entries()) + saved + [e] == old(Entries()) + (saved + [e]);
        saved := saved + [e];
      }
      if |encoder.w.sink| >= SEGMENT_SIZE_BYTES {
        Cut();
      }
      index := lastEntryIndex;
    }

    /** The files as a reader finds them: the open one flushed, and followed by zeros. */
    ghost function OnDisk(zeros: nat): seq<bytes>
      requires Valid()
      reads this, encoder, encoder.w, encoder.w.buf
    {
      files + [encoder.Contents() + Zeros(zeros)]
    }

    /** Reading any suffix of the files gives back the entries of those files, in order. */
    lemma Readable(j: nat, zeros: nat)
      requires Valid() && c.Valid() && FilesFit(c, 0, metadata, groups + [current]) && j <= |groups|
      ensures var r := ReadLogs(c, Decoding(OnDisk(zeros)[j..], 0, 0), [], []);
              && r.Done? && r.metadata == metadata && r.entries == Concat(groups[j..]) + current
              && r.final.lastOffset == |encoder.Contents()| && r.final.crc == encoder.crc
    {
      hide Frames, CrcAfter, SegmentRecords, Files, LastCrc, ReadLogs;
      var all := groups + [current];
      FilesLast(c, 0, metadata, groups, current);
      ReadAnySuffix(c, metadata, all, j, zeros);
      ConcatLast(groups[j..], current);
      assert all[j..] == groups[j..] + [current];
      assert OnDisk(zeros)[j..] == Padded(Files(c, 0, metadata, all)[j..], zeros);
    }
  }

  lemma OneMoreEntry(c: Codec, prev: uint64, data: bytes, ents: seq<Entry>, e: Entry)
    ensures var recs := SegmentRecords(c, prev, data, ents);
            var crc := CrcAfter(c, prev, recs);
            var next := c.update(crc, c.marshalEntry(e));
            && Frames(c, prev, SegmentRecords(c, prev, data, ents + [e])) ==
               Frames(c, prev, recs) + Frame(c, Log(ENTRY_TYPE, c.marshalEntry(e), next))
            && CrcAfter(c, prev, SegmentRecords(c, prev, data, ents + [e])) == next
  {
    hide Frames, CrcAfter;
    var recs := SegmentRecords(c, prev, data, ents);
    var more := EntryRecords(c, [e]);
    assert more == [EntryRecord(c, e)];
    assert EntryRecords(c, ents + [e]) == EntryRecords(c, ents) + more;
    assert SegmentRecords(c, prev, data, ents + [e]) == recs + more;
    FramesAppend(c, prev, recs, more);
    OneRecord(c, CrcAfter(c, prev, recs), EntryRecord(c, e));
  }

  lemma NextChunk(data: bytes, curOff: nat, fileOff: nat, n: int)
    requires curOff < |data|
    requires n == if MIN_SECTOR_SIZE - fileOff % MIN_SECTOR_SIZE > |data| - curOff then |data| - curOff
                  else MIN_SECTOR_SIZE - fileOff % MIN_SECTOR_SIZE
    ensures 0 < n <= |data| - curOff
    ensures ZeroSector(data[curOff..], fileOff) <==>
            AllZero(data[curOff..curOff + n]) || ZeroSector(data[curOff + n..], fileOff + n)
  {
    var rest := data[curOff..];
    assert rest[..n] == data[curOff..curOff + n] && rest[n..] == data[curOff + n..];
  }

  lemma NoMoreChunks(data: bytes, fileOff: nat)
    requires data == []
    ensures !ZeroSector(data, fileOff)
  {
  }

  lemma MoreChunks(chunks: seq<bytes>, chunk: bytes)
    ensures (exists i :: 0 <= i < |chunks| + 1 && AllZero((chunks + [chunk])[i])) <==>
            (exists i :: 0 <= i < |chunks| && AllZero(chunks[i])) || AllZero(chunk)
  {
    var all := chunks + [chunk];
    assert all[|chunks|] == chunk;
    forall i | 0 <= i < |chunks| ensures all[i] == chunks[i] {
    }
  }
}
