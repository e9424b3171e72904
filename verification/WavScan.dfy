/** Finding the audio in a WAV file: parseWavHeader of replay.go and its copy in the sender. */
module WavScan {
  import opened Basics

  const RIFF: Bytes := [82, 73, 70, 70]
  const WAVE: Bytes := [87, 65, 86, 69]
  const FMT: Bytes := [102, 109, 116, 32]
  const DATA: Bytes := [100, 97, 116, 97]

  const HEADER_SIZE := 44

  datatype WavInfo = WavInfo(sampleRate: nat, channels: nat, bitsPerSample: nat, dataOffset: nat, dataSize: nat)

  datatype WavResult = TooShort | NotWav | Wav(info: WavInfo)

  // ---------------------------------------------------------------- little-endian fields

  function Le16(x: U16): Bytes {
    [x % 0x100, x / 0x100]
  }

  function Le32(x: U32): (bytes: Bytes)
    ensures |bytes| == 4
  {
    Le16(x % 0x1_0000) + Le16(x / 0x1_0000)
  }

  function ReadLe16(data: Bytes, at: nat): U16
    requires at + 2 <= |data|
  {
    data[at] as int + data[at + 1] as int * 0x100
  }

  function ReadLe32(data: Bytes, at: nat): U32
    requires at + 4 <= |data|
  {
    ReadLe16(data, at) as int + ReadLe16(data, at + 2) as int * 0x1_0000
  }

  lemma Le32RoundTrip(before: Bytes, x: U32, after: Bytes)
    ensures ReadLe32(before + Le32(x) + after, |before|) == x
  {
    var data := before + Le32(x) + after;
    var lo, hi := x % 0x1_0000, x / 0x1_0000;
    assert data[|before|] == lo % 0x100 && data[|before| + 1] == lo / 0x100;
    assert data[|before| + 2] == hi % 0x100 && data[|before| + 3] == hi / 0x100;
  }

  // ---------------------------------------------------------------- the parser

  /** Takes over the fields of a format chunk body that starts at the given offset. */
  function WithFormat(info: WavInfo, data: Bytes, at: nat): WavInfo
    requires at + 16 <= |data|
  {
    info.(channels := ReadLe16(data, at + 2),
          sampleRate := ReadLe32(data, at + 4),
          bitsPerSample := ReadLe16(data, at + 14))
  }

  /** The chunk scanner, from the chunk at this offset on. */
  function Scan(file: Bytes, offset: nat, info: WavInfo): WavInfo
    decreases |file| - offset
  {
    if offset + 8 > |file| then info
    else
      var id, size := file[offset..offset + 4], ReadLe32(file, offset + 4);
      if id == FMT then
        Scan(file, offset + 8 + size, if offset + 24 <= |file| then WithFormat(info, file, offset + 8) else info)
      else if id == DATA then
        info.(dataOffset := offset + 8, dataSize := size)
      else
        Scan(file, offset + 8 + size, info)
  }

  /** The fields as they lie in a canonical 44-byte header. */
  function FixedInfo(file: Bytes): WavInfo
    requires |file| >= HEADER_SIZE
  {
    WithFormat(WavInfo(0, 0, 0, HEADER_SIZE, ReadLe32(file, 40)), file, 20)
  }

  function ParseFile(file: Bytes): WavResult {
    if |file| < HEADER_SIZE then TooShort
    else if file[0..4] != RIFF || file[8..12] != WAVE then NotWav
    else if file[36..40] == DATA then Wav(FixedInfo(file))
    else Wav(Scan(file, 12, FixedInfo(file)))
  }

  /**
   * parseWavHeader as the source runs it: the fixed header first, and unless it ends in a data
   * chunk, a loop that reads chunk headers at a file cursor and seeks over the bodies.
   */
  method ParseWavHeader(file: Bytes) returns (r: WavResult)
    ensures r == ParseFile(file)
  {
    hide Scan, ReadLe16, ReadLe32;
    if |file| < HEADER_SIZE {
      return TooShort;
    }
    if file[0..4] != RIFF || file[8..12] != WAVE {
      return NotWav;
    }
    var channels: nat := ReadLe16(file, 22);
    var sampleRate: nat := ReadLe32(file, 24);
    var bitsPerSample: nat := ReadLe16(file, 34);
    var dataOffset: nat := HEADER_SIZE;
    var dataSize: nat := ReadLe32(file, 40);
    if file[36..40] != DATA {
      var cursor: nat := 12;
      var offset: nat := 12;
      while true
        invariant cursor == offset && dataOffset == HEADER_SIZE && dataSize == ReadLe32(file, 40)
        invariant Scan(file, 12, FixedInfo(file))
                  == Scan(file, offset, WavInfo(sampleRate, channels, bitsPerSample, dataOffset, dataSize))
        decreases if offset <= |file| then |file| - offset + 1 else 0
      {
        ghost var info := WavInfo(sampleRate, channels, bitsPerSample, dataOffset, dataSize);
        if cursor + 8 > |file| {
          ScanAtEnd(file, cursor, info);
          break;
        }
        var chunkId := file[cursor..cursor + 4];
        var chunkSize: nat := ReadLe32(file, cursor + 4);
        cursor := cursor + 8;
        if chunkId == DATA {
          ScanAtData(file, offset, info);
        } else {
          ScanOneChunk(file, offset, info);
        }
        if chunkId == FMT {
          if cursor + 16 <= |file| {
            channels := ReadLe16(file, cursor + 2);
            sampleRate := ReadLe32(file, cursor + 4);
            bitsPerSample := ReadLe16(file, cursor + 14);
          }
          offset := offset + 8 + chunkSize;
          cursor := offset;
        } else if chunkId == DATA {
          dataOffset := offset + 8;
          dataSize := chunkSize;
          break;
        } else {
          offset := offset + 8 + chunkSize;
          cursor := offset;
        }
      }
    }
    return Wav(WavInfo(sampleRate, channels, bitsPerSample, dataOffset, dataSize));
  }

  // ---------------------------------------------------------------- well-formed files

  /** A chunk before the audio; its body is not padded. */
  datatype Chunk = Chunk(id: Bytes, body: Bytes)

  predicate Plain(c: Chunk) {
    && |c.id| == 4 && c.id != DATA && |c.body| < 0x1_0000_0000
    && (c.id == FMT ==> |c.body| >= 16)
  }

  predicate AllPlain(cs: seq<Chunk>) {
    forall k :: 0 <= k < |cs| ==> Plain(cs[k])
  }

  function ChunkBytes(c: Chunk): Bytes
    requires Plain(c)
  {
    c.id + Le32(|c.body|) + c.body
  }

  function ChunksBytes(cs: seq<Chunk>): Bytes
    requires AllPlain(cs)
  {
    if cs == [] then [] else ChunkBytes(cs[0]) + ChunksBytes(cs[1..])
  }

  /** A RIFF WAVE file: chunks, then a data chunk of declared size, then whatever follows. */
  datatype WavFile = WavFile(riffSize: U32, chunks: seq<Chunk>, dataSize: U32, rest: Bytes)

  function Prefix(riffSize: U32): (bytes: Bytes)
    ensures |bytes| == 12
  {
    RIFF + Le32(riffSize) + WAVE
  }

  function FileBytes(f: WavFile): Bytes
    requires AllPlain(f.chunks)
  {
    Prefix(f.riffSize) + ChunksBytes(f.chunks) + (DATA + Le32(f.dataSize) + f.rest)
  }

  /** The format that holds after these chunks: that of the last format chunk among them. */
  function FormatAfter(cs: seq<Chunk>, info: WavInfo): WavInfo
    requires AllPlain(cs)
  {
    if cs == [] then info
    else FormatAfter(cs[1..], if cs[0].id == FMT then WithFormat(info, cs[0].body, 0) else info)
  }

  lemma WithFormatInPlace(before: Bytes, body: Bytes, after: Bytes, info: WavInfo)
    requires |body| >= 16
    ensures WithFormat(info, before + body + after, |before|) == WithFormat(info, body, 0)
  {
    var file := before + body + after;
    assert forall k :: 0 <= k < 16 ==> file[|before| + k] == body[k];
  }

  lemma ScanAtEnd(file: Bytes, at: nat, info: WavInfo)
    requires at + 8 > |file|
    ensures Scan(file, at, info) == info
  {
  }

  lemma ScanOneChunk(file: Bytes, at: nat, info: WavInfo)
    requires at + 8 <= |file| && file[at..at + 4] != DATA
    ensures Scan(file, at, info)
            == Scan(file, at + 8 + ReadLe32(file, at + 4),
                    if file[at..at + 4] == FMT && at + 24 <= |file| then WithFormat(info, file, at + 8) else info)
  {
    hide ReadLe32, WithFormat;
  }

  lemma ScanPlain(before: Bytes, c: Chunk, after: Bytes, info: WavInfo)
    requires Plain(c)
    ensures var file := before + ChunkBytes(c) + after;
            Scan(file, |before|, info)
            == Scan(file, |before + ChunkBytes(c)|, if c.id == FMT then WithFormat(info, c.body, 0) else info)
  {
    hide Scan, ReadLe32, WithFormat, Le32;
    var file := before + ChunkBytes(c) + after;
    assert file == (before + c.id) + Le32(|c.body|) + (c.body + after);
    Le32RoundTrip(before + c.id, |c.body|, c.body + after);
    assert file[|before|..|before| + 4] == c.id;
    ScanOneChunk(file, |before|, info);
    if c.id == FMT {
      assert file == (before + c.id + Le32(|c.body|)) + c.body + after;
      WithFormatInPlace(before + c.id + Le32(|c.body|), c.body, after, info);
    }
  }

  lemma ScanAtData(file: Bytes, at: nat, info: WavInfo)
    requires at + 8 <= |file| && file[at..at + 4] == DATA
    ensures Scan(file, at, info) == info.(dataOffset := at + 8, dataSize := ReadLe32(file, at + 4))
  {
    hide ReadLe32, WithFormat;
    assert DATA[0] != FMT[0];
  }

  lemma ScanData(before: Bytes, dataSize: U32, rest: Bytes, info: WavInfo)
    ensures Scan(before + (DATA + Le32(dataSize) + rest), |before|, info)
            == info.(dataOffset := |before| + 8, dataSize := dataSize)
  {
    hide Le32, ReadLe32, Scan;
    var file := before + (DATA + Le32(dataSize) + rest);
    Assoc(before, DATA + Le32(dataSize), rest);
    Assoc(before, DATA, Le32(dataSize));
    Le32RoundTrip(before + DATA, dataSize, rest);
    assert file[|before|..|before| + 4] == DATA;
    ScanAtData(file, |before|, info);
  }

  /** The scanner passes over whole chunks, keeping the format of the last format chunk. */
  lemma {:induction false} ScanChunks(before: Bytes, cs: seq<Chunk>, tail: Bytes, info: WavInfo)
    requires AllPlain(cs)
    ensures var file := before + ChunksBytes(cs) + tail;
            Scan(file, |before|, info) == Scan(file, |before| + |ChunksBytes(cs)|, FormatAfter(cs, info))
    decreases |cs|
  {
    hide Scan, WithFormat, ChunkBytes;
    if cs == [] {
      assert |before + ChunksBytes(cs)| == |before|;
    } else {
      var c := cs[0];
      var after := ChunksBytes(cs[1..]);
      assert Plain(c);
      ScanPlain(before, c, after + tail, info);
      ScanChunks(before + ChunkBytes(c), cs[1..], tail, if c.id == FMT then WithFormat(info, c.body, 0) else info);
      assert before + ChunkBytes(c) + (after + tail) == before + ChunksBytes(cs) + tail;
      assert before + ChunkBytes(c) + after + tail == before + ChunksBytes(cs) + tail;
    }
  }

  lemma ScanFile(before: Bytes, cs: seq<Chunk>, dataSize: U32, rest: Bytes, info: WavInfo)
    requires AllPlain(cs)
    ensures Scan(before + ChunksBytes(cs) + (DATA + Le32(dataSize) + rest), |before|, info)
            == FormatAfter(cs, info).(dataOffset := |before| + |ChunksBytes(cs)| + 8, dataSize := dataSize)
  {
    hide Scan, Le32, ChunksBytes, FormatAfter;
    ScanChunks(before, cs, DATA + Le32(dataSize) + rest, info);
    ScanData(before + ChunksBytes(cs), dataSize, rest, FormatAfter(cs, info));
  }

  /** Nothing more to find: too short for a chunk, or a chunk, not of audio, that leaves no room for another one. */
  predicate EndsHere(tail: Bytes) {
    |tail| < 8 || (tail[0..4] != DATA && 16 + ReadLe32(tail, 4) > |tail|)
  }

  /** A format chunk at the end counts if its first 16 bytes are there. */
  function FormatAtEnd(tail: Bytes, info: WavInfo): WavInfo {
    if |tail| >= 24 && tail[0..4] == FMT then WithFormat(info, tail, 8) else info
  }

  lemma ScanEnd(before: Bytes, tail: Bytes, info: WavInfo)
    requires EndsHere(tail)
    ensures Scan(before + tail, |before|, info) == FormatAtEnd(tail, info)
  {
    hide Scan, ReadLe16, WithFormat;
    var file, at := before + tail, |before|;
    if |tail| < 8 {
      ScanAtEnd(file, at, info);
    } else {
      ReadInPlace(before, tail, 4);
      assert file[at..at + 4] == tail[0..4];
      ScanOneChunk(file, at, info);
      if tail[0..4] == FMT && |tail| >= 24 {
        assert file == (before + tail[..8]) + tail[8..] + [] && tail == tail[..8] + tail[8..] + [];
        WithFormatInPlace(before + tail[..8], tail[8..], [], info);
        WithFormatInPlace(tail[..8], tail[8..], [], info);
      }
      ScanAtEnd(file, at + 8 + ReadLe32(tail, 4), FormatAtEnd(tail, info));
    }
  }

  lemma ReadInPlace(before: Bytes, tail: Bytes, at: nat)
    requires at + 4 <= |tail|
    ensures ReadLe32(before + tail, |before| + at) == ReadLe32(tail, at)
  {
  }

  /** The format is a format chunk's own, if there is one: nothing of the initial guess remains. */
  lemma {:induction false} FormatIsFromAChunk(cs: seq<Chunk>, a: WavInfo, b: WavInfo)
    requires AllPlain(cs) && exists k :: 0 <= k < |cs| && cs[k].id == FMT
    ensures FormatAfter(cs, a).(dataOffset := 0, dataSize := 0) == FormatAfter(cs, b).(dataOffset := 0, dataSize := 0)
    decreases |cs|
  {
    var a1 := if cs[0].id == FMT then WithFormat(a, cs[0].body, 0) else a;
    var b1 := if cs[0].id == FMT then WithFormat(b, cs[0].body, 0) else b;
    if k :| 0 <= k < |cs[1..]| && cs[1..][k].id == FMT {
      FormatIsFromAChunk(cs[1..], a1, b1);
    } else {
      assert cs[0].id == FMT;
      NoMoreFormats(cs[1..], a1);
      NoMoreFormats(cs[1..], b1);
    }
  }

  lemma {:induction false} NoMoreFormats(cs: seq<Chunk>, info: WavInfo)
    requires AllPlain(cs) && forall k :: 0 <= k < |cs| ==> cs[k].id != FMT
    ensures FormatAfter(cs, info) == info
    decreases |cs|
  {
    if cs == [] {
    } else {
      NoMoreFormats(cs[1..], info);
    }
  }

  /** What a reader of the chunk structure would report. */
  function TrueInfo(f: WavFile): WavInfo
    requires AllPlain(f.chunks) && |FileBytes(f)| >= HEADER_SIZE
  {
    FormatAfter(f.chunks, FixedInfo(FileBytes(f)))
      .(dataOffset := 12 + |ChunksBytes(f.chunks)| + 8, dataSize := f.dataSize)
  }

  /**
   * The scanner is exact: on every well-formed file of at least 44 bytes whose bytes 36 to 39 do not
   * spell "data", the parser finds the data chunk's own offset and size and the format of the last
   * format chunk before it.
   */
  lemma ScannerIsExact(f: WavFile)
    requires AllPlain(f.chunks) && |FileBytes(f)| >= HEADER_SIZE
    requires FileBytes(f)[36..40] != DATA
    ensures ParseFile(FileBytes(f)) == Wav(TrueInfo(f))
  {
    hide Scan, WithFormat, FormatAfter, ChunksBytes;
    var file := FileBytes(f);
    assert file[0..4] == RIFF && file[8..12] == WAVE;
    ScanFile(Prefix(f.riffSize), f.chunks, f.dataSize, f.rest, FixedInfo(file));
  }

  /**
   * The audio is found exactly: on every well-formed file of at least 44 bytes the reported data
   * offset is the data chunk's, if and only if bytes 36 to 39 do not spell "data" by accident, that
   * is unless they do so while the data chunk starts elsewhere.
   */
  lemma OffsetExactly(f: WavFile)
    requires AllPlain(f.chunks) && |FileBytes(f)| >= HEADER_SIZE
    ensures ParseFile(FileBytes(f)).Wav?
    ensures ParseFile(FileBytes(f)).info.dataOffset == TrueInfo(f).dataOffset
            <==> (FileBytes(f)[36..40] == DATA ==> |ChunksBytes(f.chunks)| == 24)
  {
    var file := FileBytes(f);
    if file[36..40] == DATA {
      assert file[0..4] == RIFF && file[8..12] == WAVE;
    } else {
      ScannerIsExact(f);
    }
  }

  /**
   * Without a data chunk the parser still accepts: after whole chunks that nothing but an unfinished one
   * follows, it reports the format it has seen last, and for the audio what a canonical header would say:
   * offset 44, and as its size whatever lies at offset 40.
   */
  lemma WithoutData(riffSize: U32, cs: seq<Chunk>, tail: Bytes)
    requires AllPlain(cs) && EndsHere(tail)
    requires var file := Prefix(riffSize) + ChunksBytes(cs) + tail; |file| >= HEADER_SIZE && file[36..40] != DATA
    ensures var file := Prefix(riffSize) + ChunksBytes(cs) + tail;
            var info := FormatAtEnd(tail, FormatAfter(cs, FixedInfo(file)));
            ParseFile(file) == Wav(info.(dataOffset := 44, dataSize := ReadLe32(file, 40)))
  {
    hide Scan, WithFormat, FormatAfter, ChunksBytes, ReadLe32;
    var before := Prefix(riffSize);
    var file := before + ChunksBytes(cs) + tail;
    assert file[0..4] == RIFF && file[8..12] == WAVE;
    ScanChunks(before, cs, tail, FixedInfo(file));
    ScanEnd(before + ChunksBytes(cs), tail, FormatAfter(cs, FixedInfo(file)));
    FixedDataAt(file);
    AudioStays(cs, FixedInfo(file));
    AudioStaysAtEnd(tail, FormatAfter(cs, FixedInfo(file)));
  }

  lemma {:induction false} AudioStays(cs: seq<Chunk>, info: WavInfo)
    requires AllPlain(cs)
    ensures FormatAfter(cs, info).dataOffset == info.dataOffset && FormatAfter(cs, info).dataSize == info.dataSize
    decreases |cs|
  {
    if cs == [] {
    } else {
      AudioStays(cs[1..], if cs[0].id == FMT then WithFormat(info, cs[0].body, 0) else info);
    }
  }

  lemma AudioStaysAtEnd(tail: Bytes, info: WavInfo)
    ensures FormatAtEnd(tail, info).dataOffset == info.dataOffset && FormatAtEnd(tail, info).dataSize == info.dataSize
  {
  }

  /** What is accepted: anything of 44 bytes or more that starts as a RIFF WAVE file does. */
  lemma AcceptedExactly(file: Bytes)
    ensures ParseFile(file) == TooShort <==> |file| < HEADER_SIZE
    ensures ParseFile(file).Wav? <==> |file| >= HEADER_SIZE && exists riffSize: U32 :: Prefix(riffSize) <= file
  {
    hide Scan, FixedInfo;
    if |file| >= HEADER_SIZE {
      assert file[0..4] == file[..4];
      if ParseFile(file).Wav? {
        var size := ReadLe32(file, 4);
        Le32Is(file, 4);
        assert file[..12] == file[0..4] + file[4..8] + file[8..12];
        assert Prefix(size) == file[..12];
      }
      forall riffSize: U32 | Prefix(riffSize) <= file
        ensures file[0..4] == RIFF && file[8..12] == WAVE
      {
        assert file[..12] == Prefix(riffSize);
        assert file[8..12] == file[..12][8..12];
      }
    }
  }

  lemma Le32Is(data: Bytes, at: nat)
    requires at + 4 <= |data|
    ensures data[at..at + 4] == Le32(ReadLe32(data, at))
  {
    var lo, hi: nat := ReadLe16(data, at), ReadLe16(data, at + 2);
    assert lo % 0x100 == data[at] && lo / 0x100 == data[at + 1];
    assert hi % 0x100 == data[at + 2] && hi / 0x100 == data[at + 3];
    assert (lo + hi * 0x1_0000) % 0x1_0000 == lo && (lo + hi * 0x1_0000) / 0x1_0000 == hi;
  }

  /** On the canonical layout, one format chunk of 16 bytes and the data, the fast path agrees. */
  lemma CanonicalIsExact(f: WavFile)
    requires |f.chunks| == 1 && f.chunks[0].id == FMT && |f.chunks[0].body| == 16
    ensures AllPlain(f.chunks) && |FileBytes(f)| >= HEADER_SIZE
    ensures ParseFile(FileBytes(f)) == Wav(TrueInfo(f))
  {
    var file, c := FileBytes(f), f.chunks[0];
    assert f.chunks[1..] == [];
    assert ChunksBytes(f.chunks) == ChunkBytes(c) + [];
    var tail := DATA + Le32(f.dataSize) + f.rest;
    assert file == Prefix(f.riffSize) + ChunkBytes(c) + tail;
    assert file[0..4] == RIFF && file[8..12] == WAVE && file[36..40] == DATA;
    assert file == (Prefix(f.riffSize) + ChunkBytes(c) + DATA) + Le32(f.dataSize) + f.rest;
    Le32RoundTrip(Prefix(f.riffSize) + ChunkBytes(c) + DATA, f.dataSize, f.rest);
    var before := Prefix(f.riffSize) + FMT + Le32(16);
    assert file == before + c.body + tail;
    WithFormatInPlace(before, c.body, tail, FixedInfo(file));
    assert FormatAfter(f.chunks, FixedInfo(file)) == WithFormat(FixedInfo(file), c.body, 0);
  }

  lemma {:induction false} FormatTakesRoom(cs: seq<Chunk>, k: nat)
    requires AllPlain(cs) && k < |cs| && cs[k].id == FMT
    ensures |ChunksBytes(cs)| >= 8 * |cs| + |cs[k].body|
    decreases |cs|
  {
    ChunksTakeRoom(cs[1..]);
    if k == 0 {
    } else {
      FormatTakesRoom(cs[1..], k - 1);
    }
  }

  lemma {:induction false} ChunksTakeRoom(cs: seq<Chunk>)
    requires AllPlain(cs)
    ensures |ChunksBytes(cs)| >= 8 * |cs|
    decreases |cs|
  {
    if cs == [] {
    } else {
      ChunksTakeRoom(cs[1..]);
    }
  }

  /** With no format chunk at all and the data chunk where the fast path expects it, both agree. */
  lemma FormatlessIsExact(f: WavFile)
    requires AllPlain(f.chunks) && |ChunksBytes(f.chunks)| == 24
    requires forall k :: 0 <= k < |f.chunks| ==> f.chunks[k].id != FMT
    ensures |FileBytes(f)| >= HEADER_SIZE && FileBytes(f)[36..40] == DATA
    ensures ParseFile(FileBytes(f)) == Wav(TrueInfo(f))
  {
    hide WithFormat, Scan, FormatAfter, ChunksBytes, ReadLe32;
    var file, before := FileBytes(f), Prefix(f.riffSize) + ChunksBytes(f.chunks);
    assert file[0..4] == RIFF && file[8..12] == WAVE;
    assert file == (before + DATA) + Le32(f.dataSize) + f.rest;
    Le32RoundTrip(before + DATA, f.dataSize, f.rest);
    NoMoreFormats(f.chunks, FixedInfo(file));
    FixedDataAt(file);
  }

  lemma FixedDataAt(file: Bytes)
    requires |file| >= HEADER_SIZE
    ensures FixedInfo(file).dataOffset == HEADER_SIZE && FixedInfo(file).dataSize == ReadLe32(file, 40)
  {
  }

  /**
   * The whole result, exactly: on every well-formed file of at least 44 bytes the parser reports the
   * true format, offset and size if and only if bytes 36 to 39 do not spell "data" by accident, that
   * is unless they do so while the data chunk starts elsewhere.
   */
  lemma ParsedExactly(f: WavFile)
    requires AllPlain(f.chunks) && |FileBytes(f)| >= HEADER_SIZE
    ensures ParseFile(FileBytes(f)) == Wav(TrueInfo(f))
            <==> (FileBytes(f)[36..40] == DATA ==> |ChunksBytes(f.chunks)| == 24)
  {
    hide FormatAfter, ChunksBytes, Scan, FileBytes;
    OffsetExactly(f);
    if FileBytes(f)[36..40] != DATA {
      ScannerIsExact(f);
    } else if |ChunksBytes(f.chunks)| == 24 {
      if k :| 0 <= k < |f.chunks| && f.chunks[k].id == FMT {
        assert Plain(f.chunks[k]);
        FormatTakesRoom(f.chunks, k);
        CanonicalIsExact(f);
      } else {
        FormatlessIsExact(f);
      }
    }
  }

  /** The fields of a format chunk, as a writer lays them out. */
  datatype Format = Format(
    tag: U16, channels: U16, sampleRate: U32, byteRate: U32, blockAlign: U16, bitsPerSample: U16)

  function FormatBody(f: Format): (bytes: Bytes)
    ensures |bytes| == 16
  {
    Le16(f.tag) + Le16(f.channels) + Le32(f.sampleRate) + Le32(f.byteRate) + Le16(f.blockAlign) + Le16(f.bitsPerSample)
  }

  lemma Le16RoundTrip(before: Bytes, x: U16, after: Bytes)
    ensures ReadLe16(before + Le16(x) + after, |before|) == x
  {
  }

  lemma FormatComesBack(info: WavInfo, f: Format, extra: Bytes)
    ensures WithFormat(info, FormatBody(f) + extra, 0)
            == info.(channels := f.channels, sampleRate := f.sampleRate, bitsPerSample := f.bitsPerSample)
  {
    hide Le16, Le32, ReadLe16, ReadLe32;
    var body := FormatBody(f) + extra;
    var behind := Le32(f.byteRate) + Le16(f.blockAlign) + Le16(f.bitsPerSample) + extra;
    SizeOfLe16(f);
    assert body == Le16(f.tag) + Le16(f.channels) + (Le32(f.sampleRate) + behind);
    Le16RoundTrip(Le16(f.tag), f.channels, Le32(f.sampleRate) + behind);
    assert body == (Le16(f.tag) + Le16(f.channels)) + Le32(f.sampleRate) + behind;
    Le32RoundTrip(Le16(f.tag) + Le16(f.channels), f.sampleRate, behind);
    var ahead := Le16(f.tag) + Le16(f.channels) + Le32(f.sampleRate) + Le32(f.byteRate) + Le16(f.blockAlign);
    assert body == ahead + Le16(f.bitsPerSample) + extra;
    Le16RoundTrip(ahead, f.bitsPerSample, extra);
  }

  lemma SizeOfLe16(f: Format)
    ensures |Le16(f.tag)| == |Le16(f.channels)| == |Le16(f.blockAlign)| == |Le16(f.bitsPerSample)| == 2
  {
  }

  /** The last format chunk decides, whatever came before it. */
  lemma {:induction false} LastFormatDecides(cs: seq<Chunk>, k: nat, f: Format, extra: Bytes, info: WavInfo)
    requires AllPlain(cs) && k < |cs| && cs[k] == Chunk(FMT, FormatBody(f) + extra)
    requires forall i :: k < i < |cs| ==> cs[i].id != FMT
    ensures FormatAfter(cs, info)
            == info.(channels := f.channels, sampleRate := f.sampleRate, bitsPerSample := f.bitsPerSample)
    decreases |cs|
  {
    hide WithFormat, FormatBody;
    var info' := if cs[0].id == FMT then WithFormat(info, cs[0].body, 0) else info;
    assert Plain(cs[0]);
    if k == 0 {
      FormatComesBack(info, f, extra);
      NoMoreFormats(cs[1..], info');
    } else {
      LastFormatDecides(cs[1..], k - 1, f, extra, info');
      if cs[0].id == FMT {
        FormatOnly(info, cs[0].body);
      }
    }
  }

  lemma FormatOnly(info: WavInfo, body: Bytes)
    requires |body| >= 16
    ensures var i := WithFormat(info, body, 0); i.dataOffset == info.dataOffset && i.dataSize == info.dataSize
  {
  }

  /**
   * Field by field: on a well-formed file whose last format chunk was written from f, the parser
   * reports the channels, the rate and the sample size of f, and where the audio lies and how long it
   * is, if and only if bytes 36 to 39 spell "data" only where the data chunk is.
   */
  lemma WrittenFormatIsReported(file: WavFile, k: nat, f: Format, extra: Bytes)
    requires AllPlain(file.chunks) && k < |file.chunks| && file.chunks[k] == Chunk(FMT, FormatBody(f) + extra)
    requires forall i :: k < i < |file.chunks| ==> file.chunks[i].id != FMT
    ensures |FileBytes(file)| >= HEADER_SIZE
    ensures ParseFile(FileBytes(file))
            == Wav(WavInfo(f.sampleRate, f.channels, f.bitsPerSample, 20 + |ChunksBytes(file.chunks)|, file.dataSize))
            <==> (FileBytes(file)[36..40] == DATA ==> |ChunksBytes(file.chunks)| == 24)
  {
    hide FormatAfter, ChunksBytes, ParseFile, FixedInfo, FormatBody;
    FormatTakesRoom(file.chunks, k);
    LastFormatDecides(file.chunks, k, f, extra, FixedInfo(FileBytes(file)));
    ParsedExactly(file);
  }

  /** 48 kHz mono of 16 bits, the word "data" and no size, but all of it inside a comment. */
  function Comment(): Bytes {
    [0, 0, 1, 0] + [0x80, 0xBB, 0, 0] + [0, 0, 0, 0] + [0, 0, 16, 0] + DATA + [0, 0, 0, 0]
  }

  /** PCM in stereo, 44100 Hz, 16 bits. */
  function StereoFormat(): Bytes {
    [1, 0, 2, 0] + [0x44, 0xAC, 0, 0] + [0x10, 0xB1, 2, 0] + [4, 0, 16, 0]
  }

  lemma CommentLooksLikeAHeader(file: Bytes)
    requires |file| >= HEADER_SIZE && file[20..44] == Comment()
    ensures file[36..40] == DATA && FixedInfo(file) == WavInfo(48000, 1, 16, 44, 0)
  {
    var c := Comment();
    assert forall k :: 0 <= k < 24 ==> file[20 + k] == file[20..44][k];
    assert c[2] == 1 && c[3] == 0 && c[4] == 0x80 && c[5] == 0xBB && c[6] == 0 && c[7] == 0;
    assert c[14] == 16 && c[15] == 0 && c[20] == 0 && c[21] == 0 && c[22] == 0 && c[23] == 0;
    assert file[36..40] == c[16..20] == DATA;
    assert ReadLe16(file, 22) == 1 && ReadLe16(file, 34) == 16;
    assert ReadLe32(file, 24) == 48000 && ReadLe32(file, 40) == 0;
  }

  lemma SizesAndNames()
    ensures |Comment()| == 24 && |StereoFormat()| == 16
    ensures [76, 73, 83, 84] != DATA && [76, 73, 83, 84] != FMT && FMT != DATA
  {
    assert DATA[0] == 100 && FMT[0] == 102;
  }

  lemma StereoFormatRead(info: WavInfo)
    ensures WithFormat(info, StereoFormat(), 0)
            == info.(channels := 2, sampleRate := 44100, bitsPerSample := 16)
  {
  }

  lemma TwoChunkBytes(a: Chunk, b: Chunk)
    requires Plain(a) && Plain(b)
    ensures ChunksBytes([a, b]) == ChunkBytes(a) + ChunkBytes(b)
  {
    hide ChunkBytes;
    assert [a, b][1..] == [b] && [b][1..] == [];
    assert ChunksBytes([b]) == ChunkBytes(b) + [];
  }

  lemma SecondChunkIsTheFormat(a: Chunk, b: Chunk, info: WavInfo)
    requires Plain(a) && Plain(b) && a.id != FMT && b.id == FMT
    ensures FormatAfter([a, b], info) == WithFormat(info, b.body, 0)
  {
    hide WithFormat;
    assert [a, b][1..] == [b] && [b][1..] == [];
    assert FormatAfter([b], info) == WithFormat(info, b.body, 0);
  }

  /** A comment of 24 bytes is what the fast path takes for the second half of the header. */
  lemma CommentInPlace(f: WavFile)
    requires |f.chunks| == 2 && AllPlain(f.chunks) && |f.chunks[0].body| == 24 && |f.chunks[1].body| == 16
    ensures |FileBytes(f)| >= HEADER_SIZE && |ChunksBytes(f.chunks)| == 56
    ensures FileBytes(f)[0..4] == RIFF && FileBytes(f)[8..12] == WAVE
    ensures FileBytes(f)[20..44] == f.chunks[0].body
  {
    hide ChunksBytes, Le32;
    var a, b := f.chunks[0], f.chunks[1];
    assert f.chunks == [a, b];
    TwoChunkBytes(a, b);
    var tail := ChunkBytes(b) + (DATA + Le32(f.dataSize) + f.rest);
    assert FileBytes(f) == Prefix(f.riffSize) + a.id + Le32(24) + a.body + tail;
  }

  /**
   * Files that are taken for other ones, with any amount of audio: a comment chunk ahead of the format
   * chunk looks like the end of a canonical header. The parser accepts them and has its callers play
   * from the format chunk on, at the wrong rate and with the wrong number of channels; a size of 0 is
   * no limit to the caller in replay.go.
   */
  lemma AccidentalData(dataSize: U32, rest: Bytes) returns (f: WavFile)
    ensures f.chunks == [Chunk([76, 73, 83, 84], Comment()), Chunk(FMT, StereoFormat())]
    ensures f.dataSize == dataSize && f.rest == rest
    ensures AllPlain(f.chunks) && |FileBytes(f)| >= HEADER_SIZE
    ensures ParseFile(FileBytes(f)) == Wav(WavInfo(48000, 1, 16, 44, 0))
    ensures TrueInfo(f) == WavInfo(44100, 2, 16, 76, dataSize)
  {
    hide Scan, WithFormat, FormatAfter, ChunksBytes, FixedInfo, FileBytes, Comment, StereoFormat;
    var note, format := Chunk([76, 73, 83, 84], Comment()), Chunk(FMT, StereoFormat());
    SizesAndNames();
    f := WavFile(0, [note, format], dataSize, rest);
    CommentInPlace(f);
    CommentLooksLikeAHeader(FileBytes(f));
    SecondChunkIsTheFormat(note, format, FixedInfo(FileBytes(f)));
    StereoFormatRead(FixedInfo(FileBytes(f)));
  }
}
