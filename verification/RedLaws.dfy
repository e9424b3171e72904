/** What the RED writer and the RED parser guarantee, on all inputs and to each other. */
module RedLaws {
  import opened Basics
  import opened RedCodec

  // ---------------------------------------------------------------- soundness of the parser

  function BlockBytes(blocks: seq<RedBlock>): Bytes {
    if blocks == [] then [] else blocks[0].payload + BlockBytes(blocks[1..])
  }

  lemma FirstBlock(block: RedBlock, rest: seq<RedBlock>)
    ensures BlockBytes([block] + rest) == block.payload + BlockBytes(rest)
  {
    assert ([block] + rest)[1..] == rest;
  }

  lemma JoinSlices(body: Bytes, n: nat, m: nat)
    requires n + m <= |body|
    ensures body[..n] + body[n..][..m] == body[..n + m]
  {
  }

  lemma {:induction false} CutBlocksPartition(body: Bytes, hs: seq<Header>, ts: U32)
    requires Total(hs) <= |body|
    ensures BlockBytes(CutBlocks(body, hs, ts)) == body[..Total(hs)]
  {
    if hs == [] {
      assert body[..0] == [];
    } else {
      var n := hs[0].length;
      var rest := CutBlocks(body[n..], hs[1..], ts);
      CutBlocksPartition(body[n..], hs[1..], ts);
      FirstBlock(RedBlock(hs[0].pt, Sub32(ts, hs[0].offset), body[..n]), rest);
      JoinSlices(body, n, Total(hs[1..]));
    }
  }

  lemma {:induction false} CutBlocksShape(body: Bytes, hs: seq<Header>, ts: U32)
    requires Total(hs) <= |body|
    ensures |CutBlocks(body, hs, ts)| == |hs|
    ensures forall k :: 0 <= k < |hs| ==>
              var block := CutBlocks(body, hs, ts)[k];
              && block.payloadType == hs[k].pt
              && block.timestamp == Sub32(ts, hs[k].offset)
              && |block.payload| == hs[k].length
  {
    if hs == [] {
    } else {
      CutBlocksShape(body[hs[0].length..], hs[1..], ts);
    }
  }

  lemma CutAllHeaders(h: Headers, body: Bytes, ts: U32)
    requires Total(h.redundant) <= |body|
    ensures var hs := AllHeaders(h, |body|);
            var left := |body| - Total(h.redundant);
            && Total(hs) == Total(h.redundant) + left % 0x1_0000
            && Total(hs) <= |body|
            && |CutBlocks(body, hs, ts)| == |h.redundant| + 1
            && BlockBytes(CutBlocks(body, hs, ts)) == body[..Total(hs)]
            && (body[..Total(hs)] == body <==> left < 0x1_0000)
  {
    var hs := AllHeaders(h, |body|);
    TotalConcat(h.redundant, [hs[|h.redundant|]]);
    CutBlocksShape(body, hs, ts);
    CutBlocksPartition(body, hs, ts);
    assert body[..|body|] == body;
  }

  /**
   * Soundness on arbitrary bytes: an accepted payload is never invented or reordered, its blocks
   * spell out a prefix of the bytes after the headers; and they spell out all of those bytes if and
   * only if the true length of the primary block survives the cast to uint16.
   */
  lemma UnpackSoundness(data: Bytes, ts: U32)
    requires Unpack(data, ts).Ok?
    ensures ScanHeaders(data).Ok?
    ensures var h := ScanHeaders(data).value;
            var blocks := Unpack(data, ts).value;
            && h.Size() + Total(h.redundant) <= |data|
            && |blocks| == |h.redundant| + 1
            && BlockBytes(blocks) <= data[h.Size()..]
            && (BlockBytes(blocks) == data[h.Size()..] <==>
                |data| - h.Size() - Total(h.redundant) < 0x1_0000)
  {
    ScanFits(data);
    var h := ScanHeaders(data).value;
    CutAllHeaders(h, data[h.Size()..], ts);
  }

  /** In particular no accepted datagram below 64 KiB loses a byte. */
  lemma UnpackKeepsEveryByte(data: Bytes, ts: U32)
    requires |data| < 0x1_0000 && Unpack(data, ts).Ok?
    ensures var blocks := Unpack(data, ts).value;
            && 1 <= |blocks| && 4 * |blocks| - 3 <= |data|
            && BlockBytes(blocks) == data[4 * |blocks| - 3..]
  {
    UnpackSoundness(data, ts);
  }

  // ---------------------------------------------------------------- what is accepted, byte by byte

  /** The byte where header k would start marks a redundant block. */
  predicate Marked(data: Bytes, k: nat) {
    4 * k < |data| && data[4 * k] >= 0x80
  }

  /** Exactly n redundant headers, and behind them the header of the primary block. */
  predicate HasHeaders(data: Bytes, n: nat) {
    4 * n < |data| && !Marked(data, n) && forall k :: 0 <= k < n ==> Marked(data, k)
  }

  function HeaderAt(data: Bytes, k: nat): Header
    requires 4 * k + 4 <= |data|
  {
    Header(data[4 * k] % 0x80, OffsetField(data[4 * k + 1], data[4 * k + 2]),
           LengthField(data[4 * k + 2], data[4 * k + 3]), false)
  }

  /** The lengths that the first k headers give, added up. */
  function LengthsTo(data: Bytes, k: nat): nat
    requires 4 * k <= |data|
  {
    if k == 0 then 0 else LengthsTo(data, k - 1) + HeaderAt(data, k - 1).length
  }

  lemma MarkedLater(data: Bytes, k: nat)
    requires |data| >= 4
    ensures Marked(data[4..], k) == Marked(data, k + 1)
    ensures 4 * k + 8 <= |data| ==> HeaderAt(data[4..], k) == HeaderAt(data, k + 1)
  {
    assert 4 * (k + 1) == 4 * k + 4;
    if 4 * k + 4 < |data| {
      assert data[4..][4 * k] == data[4 * (k + 1)];
    }
  }

  lemma HasHeadersLater(data: Bytes, n: nat)
    requires HasHeaders(data, n) && n > 0
    ensures HasHeaders(data[4..], n - 1)
  {
    assert Marked(data, 0);
    MarkedLater(data, n - 1);
    forall k | 0 <= k < n - 1
      ensures Marked(data[4..], k)
    {
      MarkedLater(data, k);
    }
  }

  /** Headers that are there are read as they are. */
  lemma {:induction false} ScanReads(data: Bytes, n: nat)
    requires HasHeaders(data, n)
    ensures ScanHeaders(data).Ok?
    ensures var h := ScanHeaders(data).value;
            && |h.redundant| == n && h.primaryType == data[4 * n]
            && forall k :: 0 <= k < n ==> h.redundant[k] == HeaderAt(data, k)
  {
    hide HeaderAt;
    if n == 0 {
    } else {
      assert Marked(data, 0);
      HasHeadersLater(data, n);
      ScanReads(data[4..], n - 1);
      FirstHeader(data);
      forall k | 0 < k < n
        ensures ScanHeaders(data).value.redundant[k] == HeaderAt(data, k)
      {
        MarkedLater(data, k - 1);
      }
    }
  }

  lemma FirstHeader(data: Bytes)
    requires |data| >= 4 && data[0] >= 0x80
    ensures ScanHeaders(data) == Prepend([HeaderAt(data, 0)], ScanHeaders(data[4..]))
  {
  }

  /** Bytes without such headers are refused: they end after a marked byte, or inside the header it starts. */
  lemma {:induction false} ScanRefuses(data: Bytes)
    ensures ScanHeaders(data).Ok? ==> HasHeaders(data, |ScanHeaders(data).value.redundant|)
    ensures ScanHeaders(data).Err? ==>
              ScanHeaders(data).error == if |data| % 4 == 0 then HeaderOutOfBounds else RedundantHeaderOutOfBounds
    ensures ScanHeaders(data).Err? ==> forall k: nat :: 4 * k < |data| ==> Marked(data, k)
  {
    hide HeaderAt, OffsetField, LengthField;
    if |data| < 4 || data[0] < 0x80 {
    } else {
      ScanRefuses(data[4..]);
      FirstHeader(data);
      assert Marked(data, 0);
      forall k: nat | k > 0
        ensures Marked(data, k) == Marked(data[4..], k - 1)
      {
        MarkedLater(data, k - 1);
      }
    }
  }

  /** The place where the k-th block starts. */
  function BlockStart(data: Bytes, n: nat, k: nat): nat
    requires 4 * k <= |data|
  {
    4 * n + 1 + LengthsTo(data, k)
  }

  /** Exactly n redundant headers whose blocks, as long as they say, fit behind all the headers. */
  predicate Describes(data: Bytes, n: nat) {
    HasHeaders(data, n) && BlockStart(data, n, n) <= |data|
  }

  lemma {:induction false} TotalIsLengths(data: Bytes, hs: seq<Header>, k: nat)
    requires k <= |hs| && 4 * |hs| <= |data|
    requires forall i :: 0 <= i < |hs| ==> hs[i] == HeaderAt(data, i)
    ensures Total(hs[..k]) == LengthsTo(data, k)
  {
    if k == 0 {
    } else {
      TotalIsLengths(data, hs, k - 1);
      TotalConcat(hs[..k - 1], [hs[k - 1]]);
      assert hs[..k] == hs[..k - 1] + [hs[k - 1]];
    }
  }

  lemma TotalWithFirst(hs: seq<Header>, k: nat)
    requires 1 <= k <= |hs|
    ensures Total(hs[..k]) == hs[0].length + Total(hs[1..][..k - 1])
  {
    assert hs[..k] == [hs[0]] + hs[1..][..k - 1];
  }

  lemma SliceBehind(body: Bytes, n: nat, at: nat, length: nat)
    requires n + at + length <= |body|
    ensures body[n..][at..at + length] == body[n + at..n + at + length]
  {
  }

  lemma {:induction false} BlockAt(body: Bytes, hs: seq<Header>, ts: U32, k: nat)
    requires Total(hs) <= |body| && k < |hs|
    ensures |CutBlocks(body, hs, ts)| == |hs|
    ensures Total(hs[..k]) + hs[k].length <= |body|
    ensures CutBlocks(body, hs, ts)[k]
            == RedBlock(hs[k].pt, Sub32(ts, hs[k].offset), body[Total(hs[..k])..Total(hs[..k]) + hs[k].length])
  {
    hide Sub32;
    CutBlocksShape(body, hs, ts);
    if k == 0 {
      assert hs[..0] == [];
    } else {
      var n := hs[0].length;
      BlockAt(body[n..], hs[1..], ts, k - 1);
      TotalWithFirst(hs, k);
      SliceBehind(body, n, Total(hs[1..][..k - 1]), hs[k].length);
    }
  }

  lemma HeadersAreUnique(data: Bytes, n: nat, m: nat)
    requires HasHeaders(data, n) && HasHeaders(data, m)
    ensures n == m
  {
    assert n < m ==> Marked(data, n);
    assert m < n ==> Marked(data, m);
  }

  lemma ScannedTotal(data: Bytes, n: nat)
    requires HasHeaders(data, n)
    ensures ScanHeaders(data).Ok? && |ScanHeaders(data).value.redundant| == n
    ensures Total(ScanHeaders(data).value.redundant) == LengthsTo(data, n)
  {
    ScanReads(data, n);
    var hs := ScanHeaders(data).value.redundant;
    TotalIsLengths(data, hs, n);
    assert hs[..n] == hs;
  }

  /** A payload is accepted if and only if it has headers and the blocks they announce fit behind them. */
  lemma AcceptedExactly(data: Bytes, ts: U32)
    ensures Unpack(data, ts).Ok? <==> exists n: nat :: Describes(data, n)
  {
    hide HeaderAt, HasHeaders, CutBlocks, ScanHeaders, LengthsTo;
    ScanRefuses(data);
    if ScanHeaders(data).Ok? {
      var n := |ScanHeaders(data).value.redundant|;
      ScannedTotal(data, n);
      NotEmpty(data, n);
      ScanFits(data);
      assert |data[4 * n + 1..]| == |data| - (4 * n + 1);
      assert Unpack(data, ts).Ok? <==> Describes(data, n);
      forall m: nat | Describes(data, m)
        ensures m == n
      {
        HeadersAreUnique(data, n, m);
      }
    } else {
      forall n: nat
        ensures !Describes(data, n)
      {
        if HasHeaders(data, n) {
          ScanReads(data, n);
        }
      }
    }
  }

  lemma NotEmpty(data: Bytes, n: nat)
    requires HasHeaders(data, n)
    ensures |data| > 0
  {
  }

  lemma UnpackIsCut(data: Bytes, ts: U32, n: nat)
    requires Describes(data, n)
    ensures ScanHeaders(data).Ok? && ScanHeaders(data).value.Size() == 4 * n + 1 <= |data|
    ensures var h, body := ScanHeaders(data).value, data[4 * n + 1..];
            && |h.redundant| == n && Total(h.redundant) <= |body| && Total(AllHeaders(h, |body|)) <= |body|
            && Unpack(data, ts) == Ok(CutBlocks(body, AllHeaders(h, |body|), ts))
            && |Unpack(data, ts).value| == n + 1
  {
    hide ScanHeaders, CutBlocks, Total, LengthsTo;
    ScannedTotal(data, n);
    CutAllHeaders(ScanHeaders(data).value, data[4 * n + 1..], ts);
  }

  /**
   * Then block k has the type of header k, the timestamp that lies its offset back, and the bytes that
   * follow those of the blocks before it; the last block takes the rest, up to the cast to uint16.
   */
  lemma UnpackedBlocks(data: Bytes, ts: U32, n: nat, k: nat)
    requires Describes(data, n) && k <= n
    ensures Unpack(data, ts).Ok? && |Unpack(data, ts).value| == n + 1
    ensures var at := BlockStart(data, n, k);
            var length := if k < n then HeaderAt(data, k).length else (|data| - at) % 0x1_0000;
            && at + length <= |data|
            && Unpack(data, ts).value[k]
               == RedBlock(if k < n then data[4 * k] % 0x80 else data[4 * n],
                           if k < n then Sub32(ts, HeaderAt(data, k).offset) else ts,
                           data[at..at + length])
  {
    hide ScanHeaders, CutBlocks, LengthField, OffsetField, Total, LengthsTo, Unpack, HasHeaders;
    ScanReads(data, n);
    UnpackIsCut(data, ts, n);
    var h, body := ScanHeaders(data).value, data[4 * n + 1..];
    var hs := AllHeaders(h, |body|);
    BlockAt(body, hs, ts, k);
    TotalIsLengths(data, h.redundant, k);
    assert hs[..k] == h.redundant[..k] && h.redundant[..n] == h.redundant;
    SliceBehind(data, 4 * n + 1, LengthsTo(data, k), hs[k].length);
  }

  // ---------------------------------------------------------------- round trip

  function BlockOf(packet: MediaPacket): RedBlock {
    RedBlock(packet.payloadType, packet.timestamp, packet.payload)
  }

  /** What the receiver of a RED packet should find in it: the older frames, then the primary one. */
  function BlocksOf(packets: seq<MediaPacket>): (blocks: seq<RedBlock>)
    ensures |blocks| == |packets|
    ensures forall k :: 0 <= k < |packets| ==> blocks[k] == BlockOf(packets[k])
  {
    if packets == [] then [] else [BlockOf(packets[0])] + BlocksOf(packets[1..])
  }

  /** The block fits the bit fields of its header. */
  predicate BlockFits(b: MediaPacket, ts: U32) {
    b.payloadType < 0x80 && Sub32(ts, b.timestamp) < 0x4000 && |b.payload| < 0x400
  }

  predicate Fits(redundant: seq<MediaPacket>, primary: MediaPacket) {
    && (forall b <- redundant :: BlockFits(b, primary.timestamp))
    && primary.payloadType < 0x80 && |primary.payload| < 0x1_0000
  }

  /** The header that comes back for a block: each field reduced to its width. */
  function HeaderOf(b: MediaPacket, ts: U32): Header {
    Header(b.payloadType % 0x80, Sub32(ts, b.timestamp) % 0x4000, |b.payload| % 0x400, false)
  }

  function HeadersOf(redundant: seq<MediaPacket>, ts: U32): (hs: seq<Header>)
    ensures |hs| == |redundant|
    ensures forall k :: 0 <= k < |hs| ==> hs[k] == HeaderOf(redundant[k], ts)
  {
    if redundant == [] then [] else [HeaderOf(redundant[0], ts)] + HeadersOf(redundant[1..], ts)
  }

  lemma {:induction false} ScanEncoded(redundant: seq<MediaPacket>, ts: U32, pt: Byte, rest: Bytes)
    requires pt < 0x80
    ensures ScanHeaders(EncodeHeaders(redundant, ts) + [pt] + rest) == Ok(Headers(HeadersOf(redundant, ts), pt))
  {
    var data := EncodeHeaders(redundant, ts) + [pt] + rest;
    if redundant == [] {
    } else {
      var b := redundant[0];
      assert data[4..] == EncodeHeaders(redundant[1..], ts) + [pt] + rest;
      ScanEncoded(redundant[1..], ts, pt, rest);
    }
  }

  lemma {:induction false} HeadersFit(redundant: seq<MediaPacket>, ts: U32)
    ensures Total(HeadersOf(redundant, ts)) <= |Payloads(redundant)|
    ensures (forall b <- redundant :: |b.payload| < 0x400) ==>
              Total(HeadersOf(redundant, ts)) == |Payloads(redundant)|
  {
    hide Sub32;
    if redundant == [] {
    } else {
      HeadersFit(redundant[1..], ts);
      assert HeaderOf(redundant[0], ts).length <= |redundant[0].payload|;
      assert HeadersOf(redundant, ts)[1..] == HeadersOf(redundant[1..], ts);
    }
  }

  /** Unpacking a written packet always succeeds, with the headers reduced to their field widths. */
  lemma UnpackEncoded(redundant: seq<MediaPacket>, primary: MediaPacket)
    ensures var body := Payloads(redundant) + primary.payload;
            var h := Headers(HeadersOf(redundant, primary.timestamp), primary.payloadType % 0x80);
            && Total(h.redundant) <= |body|
            && Total(AllHeaders(h, |body|)) <= |body|
            && Unpack(EncodeRed(redundant, primary), primary.timestamp)
               == Ok(CutBlocks(body, AllHeaders(h, |body|), primary.timestamp))
  {
    var ts, pt := primary.timestamp, primary.payloadType % 0x80;
    var data, body := EncodeRed(redundant, primary), Payloads(redundant) + primary.payload;
    var h := Headers(HeadersOf(redundant, ts), pt);
    assert data == EncodeHeaders(redundant, ts) + [pt] + body;
    ScanEncoded(redundant, ts, pt, body);
    assert data[h.Size()..] == body;
    HeadersFit(redundant, ts);
    CutAllHeaders(h, body, ts);
  }

  lemma CutFirst(h: Header, hs: seq<Header>, payload: Bytes, tail: Bytes, ts: U32)
    requires h.length == |payload| && Total(hs) <= |tail|
    ensures Total([h] + hs) <= |payload + tail|
    ensures CutBlocks(payload + tail, [h] + hs, ts)
            == [RedBlock(h.pt, Sub32(ts, h.offset), payload)] + CutBlocks(tail, hs, ts)
  {
    assert ([h] + hs)[1..] == hs;
    assert (payload + tail)[..|payload|] == payload;
    assert (payload + tail)[|payload|..] == tail;
  }

  lemma FittingHeaderIsExact(b: MediaPacket, ts: U32)
    requires BlockFits(b, ts)
    ensures var h := HeaderOf(b, ts);
            h.length == |b.payload| && RedBlock(h.pt, Sub32(ts, h.offset), b.payload) == BlockOf(b)
  {
  }

  lemma {:induction false} CutWritten(redundant: seq<MediaPacket>, ts: U32, last: Header, rest: Bytes)
    requires forall k :: 0 <= k < |redundant| ==> BlockFits(redundant[k], ts)
    requires last.length == |rest|
    ensures var hs := HeadersOf(redundant, ts) + [last];
            var body := Payloads(redundant) + rest;
            && Total(hs) <= |body|
            && CutBlocks(body, hs, ts)
               == BlocksOf(redundant) + [RedBlock(last.pt, Sub32(ts, last.offset), rest)]
  {
    if redundant == [] {
      CutFirst(last, [], rest, [], ts);
      assert [last] + [] == [last] == HeadersOf(redundant, ts) + [last];
      assert rest + [] == rest == Payloads(redundant) + rest;
    } else {
      var b, older := redundant[0], redundant[1..];
      var hs, tail := HeadersOf(older, ts) + [last], Payloads(older) + rest;
      var h, block := HeaderOf(b, ts), RedBlock(last.pt, Sub32(ts, last.offset), rest);
      FittingHeaderIsExact(b, ts);
      CutWritten(older, ts, last, rest);
      CutFirst(h, hs, b.payload, tail, ts);
      Assoc([h], HeadersOf(older, ts), [last]);
      Assoc(b.payload, Payloads(older), rest);
      Assoc([BlockOf(b)], BlocksOf(older), [block]);
    }
  }

  lemma PrimaryHeader(redundant: seq<MediaPacket>, primary: MediaPacket)
    requires Fits(redundant, primary)
    ensures var hs := HeadersOf(redundant, primary.timestamp);
            var body := Payloads(redundant) + primary.payload;
            && Total(hs) <= |body|
            && AllHeaders(Headers(hs, primary.payloadType % 0x80), |body|)
               == hs + [Header(primary.payloadType, 0, |primary.payload|, true)]
  {
    assert forall b <- redundant :: BlockFits(b, primary.timestamp);
    HeadersFit(redundant, primary.timestamp);
  }

  lemma RoundTripIfFits(redundant: seq<MediaPacket>, primary: MediaPacket)
    requires Fits(redundant, primary)
    ensures Unpack(EncodeRed(redundant, primary), primary.timestamp) == Ok(BlocksOf(redundant + [primary]))
  {
    PrimaryHeader(redundant, primary);
    assert forall k :: 0 <= k < |redundant| ==> BlockFits(redundant[k], primary.timestamp);
    CutWritten(redundant, primary.timestamp, Header(primary.payloadType, 0, |primary.payload|, true), primary.payload);
    assert BlocksOf(redundant + [primary]) == BlocksOf(redundant) + [BlockOf(primary)];
    UnpackEncoded(redundant, primary);
  }

  lemma FitsIfRoundTrip(redundant: seq<MediaPacket>, primary: MediaPacket)
    requires Unpack(EncodeRed(redundant, primary), primary.timestamp) == Ok(BlocksOf(redundant + [primary]))
    ensures Fits(redundant, primary)
  {
    hide Unpack, EncodeRed, CutBlocks;
    var ts := primary.timestamp;
    var body := Payloads(redundant) + primary.payload;
    UnpackEncoded(redundant, primary);
    var all := AllHeaders(Headers(HeadersOf(redundant, ts), primary.payloadType % 0x80), |body|);
    CutBlocksShape(body, all, ts);
    forall k | 0 <= k <= |redundant|
      ensures var p := (redundant + [primary])[k];
              && all[k].pt == p.payloadType && Sub32(ts, all[k].offset) == p.timestamp
              && all[k].length == |p.payload|
    {
      assert BlocksOf(redundant + [primary])[k] == BlockOf((redundant + [primary])[k]);
    }
    forall k | 0 <= k < |redundant|
      ensures BlockFits(redundant[k], ts)
    {
      assert (redundant + [primary])[k] == redundant[k];
      assert all[k] == HeaderOf(redundant[k], ts);
    }
    assert (redundant + [primary])[|redundant|] == primary;
  }

  /**
   * The round trip, exactly: parsing what the writer wrote gives back the older frames and the
   * primary frame, payloads, types and timestamps alike, if and only if every redundant block fits
   * its 7-, 14- and 10-bit fields and the primary one its type and a uint16 length.
   */
  lemma RoundTripExactly(redundant: seq<MediaPacket>, primary: MediaPacket)
    ensures Unpack(EncodeRed(redundant, primary), primary.timestamp) == Ok(BlocksOf(redundant + [primary]))
            <==> Fits(redundant, primary)
  {
    if Fits(redundant, primary) {
      RoundTripIfFits(redundant, primary);
    } else if Unpack(EncodeRed(redundant, primary), primary.timestamp) == Ok(BlocksOf(redundant + [primary])) {
      FitsIfRoundTrip(redundant, primary);
    }
  }
}
