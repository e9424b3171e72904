/**
 * The byte layout of RED packets (section 3 of RFC 2198): the writer inside RedPacker.Pack, the
 * parser UnpackRED, and what the two mean to each other.
 *
 * A byte is an integer below 256; shifts and masks are those of Bits.
 */
module RedCodec {
  import opened Basics
  import opened Bits

  const OPUS: Byte := 111
  const RED: Byte := 112

  datatype MediaPacket = MediaPacket(seqNum: U16, timestamp: U32, payloadType: Byte, payload: Bytes)

  datatype RedBlock = RedBlock(payloadType: Byte, timestamp: U32, payload: Bytes)

  /** One parsed block header; the last one describes the primary block. */
  datatype Header = Header(pt: Byte, offset: U32, length: U16, isLast: bool)

  datatype RedError =
    | EmptyPayload
    | HeaderOutOfBounds
    | RedundantHeaderOutOfBounds
    | LengthsExceedPayload
    | BlockOutOfBounds

  datatype Result<+T> = Ok(value: T) | Err(error: RedError)

  // ---------------------------------------------------------------- layout

  /** The writer's shifts and masks (red.go:107-118) are divisions and remainders. */
  lemma WriterBitFields(pt: Byte, offset: U32, length: nat)
    ensures Or(0x80, And(pt, 0x7F)) == 0x80 + pt % 0x80
    ensures And(ShiftRight(offset, 6), 0xFF) == offset / 64 % 256
    ensures Or(ShiftLeft(And(offset, 0x3F), 2), And(ShiftRight(length, 8), 0x03)) == offset % 64 * 4 + length / 256 % 4
    ensures And(length, 0xFF) == length % 256
    ensures And(pt, 0x7F) == pt % 0x80
  {
    hide And, Or, ShiftLeft, ShiftRight, Pow2;
    Powers();
    MaskIsRemainder(pt, 7);
    OrIsSum(1, pt % 0x80, 7);
    ShiftsAreProducts(offset, 6);
    MaskIsRemainder(offset / 64, 8);
    MaskIsRemainder(offset, 6);
    ShiftsAreProducts(offset % 64, 2);
    ShiftsAreProducts(length, 8);
    MaskIsRemainder(length / 256, 2);
    OrIsSum(offset % 64, length / 256 % 4, 2);
    MaskIsRemainder(length, 8);
  }

  /** So are the parser's (red.go:155-182). */
  lemma ParserBitFields(b0: Byte, b1: Byte, b2: Byte, b3: Byte)
    ensures And(b0, 0x80) == 0 <==> b0 < 0x80
    ensures And(b0, 0x7F) == b0 % 0x80
    ensures Or(ShiftLeft(b1, 6), ShiftRight(b2, 2)) == b1 * 64 + b2 / 4
    ensures Or(ShiftLeft(And(b2, 0x03), 8), b3) == b2 % 4 * 256 + b3
  {
    hide And, Or, ShiftLeft, ShiftRight, Pow2;
    Powers();
    SingleBit(b0, 7);
    MaskIsRemainder(b0, 7);
    ShiftsAreProducts(b1, 6);
    ShiftsAreProducts(b2, 2);
    OrIsSum(b1, b2 / 4, 6);
    MaskIsRemainder(b2, 2);
    ShiftsAreProducts(b2 % 4, 8);
    OrIsSum(b2 % 4, b3, 8);
  }

  /** The 14-bit timestamp offset held by the second and third byte of a redundant header. */
  function OffsetField(b1: Byte, b2: Byte): (offset: U32)
    ensures offset < 0x4000
  {
    ParserBitFields(0, b1, b2, 0);
    Or(ShiftLeft(b1, 6), ShiftRight(b2, 2))
  }

  /** The 10-bit block length held by the third and fourth byte of a redundant header. */
  function LengthField(b2: Byte, b3: Byte): (length: U16)
    ensures length < 0x400
  {
    ParserBitFields(0, 0, b2, b3);
    Or(ShiftLeft(And(b2, 0x03), 8), b3)
  }

  lemma FieldsComeBack(pt: Byte, offset: U32, length: nat)
    ensures var b0, b1 := Or(0x80, And(pt, 0x7F)), And(ShiftRight(offset, 6), 0xFF);
            var b2 := Or(ShiftLeft(And(offset, 0x3F), 2), And(ShiftRight(length, 8), 0x03));
            var b3 := And(length, 0xFF);
            && 0x80 <= b0 < 0x100 && b0 % 0x80 == pt % 0x80 && b1 < 0x100 && b2 < 0x100 && b3 < 0x100
            && OffsetField(b1, b2) == offset % 0x4000 && LengthField(b2, b3) == length % 0x400
  {
    hide And, Or, ShiftLeft, ShiftRight;
    WriterBitFields(pt, offset, length);
    var b2 := offset % 64 * 4 + length / 256 % 4;
    assert b2 / 4 == offset % 64 && b2 % 4 == length / 256 % 4;
    ParserBitFields(0, offset / 64 % 256, b2, length % 256);
    Remainder(offset, 0x4000, offset / 64 / 256, offset / 64 % 256 * 64 + offset % 64);
    Remainder(length, 0x400, length / 256 / 4, length / 256 % 4 * 256 + length % 256);
  }

  /**
   * The four bytes F=1|PT, offset(14 bits), length(10 bits) of a redundant block. They are read back as
   * type, offset and length reduced to their widths.
   */
  function HeaderBytes(pt: Byte, offset: U32, length: nat): (bytes: Bytes)
    ensures |bytes| == 4 && bytes[0] >= 0x80 && bytes[0] % 0x80 == pt % 0x80
    ensures OffsetField(bytes[1], bytes[2]) == offset % 0x4000
    ensures LengthField(bytes[2], bytes[3]) == length % 0x400
  {
    FieldsComeBack(pt, offset, length);
    [Or(0x80, And(pt, 0x7F)),
     And(ShiftRight(offset, 6), 0xFF),
     Or(ShiftLeft(And(offset, 0x3F), 2), And(ShiftRight(length, 8), 0x03)),
     And(length, 0xFF)]
  }

  function EncodeHeaders(redundant: seq<MediaPacket>, ts: U32): (bytes: Bytes)
    ensures |bytes| == 4 * |redundant|
  {
    if redundant == [] then []
    else
      var b := redundant[0];
      HeaderBytes(b.payloadType, Sub32(ts, b.timestamp), |b.payload|) + EncodeHeaders(redundant[1..], ts)
  }

  function Payloads(packets: seq<MediaPacket>): Bytes {
    if packets == [] then [] else packets[0].payload + Payloads(packets[1..])
  }

  /** The payload of the RED packet for a primary frame and its redundant predecessors. */
  function EncodeRed(redundant: seq<MediaPacket>, primary: MediaPacket): Bytes {
    EncodeHeaders(redundant, primary.timestamp) + [primary.payloadType % 0x80]
    + Payloads(redundant) + primary.payload
  }

  // ---------------------------------------------------------------- meaning of a payload

  /** The redundant headers and the primary payload type that some bytes start with. */
  datatype Headers = Headers(redundant: seq<Header>, primaryType: Byte) {
    function Size(): nat { 4 * |redundant| + 1 }
  }

  function ScanHeaders(data: Bytes): Result<Headers> {
    if |data| == 0 then Err(HeaderOutOfBounds)
    else if data[0] < 0x80 then Ok(Headers([], data[0]))
    else if |data| < 4 then Err(RedundantHeaderOutOfBounds)
    else
      var h := Header(data[0] % 0x80, OffsetField(data[1], data[2]), LengthField(data[2], data[3]), false);
      Prepend([h], ScanHeaders(data[4..]))
  }

  function Prepend(hs: seq<Header>, r: Result<Headers>): Result<Headers> {
    match r
    case Err(e) => Err(e)
    case Ok(s) => Ok(s.(redundant := hs + s.redundant))
  }

  /** The exact sum of the block lengths; the parser has it only modulo 65536. */
  function Total(hs: seq<Header>): nat {
    if hs == [] then 0 else hs[0].length + Total(hs[1..])
  }

  /** Cuts a body into consecutive blocks, one for each header. */
  function CutBlocks(body: Bytes, hs: seq<Header>, ts: U32): seq<RedBlock>
    requires Total(hs) <= |body|
  {
    if hs == [] then []
    else
      [RedBlock(hs[0].pt, Sub32(ts, hs[0].offset), body[..hs[0].length])]
      + CutBlocks(body[hs[0].length..], hs[1..], ts)
  }

  function AllHeaders(h: Headers, bodySize: nat): seq<Header>
    requires Total(h.redundant) <= bodySize
  {
    h.redundant + [Header(h.primaryType, 0, (bodySize - Total(h.redundant)) % 0x1_0000, true)]
  }

  /**
   * What a RED payload means, with exact sums: it is refused if its headers do not end inside it or
   * if its redundant blocks do not fit behind them; otherwise it is the blocks its headers describe.
   */
  function Unpack(data: Bytes, ts: U32): Result<seq<RedBlock>> {
    if |data| == 0 then Err(EmptyPayload)
    else
      match ScanHeaders(data)
      case Err(e) => Err(e)
      case Ok(h) =>
        ScanFits(data);
        var body := data[h.Size()..];
        var total := Total(h.redundant);
        if total > |body| then
          Err(if total % 0x1_0000 > |body| then LengthsExceedPayload else BlockOutOfBounds)
        else
          TotalConcat(h.redundant, AllHeaders(h, |body|)[|h.redundant|..]);
          Ok(CutBlocks(body, AllHeaders(h, |body|), ts))
  }

  // ---------------------------------------------------------------- sums and scans

  lemma {:induction false} TotalConcat(a: seq<Header>, b: seq<Header>)
    ensures Total(a + b) == Total(a) + Total(b)
  {
    if a == [] {
      assert a + b == b;
    } else {
      assert (a + b)[1..] == a[1..] + b;
      TotalConcat(a[1..], b);
    }
  }

  lemma PrependNothing(r: Result<Headers>)
    ensures Prepend([], r) == r
  {
    if r.Ok? {
      assert [] + r.value.redundant == r.value.redundant;
    }
  }

  lemma PrependTwice(a: seq<Header>, b: seq<Header>, r: Result<Headers>)
    ensures Prepend(a, Prepend(b, r)) == Prepend(a + b, r)
  {
    if r.Ok? {
      assert a + (b + r.value.redundant) == a + b + r.value.redundant;
    }
  }

  /** Headers never reach past the end of what they were read from. */
  lemma {:induction false} ScanFits(data: Bytes)
    ensures ScanHeaders(data).Ok? ==> ScanHeaders(data).value.Size() <= |data|
    ensures ScanHeaders(data).Ok? ==> forall h <- ScanHeaders(data).value.redundant :: !h.isLast
  {
    if |data| < 4 || data[0] < 0x80 {
    } else {
      ScanFits(data[4..]);
    }
  }

  // ---------------------------------------------------------------- the parser, as a program

  /** red.go:151-191: the index-driven loop over the block headers. */
  method ReadHeaders(redPayload: Bytes) returns (r: Result<Headers>)
    ensures r == ScanHeaders(redPayload)
  {
    var headers: seq<Header> := [];
    var readIdx := 0;
    assert redPayload[readIdx..] == redPayload;
    PrependNothing(ScanHeaders(redPayload));
    while true
      invariant 0 <= readIdx <= |redPayload|
      invariant ScanHeaders(redPayload) == Prepend(headers, ScanHeaders(redPayload[readIdx..]))
      decreases |redPayload| - readIdx
    {
      if readIdx >= |redPayload| {
        return Err(HeaderOutOfBounds);
      }
      var b := redPayload[readIdx];
      if b < 0x80 {
        assert headers + [] == headers;
        return Ok(Headers(headers, b % 0x80));
      }
      if readIdx + 3 >= |redPayload| {
        return Err(RedundantHeaderOutOfBounds);
      }
      var offset := OffsetField(redPayload[readIdx + 1], redPayload[readIdx + 2]);
      var length := LengthField(redPayload[readIdx + 2], redPayload[readIdx + 3]);
      var h := Header(b % 0x80, offset, length, false);
      assert redPayload[readIdx..][4..] == redPayload[readIdx + 4..];
      PrependTwice(headers, [h], ScanHeaders(redPayload[readIdx + 4..]));
      headers := headers + [h];
      readIdx := readIdx + 4;
    }
  }

  /**
   * UnpackRED as the source runs it: an index-driven header loop, a uint16 length sum that may wrap,
   * and a bounds-checked cutting loop. It computes exactly the wrap-free meaning above, errors
   * included.
   */
  method UnpackRED(redPayload: Bytes, primaryTimestamp: U32) returns (r: Result<seq<RedBlock>>)
    ensures r == Unpack(redPayload, primaryTimestamp)
  {
    if |redPayload| < 1 {
      return Err(EmptyPayload);
    }
    var scan := ReadHeaders(redPayload);
    if scan.Err? {
      return Err(scan.error);
    }
    ScanFits(redPayload);
    var scanned := scan.value;
    var totalHeadersSize := scanned.Size();
    var headers := scanned.redundant + [Header(scanned.primaryType, 0, 0, true)];

    var redundantSum := SumLengths(headers);
    assert headers[..|headers| - 1] == scanned.redundant;
    var primaryLength := |redPayload| - totalHeadersSize - redundantSum;
    WrappedSumIsSafe(scanned, |redPayload| - totalHeadersSize);
    if primaryLength < 0 {
      return Err(LengthsExceedPayload);
    }
    var last := Header(scanned.primaryType, 0, primaryLength % 0x1_0000, true);
    headers := headers[|headers| - 1 := last];
    assert headers == scanned.redundant + [last];
    r := CutLoop(redPayload, totalHeadersSize, headers, primaryTimestamp);
  }

  /** red.go:194-199: the lengths of the redundant headers, added up in a uint16. */
  method SumLengths(headers: seq<Header>) returns (redundantSum: U16)
    requires |headers| > 0
    requires forall k :: 0 <= k < |headers| ==> (headers[k].isLast <==> k == |headers| - 1)
    ensures redundantSum == Total(headers[..|headers| - 1]) % 0x1_0000
  {
    redundantSum := 0;
    for i := 0 to |headers|
      invariant redundantSum == Total(headers[..if i < |headers| then i else i - 1]) % 0x1_0000
    {
      var h := headers[i];
      if !h.isLast {
        OneMoreLength(headers, i);
        redundantSum := (redundantSum + h.length) % 0x1_0000;
      }
    }
  }

  lemma OneMoreLength(headers: seq<Header>, i: nat)
    requires i < |headers|
    ensures (Total(headers[..i]) % 0x1_0000 + headers[i].length) % 0x1_0000 == Total(headers[..i + 1]) % 0x1_0000
  {
    TotalConcat(headers[..i], [headers[i]]);
    assert headers[..i + 1] == headers[..i] + [headers[i]];
  }

  /**
   * Why a wrapped sum is harmless: whatever was lost by wrapping, the blocks fit behind the headers
   * under the wrapped primary length if and only if the exact sum fits, and then that length is the
   * right one.
   */
  lemma WrappedSumIsSafe(h: Headers, bodySize: nat)
    ensures var total := Total(h.redundant);
            && (total % 0x1_0000 > bodySize ==> total > bodySize)
            && (total % 0x1_0000 <= bodySize ==>
                  var hs := h.redundant
                            + [Header(h.primaryType, 0, (bodySize - total % 0x1_0000) % 0x1_0000, true)];
                  && (Total(hs) <= bodySize <==> total <= bodySize)
                  && (total <= bodySize ==> hs == AllHeaders(h, bodySize)))
  {
    var total := Total(h.redundant);
    var wraps := total / 0x1_0000;
    assert total == wraps * 0x1_0000 + total % 0x1_0000;
    if total % 0x1_0000 <= bodySize {
      TotalConcat(h.redundant, [Header(h.primaryType, 0, (bodySize - total % 0x1_0000) % 0x1_0000, true)]);
    }
  }

  /** red.go:210-230: cut one block after the other, refusing to read past the end. */
  method CutLoop(data: Bytes, start: nat, headers: seq<Header>, ts: U32) returns (r: Result<seq<RedBlock>>)
    requires start <= |data|
    ensures r == if Total(headers) > |data| - start then Err(BlockOutOfBounds)
                 else Ok(CutBlocks(data[start..], headers, ts))
  {
    var blocks := [];
    var dataStart: nat := start;
    assert headers[0..] == headers;
    for i := 0 to |headers|
      invariant dataStart <= |data|
      invariant dataStart + Total(headers[i..]) == start + Total(headers)
      invariant Total(headers) <= |data| - start ==>
                  blocks + CutBlocks(data[dataStart..], headers[i..], ts) == CutBlocks(data[start..], headers, ts)
    {
      var h := headers[i];
      assert headers[i..][1..] == headers[i + 1..];
      if dataStart + h.length > |data| {
        return Err(BlockOutOfBounds);
      }
      var blockData := data[dataStart..dataStart + h.length];
      assert data[dataStart..][..h.length] == blockData;
      assert data[dataStart..][h.length..] == data[dataStart + h.length..];
      dataStart := dataStart + h.length;
      blocks := blocks + [RedBlock(h.pt, Sub32(ts, h.offset), blockData)];
    }
    assert blocks + [] == blocks;
    r := Ok(blocks);
  }
}
