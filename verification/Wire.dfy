/** Big-endian fields and RTP packets: what the adapter reads and the sender writes. */
module Wire {
  import opened Basics
  import opened Bits
  import opened RedCodec

  // ---------------------------------------------------------------- big-endian words

  function Be16(x: U16): Bytes {
    [x / 0x100, x % 0x100]
  }

  function Be32(x: U32): (bytes: Bytes)
    ensures |bytes| == 4
  {
    Be16(x / 0x1_0000) + Be16(x % 0x1_0000)
  }

  /** binary.BigEndian.PutUint32(dst[at:], x), for a buffer that is filled from the front. */
  method PutBe32(dst: array<Byte>, at: nat, x: U32)
    requires at + 4 <= dst.Length
    modifies dst
    ensures dst[..at + 4] == old(dst[..at]) + Be32(x)
    ensures forall k :: at + 4 <= k < dst.Length ==> dst[k] == old(dst[k])
  {
    hide Be32;
    CopyInto(dst, at, Be32(x));
    assert dst[..at + 4] == dst[..][..at + 4];
  }

  /** The same for 16 bits. */
  method PutBe16(dst: array<Byte>, at: nat, x: U16)
    requires at + 2 <= dst.Length
    modifies dst
    ensures dst[..at + 2] == old(dst[..at]) + Be16(x)
    ensures forall k :: at + 2 <= k < dst.Length ==> dst[k] == old(dst[k])
  {
    Be16Size(x);
    hide Be16;
    CopyInto(dst, at, Be16(x));
    assert dst[..at + 2] == dst[..][..at + 2];
  }

  function ReadBe16(data: Bytes, at: nat): U16
    requires at + 2 <= |data|
  {
    data[at] as int * 0x100 + data[at + 1] as int
  }

  function ReadBe32(data: Bytes, at: nat): U32
    requires at + 4 <= |data|
  {
    ReadBe16(data, at) as int * 0x1_0000 + ReadBe16(data, at + 2) as int
  }

  lemma Be16RoundTrip(before: Bytes, x: U16, after: Bytes)
    ensures ReadBe16(before + Be16(x) + after, |before|) == x
  {
  }

  lemma Be32RoundTrip(before: Bytes, x: U32, after: Bytes)
    ensures ReadBe32(before + Be32(x) + after, |before|) == x
  {
    var hi, lo := Be16(x / 0x1_0000), Be16(x % 0x1_0000);
    assert before + Be32(x) + after == before + hi + (lo + after) == (before + hi) + lo + after;
    Be16RoundTrip(before, x / 0x1_0000, lo + after);
    Be16RoundTrip(before + hi, x % 0x1_0000, after);
  }

  /** Reading a word and writing it again gives the bytes back. */
  lemma ReadBe16Inverse(data: Bytes, at: nat)
    requires at + 2 <= |data|
    ensures Be16(ReadBe16(data, at)) == data[at..at + 2]
  {
  }

  lemma ReadBe32Inverse(data: Bytes, at: nat)
    requires at + 4 <= |data|
    ensures Be32(ReadBe32(data, at)) == data[at..at + 4]
  {
    var hi, lo := ReadBe16(data, at), ReadBe16(data, at + 2);
    assert ReadBe32(data, at) / 0x1_0000 == hi && ReadBe32(data, at) % 0x1_0000 == lo;
    ReadBe16Inverse(data, at);
    ReadBe16Inverse(data, at + 2);
    assert data[at..at + 4] == data[at..at + 2] + data[at + 2..at + 4];
  }

  // ---------------------------------------------------------------- RTP packets

  /** A header extension: its profile word and its 32-bit words (section 5.3.1 of RFC 3550). */
  datatype Extension = Extension(profile: U16, words: seq<U32>)

  /**
   * An RTP packet (section 5.1 of RFC 3550). The padding bit is only carried along: the adapter does
   * not strip padding, so it counts as payload here too.
   */
  datatype RtpPacket = RtpPacket(
    padding: bool,
    marker: bool,
    payloadType: Byte,
    seqNum: U16,
    timestamp: U32,
    ssrc: U32,
    csrcs: seq<U32>,
    extension: Option<Extension>,
    payload: Bytes)

  predicate Representable(p: RtpPacket) {
    && p.payloadType < 0x80 && |p.csrcs| < 16
    && (p.extension.Some? ==> |p.extension.value.words| < 0x1_0000)
  }

  function Words(ws: seq<U32>): Bytes {
    if ws == [] then [] else Be32(ws[0]) + Words(ws[1..])
  }

  function ExtensionBytes(e: Extension): Bytes
    requires |e.words| < 0x1_0000
  {
    Be16(e.profile) + Be16(|e.words|) + Words(e.words)
  }

  function Bit(b: bool): nat {
    if b then 1 else 0
  }

  function FixedHeader(p: RtpPacket): (bytes: Bytes)
    requires Representable(p)
    ensures |bytes| == 12
  {
    [0x80 + Bit(p.padding) * 0x20 + Bit(p.extension.Some?) * 0x10 + |p.csrcs|,
     Bit(p.marker) * 0x80 + p.payloadType]
    + Be16(p.seqNum) + Be32(p.timestamp) + Be32(p.ssrc)
  }

  function EncodeRtp(p: RtpPacket): Bytes
    requires Representable(p)
  {
    FixedHeader(p) + Words(p.csrcs)
    + (if p.extension.Some? then ExtensionBytes(p.extension.value) else [])
    + p.payload
  }

  /** What the adapter keeps of a packet. */
  function MediaOf(p: RtpPacket): MediaPacket
    requires Representable(p)
  {
    MediaPacket(p.seqNum, p.timestamp, p.payloadType, p.payload)
  }

  /** rtp.go:154-191: where the payload starts, if the header is acceptable. */
  function HeaderLength(data: Bytes): Option<nat> {
    if |data| < 12 then None
    else if data[0] / 64 != 2 then None
    else
      var fixed := 12 + data[0] % 16 * 4;
      if |data| < fixed then None
      else if data[0] / 16 % 2 == 0 then Some(fixed)
      else if |data| < fixed + 4 then None
      else
        var whole := fixed + 4 + ReadBe16(data, fixed + 2) as int * 4;
        if |data| < whole then None else Some(whole)
  }

  function ParseRtp(data: Bytes): Option<MediaPacket> {
    match HeaderLength(data)
    case None => None
    case Some(n) =>
      if |data| < 12 || |data| <= n then None
      else Some(MediaPacket(ReadBe16(data, 2), ReadBe32(data, 4), data[1] % 0x80, data[n..]))
  }

  /** The parser as the source runs it, with its moving header length. */
  method Parse(data: Bytes) returns (r: Option<MediaPacket>)
    ensures r == ParseRtp(data)
  {
    if |data| < 12 {
      return None;
    }
    var version := data[0] / 64 % 4;
    if version != 2 {
      return None;
    }
    var cc := data[0] % 16;
    var x := data[0] / 16 % 2;
    var payloadType := data[1] % 0x80;
    var seqNum := ReadBe16(data, 2);
    var timestamp := ReadBe32(data, 4);

    var headerLen: nat := 12 + cc * 4;
    if |data| < headerLen {
      return None;
    }
    if x == 1 {
      if |data| < headerLen + 4 {
        return None;
      }
      var extLen: nat := ReadBe16(data, headerLen + 2);
      headerLen := headerLen + 4 + extLen * 4;
    }
    if |data| < headerLen {
      return None;
    }
    var payload := data[headerLen..];
    if |payload| == 0 {
      return None;
    }
    return Some(MediaPacket(seqNum, timestamp, payloadType, payload));
  }

  /** The shifts and masks of processPacket (rtp.go:160-167) are the divisions and remainders above. */
  lemma HeaderBitFields(b: Byte)
    ensures And(ShiftRight(b, 6), 0x03) == b / 64
    ensures And(b, 0x0F) == b % 16
    ensures And(ShiftRight(b, 4), 0x01) == b / 16 % 2
    ensures And(b, 0x7F) == b % 0x80
  {
    hide And, ShiftRight, Pow2;
    Powers();
    ShiftsAreProducts(b, 6);
    MaskIsRemainder(b / 64, 2);
    MaskIsRemainder(b, 4);
    ShiftsAreProducts(b, 4);
    MaskIsRemainder(b / 16, 1);
    MaskIsRemainder(b, 7);
  }

  lemma {:induction false} WordsSize(ws: seq<U32>)
    ensures |Words(ws)| == 4 * |ws|
  {
    if ws == [] {
    } else {
      WordsSize(ws[1..]);
    }
  }

  lemma FixedHeaderFields(p: RtpPacket, rest: Bytes)
    requires Representable(p)
    ensures var data := FixedHeader(p) + rest;
            && data[0] / 64 == 2 && data[0] % 16 == |p.csrcs|
            && data[0] / 16 % 2 == Bit(p.extension.Some?)
            && data[1] % 0x80 == p.payloadType
            && ReadBe16(data, 2) == p.seqNum && ReadBe32(data, 4) == p.timestamp
  {
    var data := FixedHeader(p) + rest;
    var two := FixedHeader(p)[..2];
    var tail := Be32(p.ssrc) + rest;
    assert data == two + Be16(p.seqNum) + (Be32(p.timestamp) + tail);
    Be16RoundTrip(two, p.seqNum, Be32(p.timestamp) + tail);
    assert data == (two + Be16(p.seqNum)) + Be32(p.timestamp) + tail;
    Be32RoundTrip(two + Be16(p.seqNum), p.timestamp, tail);
  }

  lemma ExtensionLength(before: Bytes, e: Extension, after: Bytes)
    requires |e.words| < 0x1_0000
    ensures |ExtensionBytes(e)| == 4 + 4 * |e.words|
    ensures ReadBe16(before + ExtensionBytes(e) + after, |before| + 2) == |e.words|
  {
    hide Be16, ReadBe16;
    WordsSize(e.words);
    Be16Size(e.profile);
    Be16Size(|e.words|);
    assert before + ExtensionBytes(e) + after
        == (before + Be16(e.profile)) + Be16(|e.words|) + (Words(e.words) + after);
    Be16RoundTrip(before + Be16(e.profile), |e.words|, Words(e.words) + after);
  }

  lemma Be16Size(x: U16)
    ensures |Be16(x)| == 2
  {
  }

  lemma HeaderLengthOf(p: RtpPacket)
    requires Representable(p)
    ensures |EncodeRtp(p)| >= |p.payload|
    ensures HeaderLength(EncodeRtp(p)) == Some(|EncodeRtp(p)| - |p.payload|)
  {
    hide FixedHeader, Be32, ReadBe16, ReadBe32, ExtensionBytes, Words;
    var data := EncodeRtp(p);
    WordsSize(p.csrcs);
    var ext := if p.extension.Some? then ExtensionBytes(p.extension.value) else [];
    var rest := Words(p.csrcs) + ext + p.payload;
    assert data == FixedHeader(p) + rest;
    FixedHeaderFields(p, rest);
    if p.extension.Some? {
      ExtensionLength(FixedHeader(p) + Words(p.csrcs), p.extension.value, p.payload);
    }
  }

  /** Whatever CSRCs and extension a packet has, the adapter finds its fields and its payload. */
  lemma ParseEncoded(p: RtpPacket)
    requires Representable(p)
    ensures ParseRtp(EncodeRtp(p)) == if p.payload == [] then None else Some(MediaOf(p))
  {
    hide FixedHeader, Be32, ReadBe16, ReadBe32, Words;
    var data := EncodeRtp(p);
    HeaderLengthOf(p);
    var ext := if p.extension.Some? then ExtensionBytes(p.extension.value) else [];
    assert data == FixedHeader(p) + (Words(p.csrcs) + ext + p.payload);
    FixedHeaderFields(p, Words(p.csrcs) + ext + p.payload);
    assert data[|data| - |p.payload|..] == p.payload;
  }

  function ReadWords(data: Bytes, at: nat, count: nat): (ws: seq<U32>)
    requires at + 4 * count <= |data|
    ensures |ws| == count
    decreases count
  {
    if count == 0 then [] else [ReadBe32(data, at)] + ReadWords(data, at + 4, count - 1)
  }

  lemma {:induction false} ReadWordsInverse(data: Bytes, at: nat, count: nat)
    requires at + 4 * count <= |data|
    ensures Words(ReadWords(data, at, count)) == data[at..at + 4 * count]
    decreases count
  {
    hide Be32, ReadBe32, Words;
    if count == 0 {
      assert Words([]) == [] by { NoWords(); }
    } else {
      var rest := ReadWords(data, at + 4, count - 1);
      ReadBe32Inverse(data, at);
      ReadWordsInverse(data, at + 4, count - 1);
      WordsCons(ReadBe32(data, at), rest);
      assert data[at..at + 4] + data[at + 4..at + 4 * count] == data[at..at + 4 * count];
    }
  }

  lemma NoWords()
    ensures Words([]) == []
  {
  }

  lemma WordsCons(w: U32, ws: seq<U32>)
    ensures Words([w] + ws) == Be32(w) + Words(ws)
  {
    assert ([w] + ws)[1..] == ws;
  }

  /** The RTP packet that acceptable bytes are the encoding of. */
  function Decode(data: Bytes): RtpPacket
    requires HeaderLength(data).Some?
  {
    var cc := data[0] % 16;
    var fixed := 12 + cc * 4;
    RtpPacket(
      data[0] / 32 % 2 == 1,
      data[1] >= 0x80,
      data[1] % 0x80,
      ReadBe16(data, 2),
      ReadBe32(data, 4),
      ReadBe32(data, 8),
      ReadWords(data, 12, cc),
      if data[0] / 16 % 2 == 0 then None
      else Some(Extension(ReadBe16(data, fixed), ReadWords(data, fixed + 4, ReadBe16(data, fixed + 2)))),
      data[HeaderLength(data).value..])
  }

  lemma FirstByte(b: Byte)
    requires b / 64 == 2
    ensures b == 0x80 + b / 32 % 2 * 0x20 + b / 16 % 2 * 0x10 + b % 16
  {
  }

  lemma DecodeFixed(data: Bytes)
    requires HeaderLength(data).Some?
    ensures Representable(Decode(data))
    ensures FixedHeader(Decode(data)) == data[..12]
  {
    hide Be32, Be16, ReadBe32, ReadBe16;
    FirstByte(data[0]);
    ReadBe16Inverse(data, 2);
    ReadBe32Inverse(data, 4);
    ReadBe32Inverse(data, 8);
    assert data[..12] == data[..2] + data[2..4] + data[4..8] + data[8..12];
  }

  lemma DecodeExtension(data: Bytes, at: nat)
    requires at + 4 <= |data| && at + 4 + ReadBe16(data, at + 2) as int * 4 <= |data|
    ensures var n: nat := ReadBe16(data, at + 2);
            ExtensionBytes(Extension(ReadBe16(data, at), ReadWords(data, at + 4, n))) == data[at..at + 4 + 4 * n]
  {
    hide Be32, Be16, ReadBe32, ReadBe16;
    var n: nat := ReadBe16(data, at + 2);
    ReadBe16Inverse(data, at);
    ReadBe16Inverse(data, at + 2);
    ReadWordsInverse(data, at + 4, n);
    assert data[at..at + 2] + data[at + 2..at + 4] + data[at + 4..at + 4 + 4 * n] == data[at..at + 4 + 4 * n];
  }

  lemma JoinFour(data: Bytes, a: nat, b: nat, c: nat)
    requires a <= b <= c <= |data|
    ensures data[..a] + data[a..b] + data[b..c] + data[c..] == data
  {
  }

  /** Where the parts of acceptable bytes lie. */
  lemma Parts(data: Bytes)
    requires HeaderLength(data).Some?
    ensures var fixed, whole := 12 + data[0] % 16 * 4, HeaderLength(data).value;
            && fixed <= whole <= |data|
            && (data[0] / 16 % 2 == 0 ==> whole == fixed)
            && (data[0] / 16 % 2 != 0 ==>
                  fixed + 4 <= |data| && whole == fixed + 4 + ReadBe16(data, fixed + 2) as int * 4)
  {
    hide ReadBe16;
  }

  lemma EncodeDecoded(data: Bytes)
    requires HeaderLength(data).Some?
    ensures Representable(Decode(data)) && EncodeRtp(Decode(data)) == data
  {
    hide HeaderLength, Be32, Be16, ReadBe32, ReadBe16, FixedHeader, ExtensionBytes, Words, ReadWords;
    DecodeFixed(data);
    Parts(data);
    var p, fixed, whole := Decode(data), 12 + data[0] % 16 * 4, HeaderLength(data).value;
    ReadWordsInverse(data, 12, data[0] % 16);
    if p.extension.Some? {
      DecodeExtension(data, fixed);
    } else {
      assert data[fixed..whole] == [];
    }
    JoinFour(data, 12, fixed, whole);
  }

  /**
   * The parser accepts exactly the RTP packets of version 2 with a payload, whatever their CSRC
   * count and extension, and nothing else; and what it extracts are that packet's own fields.
   */
  lemma ParseExactly(data: Bytes, media: MediaPacket)
    ensures ParseRtp(data) == Some(media) <==>
            exists p: RtpPacket :: Representable(p) && EncodeRtp(p) == data && p.payload != [] && MediaOf(p) == media
  {
    if ParseRtp(data) == Some(media) {
      EncodeDecoded(data);
      assert MediaOf(Decode(data)) == media;
    }
    if p: RtpPacket :| Representable(p) && EncodeRtp(p) == data && p.payload != [] && MediaOf(p) == media {
      ParseEncoded(p);
    }
  }

  // ---------------------------------------------------------------- the sender's packets

  const SENDER_SSRC: U32 := 98765432

  function SenderPacket(m: MediaPacket, pt: Byte): RtpPacket {
    RtpPacket(false, false, pt % 0x80, m.seqNum, m.timestamp, SENDER_SSRC, [], None, m.payload)
  }

  /** makeRTPPacket: a bare twelve-byte header in front of the payload. */
  method MakeRtpPacket(m: MediaPacket, pt: Byte) returns (bytes: Bytes)
    ensures bytes == EncodeRtp(SenderPacket(m, pt))
  {
    hide Be16, Be32;
    var pkt := new Byte[12 + |m.payload|](_ => 0);
    pkt[0] := 0x80;
    pkt[1] := pt % 0x80;
    assert pkt[..2] == [0x80, pt % 0x80];
    PutBe16(pkt, 2, m.seqNum);
    PutBe32(pkt, 4, m.timestamp);
    PutBe32(pkt, 8, SENDER_SSRC);
    ghost var header := FixedHeader(SenderPacket(m, pt));
    assert pkt[..12] == header;
    CopyInto(pkt, 12, m.payload);
    assert pkt[..] == header + m.payload;
    assert header + Words([]) + [] == header;
    bytes := pkt[..];
  }

  /** The adapter reads back what the sender sent, under the payload type the sender chose. */
  lemma SenderRoundTrip(m: MediaPacket, pt: Byte)
    requires m.payload != [] && pt < 0x80
    ensures ParseRtp(EncodeRtp(SenderPacket(m, pt))) == Some(m.(payloadType := pt))
    ensures |EncodeRtp(SenderPacket(m, pt))| == 12 + |m.payload|
  {
    ParseEncoded(SenderPacket(m, pt));
  }
}
