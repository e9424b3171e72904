/** The stateful RED packetizer: RedPacker of red.go. */
module RedPacketizer {
  import opened Basics
  import opened RedCodec
  import opened RedLaws

  // ---------------------------------------------------------------- specification

  datatype Packer = Packer(depth: nat, history: seq<MediaPacket>, nextSeq: U16, nextTime: U32)

  function NewPacker(depth: nat): Packer {
    Packer(depth, [], 0, 0)
  }

  function SetDepthStep(p: Packer, depth: nat): Packer {
    p.(depth := depth, history := LastN(p.history, depth))
  }

  function ResetStep(p: Packer): Packer {
    p.(nextSeq := 0, nextTime := 0, history := [])
  }

  function PrimaryOf(p: Packer, payload: Bytes): MediaPacket {
    MediaPacket(p.nextSeq, p.nextTime, OPUS, payload)
  }

  /** The packetizer after packing a payload: at depth 0 it keeps no history. */
  function AfterPack(p: Packer, payload: Bytes): Packer {
    Packer(p.depth,
           if p.depth == 0 then p.history else LastN(p.history + [PrimaryOf(p, payload)], p.depth),
           (p.nextSeq + 1) % 0x1_0000,
           (p.nextTime + FRAME_SAMPLES) % 0x1_0000_0000)
  }

  /** The packet for a payload: bare at depth 0, otherwise with the history in front. */
  function PackedPacket(p: Packer, payload: Bytes): MediaPacket {
    if p.depth == 0 then PrimaryOf(p, payload)
    else MediaPacket(p.nextSeq, p.nextTime, RED, EncodeRed(p.history, PrimaryOf(p, payload)))
  }

  // ---------------------------------------------------------------- the object

  class RedPacker {
    var depth: int
    var history: seq<MediaPacket>
    var nextSeq: U16
    var nextTime: U32

    ghost predicate Valid()
      reads this
    {
      0 <= depth && |history| <= depth
    }

    ghost function State(): Packer
      reads this
      requires Valid()
    {
      Packer(depth, history, nextSeq, nextTime)
    }

    constructor (depth: nat)
      ensures Valid() && State() == NewPacker(depth)
    {
      this.depth := depth;
      history := [];
      nextSeq, nextTime := 0, 0;
    }

    method SetDepth(depth: nat)
      requires Valid()
      modifies this
      ensures Valid() && State() == SetDepthStep(old(State()), depth)
    {
      this.depth := depth;
      if |history| > depth {
        history := history[|history| - depth..];
      }
    }

    method Pack(opusPayload: Bytes) returns (packet: MediaPacket)
      requires Valid()
      modifies this
      ensures Valid() && State() == AfterPack(old(State()), opusPayload)
      ensures packet == PackedPacket(old(State()), opusPayload)
    {
      hide EncodeRed;
      var seqNum, timestamp := nextSeq, nextTime;
      nextSeq := (nextSeq + 1) % 0x1_0000;
      nextTime := (nextTime + FRAME_SAMPLES) % 0x1_0000_0000;
      var primary := MediaPacket(seqNum, timestamp, OPUS, opusPayload);
      if depth <= 0 {
        return primary;
      }

      var redundantBlocks := RecentBlocks(history, depth);
      history := history + [primary];
      if |history| > depth {
        history := history[1..];
      }
      var redPayload := WriteRed(redundantBlocks, primary);
      packet := MediaPacket(seqNum, timestamp, RED, redPayload);
    }

    method Reset()
      requires Valid()
      modifies this
      ensures Valid() && State() == ResetStep(old(State()))
    {
      nextSeq, nextTime := 0, 0;
      history := [];
    }
  }

  // ---------------------------------------------------------------- writing the bytes

  /** red.go:75-80: look back through the history, newest first, for at most depth blocks. */
  method RecentBlocks(history: seq<MediaPacket>, depth: nat) returns (redundantBlocks: seq<MediaPacket>)
    ensures redundantBlocks == LastN(history, depth)
  {
    redundantBlocks := [];
    var i := |history| - 1;
    while i >= 0 && |redundantBlocks| < depth
      invariant -1 <= i < |history| && |redundantBlocks| == |history| - 1 - i <= depth
      invariant redundantBlocks == history[i + 1..]
    {
      assert history[i..] == [history[i]] + history[i + 1..];
      redundantBlocks := [history[i]] + redundantBlocks;
      i := i - 1;
    }
    assert i < 0 ==> history[i + 1..] == history;
  }

  /** red.go:102-114: the headers of the redundant blocks, four bytes each. */
  method WriteHeaders(dst: array<Byte>, redundant: seq<MediaPacket>, ts: U32) returns (writeIdx: nat)
    requires dst.Length >= 4 * |redundant|
    modifies dst
    ensures writeIdx == 4 * |redundant|
    ensures dst[..writeIdx] == EncodeHeaders(redundant, ts)
  {
    writeIdx := 0;
    for i := 0 to |redundant|
      invariant writeIdx == 4 * i
      invariant dst[..writeIdx] + EncodeHeaders(redundant[i..], ts) == EncodeHeaders(redundant, ts)
    {
      var b := redundant[i];
      var header := HeaderBytes(b.payloadType, Sub32(ts, b.timestamp), |b.payload|);
      ghost var done := dst[..writeIdx];
      CopyInto(dst, writeIdx, header);
      writeIdx := writeIdx + 4;
      assert redundant[i..][1..] == redundant[i + 1..];
      assert dst[..writeIdx] == done + header;
      Assoc(done, header, EncodeHeaders(redundant[i + 1..], ts));
    }
    assert dst[..writeIdx] + [] == dst[..writeIdx];
  }

  /** red.go:121-125: the payloads of the redundant blocks, from writeIdx on. */
  method WritePayloads(dst: array<Byte>, start: nat, packets: seq<MediaPacket>) returns (writeIdx: nat)
    requires start + |Payloads(packets)| <= dst.Length
    modifies dst
    ensures writeIdx == start + |Payloads(packets)|
    ensures dst[..writeIdx] == old(dst[..start]) + Payloads(packets)
  {
    writeIdx := start;
    for i := 0 to |packets|
      invariant writeIdx + |Payloads(packets[i..])| == start + |Payloads(packets)|
      invariant dst[..writeIdx] + Payloads(packets[i..]) == old(dst[..start]) + Payloads(packets)
    {
      var b := packets[i];
      ghost var done := dst[..writeIdx];
      assert packets[i..][1..] == packets[i + 1..];
      CopyInto(dst, writeIdx, b.payload);
      writeIdx := writeIdx + |b.payload|;
      assert dst[..writeIdx] == done + b.payload;
      Assoc(done, b.payload, Payloads(packets[i + 1..]));
    }
    assert dst[..writeIdx] + [] == dst[..writeIdx];
  }

  /** red.go:88-126: sizes the buffer, then writes headers and payloads with a moving index. */
  method WriteRed(redundant: seq<MediaPacket>, primary: MediaPacket) returns (bytes: Bytes)
    ensures bytes == EncodeRed(redundant, primary)
  {
    var headerSize := |redundant| * 4 + 1;
    var payloadSize := 0;
    for i := 0 to |redundant|
      invariant payloadSize + |Payloads(redundant[i..])| == |Payloads(redundant)|
    {
      assert redundant[i..][1..] == redundant[i + 1..];
      payloadSize := payloadSize + |redundant[i].payload|;
    }
    payloadSize := payloadSize + |primary.payload|;
    var redPayload := new Byte[headerSize + payloadSize](_ => 0);

    var writeIdx := WriteHeaders(redPayload, redundant, primary.timestamp);
    redPayload[writeIdx] := primary.payloadType % 0x80;
    writeIdx := writeIdx + 1;
    assert redPayload[..writeIdx] == EncodeHeaders(redundant, primary.timestamp) + [primary.payloadType % 0x80];
    writeIdx := WritePayloads(redPayload, writeIdx, redundant);
    ghost var done := redPayload[..writeIdx];
    CopyInto(redPayload, writeIdx, primary.payload);
    assert redPayload[..] == done + primary.payload;
    bytes := redPayload[..];
  }

  // ---------------------------------------------------------------- frames and their packets

  /** Frame i of a stream, as the packet that carries it alone. */
  function FramePacket(frames: seq<Bytes>, i: nat): MediaPacket
    requires i < |frames|
  {
    MediaPacket(Seq16(i), Time32(i), OPUS, frames[i])
  }

  function FramePackets(frames: seq<Bytes>, lo: nat, hi: nat): seq<MediaPacket>
    requires lo <= hi <= |frames|
    decreases hi - lo
  {
    if lo == hi then [] else [FramePacket(frames, lo)] + FramePackets(frames, lo + 1, hi)
  }

  lemma {:induction false} FramePacketsAt(frames: seq<Bytes>, lo: nat, hi: nat)
    requires lo <= hi <= |frames|
    ensures |FramePackets(frames, lo, hi)| == hi - lo
    ensures forall k :: 0 <= k < hi - lo ==> FramePackets(frames, lo, hi)[k] == FramePacket(frames, lo + k)
    decreases hi - lo
  {
    hide FramePacket;
    if lo >= hi {
    } else {
      FramePacketsAt(frames, lo + 1, hi);
    }
  }

  lemma FramePacketsExtend(frames: seq<Bytes>, payload: Bytes, lo: nat)
    requires lo <= |frames|
    ensures FramePackets(frames + [payload], lo, |frames| + 1)
            == FramePackets(frames, lo, |frames|) + [FramePacket(frames + [payload], |frames|)]
  {
    FramePacketsAt(frames, lo, |frames|);
    FramePacketsAt(frames + [payload], lo, |frames| + 1);
  }

  lemma {:induction false} FramePacketsDrop(frames: seq<Bytes>, lo: nat, mid: nat, hi: nat)
    requires lo <= mid <= hi <= |frames|
    ensures |FramePackets(frames, lo, hi)| == hi - lo
    ensures FramePackets(frames, lo, hi)[mid - lo..] == FramePackets(frames, mid, hi)
    decreases mid - lo
  {
    FramePacketsAt(frames, lo, hi);
    if lo >= mid {
    } else {
      FramePacketsDrop(frames, lo + 1, mid, hi);
    }
  }

  /** Later frames do not change what earlier packets carry. */
  lemma FramePacketsPrefix(frames: seq<Bytes>, more: seq<Bytes>, lo: nat, hi: nat)
    requires lo <= hi <= |frames|
    ensures FramePackets(frames + more, lo, hi) == FramePackets(frames, lo, hi)
  {
    FramePacketsAt(frames, lo, hi);
    FramePacketsAt(frames + more, lo, hi);
  }

  // ---------------------------------------------------------------- the history invariant

  /**
   * p has packed exactly these frames since its last reset: its counters are their number modulo the
   * two word sizes, and its history is the most recent of them, at most depth many.
   */
  ghost predicate Tracks(p: Packer, frames: seq<Bytes>) {
    && |p.history| <= p.depth && |p.history| <= |frames|
    && p.nextSeq == Seq16(|frames|) && p.nextTime == Time32(|frames|)
    && p.history == FramePackets(frames, |frames| - |p.history|, |frames|)
  }

  datatype PackerOp = DoPack(payload: Bytes) | DoSetDepth(depth: nat) | DoReset

  /** A packetizer, the frames it packed since its last reset, and the packets it emitted for them. */
  datatype PackerRun = PackerRun(packer: Packer, frames: seq<Bytes>, packets: seq<MediaPacket>)

  function Step(r: PackerRun, op: PackerOp): PackerRun {
    match op
    case DoPack(payload) =>
      PackerRun(AfterPack(r.packer, payload), r.frames + [payload], r.packets + [PackedPacket(r.packer, payload)])
    case DoSetDepth(depth) => r.(packer := SetDepthStep(r.packer, depth))
    case DoReset => PackerRun(ResetStep(r.packer), [], [])
  }

  function RunPacker(depth: nat, ops: seq<PackerOp>): PackerRun {
    if ops == [] then PackerRun(NewPacker(depth), [], [])
    else Step(RunPacker(depth, ops[..|ops| - 1]), ops[|ops| - 1])
  }

  lemma LastFrames(frames: seq<Bytes>, lo: nat, n: nat)
    requires lo <= |frames|
    ensures var kept := LastN(FramePackets(frames, lo, |frames|), n);
            && |kept| == (if |frames| - lo > n then n else |frames| - lo)
            && kept == FramePackets(frames, |frames| - |kept|, |frames|)
  {
    hide FramePackets;
    FramePacketsAt(frames, lo, |frames|);
    if |frames| - lo > n {
      FramePacketsDrop(frames, lo, |frames| - n, |frames|);
    }
  }

  /** Adding a frame to a history of h frames and keeping the last depth of them. */
  lemma SlidHistory(frames: seq<Bytes>, payload: Bytes, h: nat, depth: nat)
    requires h <= |frames| && h <= depth
    ensures var all := frames + [payload];
            var kept := LastN(FramePackets(frames, |frames| - h, |frames|) + [FramePacket(all, |frames|)], depth);
            && |kept| == (if h + 1 > depth then depth else h + 1)
            && kept == FramePackets(all, |all| - |kept|, |all|)
  {
    hide FramePackets, FramePacket;
    FramePacketsExtend(frames, payload, |frames| - h);
    LastFrames(frames + [payload], |frames| - h, depth);
  }

  lemma PrimaryIsNextFrame(p: Packer, frames: seq<Bytes>, payload: Bytes)
    requires Tracks(p, frames)
    ensures PrimaryOf(p, payload) == FramePacket(frames + [payload], |frames|)
  {
  }

  lemma HistoryAfterPack(p: Packer, frames: seq<Bytes>, payload: Bytes)
    requires Tracks(p, frames)
    ensures var history := AfterPack(p, payload).history;
            && |history| <= p.depth && |history| <= |frames| + 1
            && history == FramePackets(frames + [payload], |frames| + 1 - |history|, |frames| + 1)
  {
    hide FramePacket, FramePackets, PrimaryOf, Seq16, Time32, LastN;
    var all := frames + [payload];
    PrimaryIsNextFrame(p, frames, payload);
    if p.depth == 0 {
      FramePacketsAt(all, |all|, |all|);
    } else {
      SlidHistory(frames, payload, |p.history|, p.depth);
    }
  }

  lemma PackTracks(p: Packer, frames: seq<Bytes>, payload: Bytes)
    requires Tracks(p, frames)
    ensures Tracks(AfterPack(p, payload), frames + [payload])
  {
    NextSeq(|frames|);
    NextTime(|frames|);
    HistoryAfterPack(p, frames, payload);
  }

  lemma SetDepthTracks(p: Packer, frames: seq<Bytes>, depth: nat)
    requires Tracks(p, frames)
    ensures Tracks(SetDepthStep(p, depth), frames)
  {
    LastFrames(frames, |frames| - |p.history|, depth);
  }

  /** The history invariant holds in every reachable state, whatever depths the stream passes through. */
  lemma {:induction false} HistoryInvariant(depth: nat, ops: seq<PackerOp>)
    ensures var r := RunPacker(depth, ops);
            Tracks(r.packer, r.frames) && |r.packets| == |r.frames|
  {
    if ops == [] {
    } else {
      HistoryInvariant(depth, ops[..|ops| - 1]);
      var r, op := RunPacker(depth, ops[..|ops| - 1]), ops[|ops| - 1];
      match op
      case DoPack(payload) => PackTracks(r.packer, r.frames, payload);
      case DoSetDepth(d) => SetDepthTracks(r.packer, r.frames, d);
      case DoReset =>
    }
  }

  /** Counted from the end, the i-th history entry is i sequence numbers and 960 i samples back. */
  lemma HistoryNumbering(p: Packer, frames: seq<Bytes>, i: nat)
    requires Tracks(p, frames) && 1 <= i <= |p.history|
    ensures var entry := p.history[|p.history| - i];
            && Dist(entry.seqNum, p.nextSeq) == i % 0x1_0000
            && (p.nextTime - entry.timestamp) % 0x1_0000_0000 == (FRAME_SAMPLES * i) % 0x1_0000_0000
            && entry.payload == frames[|frames| - i]
  {
    FramePacketsAt(frames, |frames| - |p.history|, |frames|);
    assert p.history[|p.history| - i] == FramePacket(frames, |frames| - i);
    DistOfIndices(|frames| - i, |frames|);
    TimeDifference(|frames| - i, |frames|);
  }

  // ---------------------------------------------------------------- what a packed packet carries

  /** The packet carries frames lo..j and nothing else, for a parser that reads it back. */
  ghost predicate Carries(packet: MediaPacket, frames: seq<Bytes>, lo: nat, j: nat)
    requires lo <= j < |frames|
  {
    && packet.seqNum == Seq16(j) && packet.timestamp == Time32(j)
    && (packet.payloadType == OPUS || packet.payloadType == RED)
    && (packet.payloadType == OPUS ==> lo == j && packet.payload == frames[j])
    && (packet.payloadType == RED ==>
          Unpack(packet.payload, packet.timestamp) == Ok(BlocksOf(FramePackets(frames, lo, j + 1))))
  }

  /** The largest number of redundant frames whose 14-bit timestamp offsets are all representable. */
  const MAX_REDUNDANCY := 17

  lemma HistoryOffsetsFit(p: Packer, frames: seq<Bytes>)
    requires Tracks(p, frames)
    ensures (forall b <- p.history :: Sub32(p.nextTime, b.timestamp) < 0x4000) <==> |p.history| <= MAX_REDUNDANCY
  {
    var j, n := |frames|, |p.history|;
    FramePacketsAt(frames, j - n, j);
    if n <= MAX_REDUNDANCY {
      forall k | 0 <= k < n
        ensures Sub32(p.nextTime, p.history[k].timestamp) < 0x4000
      {
        TimeOffset(j - n + k, j);
      }
    } else {
      TimeOffset(j - 18, j);
      assert p.history[n - 18].timestamp == Time32(j - 18);
    }
  }

  lemma HistoryFits(p: Packer, frames: seq<Bytes>, payload: Bytes)
    requires Tracks(p, frames)
    ensures Fits(p.history, PrimaryOf(p, payload)) <==>
              && |p.history| <= MAX_REDUNDANCY
              && (forall i :: |frames| - |p.history| <= i < |frames| ==> |frames[i]| < 0x400)
              && |payload| < 0x1_0000
  {
    var lo := |frames| - |p.history|;
    HistoryOffsetsFit(p, frames);
    FramePacketsAt(frames, lo, |frames|);
    assert forall i :: lo <= i < |frames| ==> p.history[i - lo] == FramePacket(frames, i);
    assert forall b <- p.history :: BlockFits(b, p.nextTime) <==>
             Sub32(p.nextTime, b.timestamp) < 0x4000 && |b.payload| < 0x400;
    if Fits(p.history, PrimaryOf(p, payload)) {
      forall i | lo <= i < |frames|
        ensures |frames[i]| < 0x400
      {
        assert p.history[i - lo] in p.history;
      }
    }
  }

  lemma RedPacketCarries(p: Packer, frames: seq<Bytes>, payload: Bytes)
    requires Tracks(p, frames) && p.depth > 0
    ensures Carries(PackedPacket(p, payload), frames + [payload], |frames| - |p.history|, |frames|)
            <==> Fits(p.history, PrimaryOf(p, payload))
  {
    var primary := PrimaryOf(p, payload);
    FramePacketsExtend(frames, payload, |frames| - |p.history|);
    assert FramePackets(frames + [payload], |frames| - |p.history|, |frames| + 1) == p.history + [primary];
    RoundTripExactly(p.history, primary);
  }

  /**
   * The packer's promise, exactly: the next packet carries the history and the new frame if and only
   * if at most 17 frames are repeated, each of at most 1023 bytes (and the new one fits a uint16).
   */
  lemma PackedPacketCarries(p: Packer, frames: seq<Bytes>, payload: Bytes)
    requires Tracks(p, frames)
    ensures var packet := PackedPacket(p, payload);
            var j := |frames|;
            && (p.depth == 0 ==> Carries(packet, frames + [payload], j, j))
            && (p.depth > 0 ==>
                  (Carries(packet, frames + [payload], j - |p.history|, j) <==>
                    && |p.history| <= MAX_REDUNDANCY
                    && (forall i :: j - |p.history| <= i < j ==> |frames[i]| < 0x400)
                    && |payload| < 0x1_0000))
  {
    if p.depth > 0 {
      RedPacketCarries(p, frames, payload);
      HistoryFits(p, frames, payload);
    }
  }

  /** A packet keeps carrying its frames while the stream grows. */
  lemma CarriesLater(packet: MediaPacket, frames: seq<Bytes>, more: seq<Bytes>, lo: nat, j: nat)
    requires lo <= j < |frames| && Carries(packet, frames, lo, j)
    ensures Carries(packet, frames + more, lo, j)
  {
    FramePacketsPrefix(frames, more, lo, j + 1);
  }

  /** Every op a sender may perform while the round trip is to hold. */
  predicate WithinBounds(op: PackerOp) {
    match op
    case DoPack(payload) => |payload| < 0x400
    case DoSetDepth(depth) => depth <= MAX_REDUNDANCY
    case DoReset => true
  }

  // ---------------------------------------------------------------- streams

  /** A sent stream: its frames, one packet for each, and how many older frames each packet repeats. */
  datatype Stream = Stream(frames: seq<Bytes>, packets: seq<MediaPacket>, reach: seq<nat>)

  /** The oldest frame that packet j carries. */
  function Oldest(s: Stream, j: nat): int
    requires j < |s.reach|
  {
    j - s.reach[j]
  }

  /** Packet j carries what it should, within the bounds of the round trip. */
  ghost predicate CarriesAt(s: Stream, j: nat)
    requires j < |s.reach| == |s.packets| == |s.frames|
  {
    && 0 <= Oldest(s, j) && s.reach[j] <= MAX_REDUNDANCY
    && Carries(s.packets[j], s.frames, Oldest(s, j), j)
  }

  /**
   * What a packetizer within its bounds sends: packets that carry what they should, over a
   * repetition window that never moves backwards.
   */
  ghost predicate WellSent(s: Stream) {
    && |s.reach| == |s.packets| == |s.frames|
    && (forall j :: 0 <= j < |s.reach| ==> CarriesAt(s, j))
    && (forall a, b :: 0 <= a <= b < |s.reach| ==> Oldest(s, a) <= Oldest(s, b))
  }

  /** The next packet's reach. */
  function ReachOf(p: Packer): nat {
    if p.depth == 0 then 0 else |p.history|
  }

  /** The window of the next packet starts no earlier than that of any packet so far. */
  ghost predicate WindowMoves(s: Stream, p: Packer) {
    && |p.history| <= |s.frames|
    && forall j :: 0 <= j < |s.reach| ==> Oldest(s, j) <= |s.frames| - |p.history|
  }

  function Extend(s: Stream, p: Packer, payload: Bytes): Stream {
    Stream(s.frames + [payload], s.packets + [PackedPacket(p, payload)], s.reach + [ReachOf(p)])
  }

  /** A packetizer that tracks its frames sends its next packet well. */
  lemma NewPacketCarries(s: Stream, p: Packer, payload: Bytes)
    requires Tracks(p, s.frames) && p.depth <= MAX_REDUNDANCY
    requires |payload| < 0x400 && forall f <- s.frames :: |f| < 0x400
    requires |s.reach| == |s.packets| == |s.frames|
    ensures CarriesAt(Extend(s, p, payload), |s.frames|)
  {
    hide Carries, PackedPacket;
    PackedPacketCarries(p, s.frames, payload);
  }

  lemma OldPacketCarries(s: Stream, p: Packer, payload: Bytes, j: nat)
    requires |s.reach| == |s.packets| == |s.frames| && j < |s.reach| && CarriesAt(s, j)
    ensures CarriesAt(Extend(s, p, payload), j)
  {
    CarriesLater(s.packets[j], s.frames, [payload], Oldest(s, j), j);
  }

  lemma PackSendsWell(s: Stream, p: Packer, payload: Bytes)
    requires WellSent(s) && WindowMoves(s, p)
    requires Tracks(p, s.frames) && p.depth <= MAX_REDUNDANCY
    requires |payload| < 0x400 && forall f <- s.frames :: |f| < 0x400
    ensures WellSent(Extend(s, p, payload))
    ensures WindowMoves(Extend(s, p, payload), AfterPack(p, payload))
  {
    hide CarriesAt, PackedPacket, FramePackets;
    var s' := Extend(s, p, payload);
    forall j | 0 <= j < |s'.reach|
      ensures CarriesAt(s', j)
    {
      if j < |s.reach| {
        OldPacketCarries(s, p, payload, j);
      } else {
        NewPacketCarries(s, p, payload);
      }
    }
    assert forall j :: 0 <= j < |s.reach| ==> Oldest(s', j) == Oldest(s, j);
    assert Oldest(s', |s.reach|) >= |s.frames| - |p.history|;
    assert |AfterPack(p, payload).history| <= |p.history| + 1;
  }

  /** How far back each packet of a run reaches. */
  function Reaches(depth: nat, ops: seq<PackerOp>): seq<nat> {
    if ops == [] then []
    else
      var front := ops[..|ops| - 1];
      match ops[|ops| - 1]
      case DoPack(_) => Reaches(depth, front) + [ReachOf(RunPacker(depth, front).packer)]
      case DoSetDepth(_) => Reaches(depth, front)
      case DoReset => []
  }

  function Sent(depth: nat, ops: seq<PackerOp>): Stream {
    var r := RunPacker(depth, ops);
    Stream(r.frames, r.packets, Reaches(depth, ops))
  }

  lemma SentOneMore(depth: nat, ops: seq<PackerOp>, payload: Bytes)
    ensures Sent(depth, ops + [DoPack(payload)])
            == Extend(Sent(depth, ops), RunPacker(depth, ops).packer, payload)
    ensures RunPacker(depth, ops + [DoPack(payload)]).packer == AfterPack(RunPacker(depth, ops).packer, payload)
  {
    hide AfterPack, PackedPacket;
    assert (ops + [DoPack(payload)])[..|ops|] == ops;
  }

  lemma SentWithDepth(depth: nat, ops: seq<PackerOp>, d: nat)
    ensures Sent(depth, ops + [DoSetDepth(d)]) == Sent(depth, ops)
    ensures RunPacker(depth, ops + [DoSetDepth(d)]).packer == SetDepthStep(RunPacker(depth, ops).packer, d)
  {
    hide SetDepthStep;
    assert (ops + [DoSetDepth(d)])[..|ops|] == ops;
  }

  /** Pack and unpack are inverse along every run within bounds, through every depth change and reset. */
  lemma {:induction false} RunSendsWell(depth: nat, ops: seq<PackerOp>)
    requires depth <= MAX_REDUNDANCY && forall op <- ops :: WithinBounds(op)
    ensures var s, p := Sent(depth, ops), RunPacker(depth, ops).packer;
            && p.depth <= MAX_REDUNDANCY && (forall f <- s.frames :: |f| < 0x400)
            && WellSent(s) && WindowMoves(s, p)
  {
    HistoryInvariant(depth, ops);
    if ops == [] {
    } else {
      var front, op := ops[..|ops| - 1], ops[|ops| - 1];
      assert WithinBounds(op);
      RunSendsWell(depth, front);
      HistoryInvariant(depth, front);
      match op
      case DoPack(payload) =>
        PackSendsWell(Sent(depth, front), RunPacker(depth, front).packer, payload);
        assert Sent(depth, ops) == Extend(Sent(depth, front), RunPacker(depth, front).packer, payload);
      case DoSetDepth(d) =>
        assert Sent(depth, ops) == Sent(depth, front);
      case DoReset =>
    }
  }
}
