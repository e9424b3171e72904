/**
 * The whole loop: a sender whose packetizer follows the feedback, a network in both directions that
 * loses, repeats and reorders, and the adapter at the far end. Everything on the network is bytes.
 */
module ClosedLoop {
  import opened Basics
  import opened RedCodec
  import opened RedPacketizer
  import opened RedReceiving
  import opened RedOutput
  import opened Recovery
  import opened AnyOrderRecovery
  import opened Wire
  import opened Feedback
  import opened RtpIngest

  // ---------------------------------------------------------------- the system

  /**
   * Sender, network and adapter. stream records the frames sent and their packets; wire and reports
   * are all datagrams ever sent each way; out is everything the adapter handed to its decoder, and
   * first the index its output starts at.
   */
  datatype System = System(
    packer: Packer,
    stream: Stream,
    wire: seq<Bytes>,
    adapter: Adapter,
    out: seq<PopResult>,
    first: nat,
    reports: seq<Bytes>)

  /** A RED-enabled sender starts at depth 2, the adapter with a buffer of 8. */
  function Start(): System {
    System(NewPacker(2), Stream([], [], []), [], Adapter(NewReceiver(8), NewEngine(0x1234_5678)), [], 0, [])
  }

  datatype Action =
    | SendFrame(payload: Bytes)
    | GetPacket(j: nat, nowMs: int)
    | HearReport(k: nat)

  /** Four frames of this size, three of them repeated, just fit the adapter's read buffer. */
  const MAX_FRAME := 505

  /** The receiving side: the buffer, everything handed out, and where the output starts. */
  function SessionOf(sys: System): Session {
    Session(sys.adapter.receiver, sys.out, sys.first)
  }

  /**
   * What may happen: frames of bounded size are sent; any packet ever sent arrives, once or more,
   * unless one of its frames would be taken for another one; any report ever sent is heard.
   */
  predicate Possible(sys: System, a: Action) {
    match a
    case SendFrame(payload) => |payload| <= MAX_FRAME
    case GetPacket(j, _) => j < |sys.wire| && Enabled(sys.stream, SessionOf(sys), Deliver(j))
    case HearReport(k) => k < |sys.reports|
  }

  /** cmd/sender/main.go:192-201: with RED enabled the payload type is 112, whatever the packet says. */
  function SendStep(sys: System, payload: Bytes): System {
    var packet := PackedPacket(sys.packer, payload);
    sys.(packer := AfterPack(sys.packer, payload),
         stream := Extend(sys.stream, sys.packer, payload),
         wire := sys.wire + [EncodeRtp(SenderPacket(packet, RED))])
  }

  function ArriveStep(sys: System, j: nat, nowMs: int): System
    requires Sane(sys.adapter.engine) && j < |sys.wire|
  {
    var outcome := Process(sys.adapter, Datagram(sys.wire[j]), nowMs);
    sys.(adapter := outcome.adapter,
         out := sys.out + outcome.out,
         first := if sys.adapter.receiver.initialized then sys.first else j,
         reports := sys.reports + if outcome.report.Some? then [outcome.report.value] else [])
  }

  /** cmd/sender/main.go:111-124. */
  function HearStep(sys: System, k: nat): System
    requires k < |sys.reports|
  {
    match ParseReport(sys.reports[k])
    case None => sys
    case Some(view) => sys.(packer := SetDepthStep(sys.packer, view.recommended))
  }

  function Next(sys: System, a: Action): System
    requires Sane(sys.adapter.engine) && Possible(sys, a)
  {
    match a
    case SendFrame(payload) => SendStep(sys, payload)
    case GetPacket(j, nowMs) => ArriveStep(sys, j, nowMs)
    case HearReport(k) => HearStep(sys, k)
  }

  // ---------------------------------------------------------------- the invariant

  /** The sender's depth stays between 1 and 3, and what it sent is what it should have sent. */
  ghost predicate SenderOk(packer: Packer, stream: Stream) {
    && Tracks(packer, stream.frames) && 1 <= packer.depth <= 3
    && WellSent(stream) && WindowMoves(stream, packer)
    && forall f <- stream.frames :: |f| <= MAX_FRAME
  }

  /** Every datagram sent is a whole RED packet that fits the read buffer. */
  ghost predicate OnWire(bytes: Bytes, packet: MediaPacket) {
    && packet.payloadType == RED && packet.payload != []
    && bytes == EncodeRtp(SenderPacket(packet, RED))
    && |bytes| <= READ_BUFFER
  }

  ghost predicate WireOk(wire: seq<Bytes>, stream: Stream) {
    && |wire| == |stream.packets|
    && forall j :: 0 <= j < |wire| ==> OnWire(wire[j], stream.packets[j])
  }

  /** Every report ever sent asks for a depth from 1 to 3. */
  predicate AsksWell(report: Bytes) {
    ParseReport(report).Some? && 1 <= ParseReport(report).value.recommended <= 3
  }

  ghost predicate Invariant(sys: System) {
    && SenderOk(sys.packer, sys.stream)
    && WireOk(sys.wire, sys.stream)
    && (forall report <- sys.reports :: AsksWell(report))
    && Sane(sys.adapter.engine)
    && Faithful(sys.stream.frames, SessionOf(sys))
  }

  // ---------------------------------------------------------------- sending

  lemma {:induction false} PayloadsSize(packets: seq<MediaPacket>, bound: nat)
    requires forall k :: 0 <= k < |packets| ==> |packets[k].payload| <= bound
    ensures |Payloads(packets)| <= bound * |packets|
  {
    if packets == [] {
    } else {
      PayloadsSize(packets[1..], bound);
      assert bound * |packets| == bound + bound * |packets[1..]|;
    }
  }

  /** A RED packet of at most four bounded frames, RTP header included, fits one read. */
  lemma PacketFits(packer: Packer, frames: seq<Bytes>, payload: Bytes)
    requires Tracks(packer, frames) && 1 <= packer.depth <= 3
    requires |payload| <= MAX_FRAME && forall f <- frames :: |f| <= MAX_FRAME
    ensures var packet := PackedPacket(packer, payload);
            OnWire(EncodeRtp(SenderPacket(packet, RED)), packet)
  {
    var packet := PackedPacket(packer, payload);
    HistoryBounded(packer, frames);
    PayloadsSize(packer.history, MAX_FRAME);
    assert MAX_FRAME * |packer.history| <= MAX_FRAME * 3;
    SenderRoundTrip(packet, RED);
  }

  lemma HistoryBounded(packer: Packer, frames: seq<Bytes>)
    requires Tracks(packer, frames) && forall f <- frames :: |f| <= MAX_FRAME
    ensures forall k :: 0 <= k < |packer.history| ==> |packer.history[k].payload| <= MAX_FRAME
  {
    FramePacketsAt(frames, |frames| - |packer.history|, |frames|);
  }

  /** The bound is the largest: frames one byte longer overflow the buffer at depth 3. */
  lemma FrameBoundIsTight(packer: Packer, payload: Bytes)
    requires packer.depth == 3 && |packer.history| == 3
    requires forall k :: 0 <= k < 3 ==> |packer.history[k].payload| == MAX_FRAME + 1
    requires |payload| == MAX_FRAME + 1
    ensures |EncodeRtp(SenderPacket(PackedPacket(packer, payload), RED))| > READ_BUFFER
  {
    var h := packer.history;
    assert h[1..][1..] == h[2..] && h[2..] == [h[2]];
    assert Payloads(h) == h[0].payload + Payloads(h[1..]);
    assert Payloads(h[1..]) == h[1].payload + Payloads(h[2..]);
    assert Payloads(h[2..]) == h[2].payload + Payloads([]);
    SenderRoundTrip(PackedPacket(packer, payload), RED);
  }

  lemma FaithfulStays(s: Session, frames: seq<Bytes>, more: seq<Bytes>)
    requires Faithful(frames, s)
    ensures Faithful(frames + more, s)
  {
    hide Seq16, Time32;
    forall m | 0 <= m < |s.out|
      ensures Truthful(s.out[m], frames + more, s.first + m)
    {
      assert Truthful(s.out[m], frames, s.first + m);
    }
  }

  lemma SendKeeps(sys: System, payload: Bytes)
    requires Invariant(sys) && |payload| <= MAX_FRAME
    ensures Invariant(SendStep(sys, payload))
  {
    hide Tracks, WellSent, WindowMoves, Faithful, AsksWell, OnWire, PackedPacket, AfterPack, EncodeRtp;
    PackTracks(sys.packer, sys.stream.frames, payload);
    PackSendsWell(sys.stream, sys.packer, payload);
    PacketFits(sys.packer, sys.stream.frames, payload);
    FaithfulStays(SessionOf(sys), sys.stream.frames, [payload]);
    assert AfterPack(sys.packer, payload).depth == sys.packer.depth by { DepthStays(sys.packer, payload); }
  }

  lemma DepthStays(p: Packer, payload: Bytes)
    ensures AfterPack(p, payload).depth == p.depth
  {
  }

  // ---------------------------------------------------------------- hearing

  lemma HearKeeps(sys: System, k: nat)
    requires Invariant(sys) && k < |sys.reports|
    ensures Invariant(HearStep(sys, k))
  {
    hide WellSent, OnWire, Faithful;
    assert AsksWell(sys.reports[k]);
    SetDepthTracks(sys.packer, sys.stream.frames, ParseReport(sys.reports[k]).value.recommended);
  }

  // ---------------------------------------------------------------- arriving

  lemma ReportAsksWell(e: Engine, seqNum: U16)
    requires Sane(e)
    ensures AfterReport(e, seqNum).1.Some? ==> AsksWell(AfterReport(e, seqNum).1.value)
    ensures Sane(AfterReport(e, seqNum).0)
  {
    FeedbackArrives(e, e);
  }

  /** The receiving side takes an arrival as a delivery and a run of requests. */
  lemma ArrivalIsDelivery(sys: System, j: nat, nowMs: int)
    requires Invariant(sys) && Possible(sys, GetPacket(j, nowMs))
    ensures CarriesAt(sys.stream, j)
    ensures var s1 := NetStep(sys.stream, SessionOf(sys), Deliver(j));
            var (r', out) := Drain(s1.receiver, false);
            SessionOf(ArriveStep(sys, j, nowMs)) == Session(r', s1.out + out, s1.first)
    ensures var packet := sys.stream.packets[j];
            && Datagram(sys.wire[j]) == sys.wire[j] && ParseRtp(sys.wire[j]) == Some(packet)
            && ArriveStep(sys, j, nowMs)
               == sys.(adapter := Audio(sys.adapter, packet, nowMs).adapter,
                       out := sys.out + Audio(sys.adapter, packet, nowMs).out,
                       first := if sys.adapter.receiver.initialized then sys.first else j,
                       reports := sys.reports + ReportsOf(Audio(sys.adapter, packet, nowMs)))
  {
    hide Tracks, WindowMoves, Carries, Faithful, AsksWell, Drain, PushStep, Enabled, ArrivalStep, AfterReport;
    assert OnWire(sys.wire[j], sys.stream.packets[j]);
    SenderRoundTrip(sys.stream.packets[j], RED);
  }

  function ReportsOf(outcome: Outcome): seq<Bytes> {
    if outcome.report.Some? then [outcome.report.value] else []
  }

  lemma ArriveKeeps(sys: System, j: nat, nowMs: int, log: seq<Delivery>)
    requires Invariant(sys) && Possible(sys, GetPacket(j, nowMs)) && Matches(SessionOf(sys), log)
    ensures j < |sys.stream.reach|
    ensures Invariant(ArriveStep(sys, j, nowMs))
    ensures Matches(SessionOf(ArriveStep(sys, j, nowMs)), log + [DeliveryOf(sys.stream, SessionOf(sys), j)])
  {
    hide SenderOk, OnWire, Faithful, Matches, AsksWell, Drain, PushStep, ParseRtp, AfterReport, ArriveStep, CarriesAt;
    ArrivalIsDelivery(sys, j, nowMs);
    assert |sys.stream.reach| == |sys.stream.frames| by { SenderCounts(sys.packer, sys.stream); }
    ArrivalKeeps(sys.stream, SessionOf(sys), j, log);
    var packet := sys.stream.packets[j];
    ArrivalIsSane(sys.adapter.engine, packet.seqNum, packet.timestamp, nowMs);
    ReportAsksWell(ArrivalStep(sys.adapter.engine, packet.seqNum, packet.timestamp, nowMs), packet.seqNum);
  }

  lemma SenderCounts(packer: Packer, stream: Stream)
    requires SenderOk(packer, stream)
    ensures |stream.reach| == |stream.packets| == |stream.frames|
  {
  }

  // ---------------------------------------------------------------- every run

  ghost predicate IsRun(run: seq<System>, actions: seq<Action>) {
    && |run| == |actions| + 1
    && run[0] == Start()
    && forall t :: 0 <= t < |actions| ==>
         && Sane(run[t].adapter.engine) && Possible(run[t], actions[t])
         && run[t + 1] == Next(run[t], actions[t])
  }

  /** The packets that the first t actions brought, each with the turn it came at. */
  ghost function Log(run: seq<System>, actions: seq<Action>, t: nat): seq<Delivery>
    requires IsRun(run, actions) && t <= |actions|
  {
    if t == 0 then []
    else if actions[t - 1].GetPacket? then
      assert Possible(run[t - 1], actions[t - 1]);
      Log(run, actions, t - 1) + [DeliveryOf(run[t - 1].stream, SessionOf(run[t - 1]), actions[t - 1].j)]
    else Log(run, actions, t - 1)
  }

  lemma {:induction false} RunKeeps(run: seq<System>, actions: seq<Action>, t: nat)
    requires IsRun(run, actions) && t <= |actions|
    ensures Invariant(run[t]) && Matches(SessionOf(run[t]), Log(run, actions, t))
  {
    hide Invariant, Possible, Matches, ArriveStep, SendStep, HearStep;
    if t == 0 {
      StartInvariant();
    } else {
      RunKeeps(run, actions, t - 1);
      var sys := run[t - 1];
      assert Possible(sys, actions[t - 1]) && run[t - 1 + 1] == Next(sys, actions[t - 1]);
      match actions[t - 1]
      case SendFrame(payload) =>
        assert |payload| <= MAX_FRAME by { PossibleMeans(sys, actions[t - 1]); }
        SendKeeps(sys, payload);
        ReceivingSideStays(sys, actions[t - 1]);
      case GetPacket(j, nowMs) => ArriveKeeps(sys, j, nowMs, Log(run, actions, t - 1));
      case HearReport(k) =>
        assert k < |sys.reports| by { PossibleMeans(sys, actions[t - 1]); }
        HearKeeps(sys, k);
        ReceivingSideStays(sys, actions[t - 1]);
    }
  }

  lemma PossibleMeans(sys: System, a: Action)
    requires Possible(sys, a)
    ensures a.SendFrame? ==> |a.payload| <= MAX_FRAME
    ensures a.HearReport? ==> a.k < |sys.reports|
  {
  }

  lemma ReceivingSideStays(sys: System, a: Action)
    requires Sane(sys.adapter.engine) && Possible(sys, a) && !a.GetPacket?
    ensures SessionOf(Next(sys, a)) == SessionOf(sys) && Next(sys, a).adapter == sys.adapter
  {
    hide ParseReport, SetDepthStep, PackedPacket, AfterPack, EncodeRtp;
  }

  lemma StartInvariant()
    ensures Invariant(Start()) && Matches(SessionOf(Start()), [])
  {
    NothingMatches(SessionOf(Start()));
  }

  /**
   * The loop as a whole. However the network treats packets and reports, at every moment of every
   * run: the sender's depth lies between 1 and 3 and every packet it ever sent is a RED packet the
   * adapter can read whole and unpack into exactly the frames it should carry; every report asks for
   * such a depth; and the m-th result handed to the decoder is frame first + m, with its own number,
   * timestamp and payload, or a notice with that number.
   */
  lemma LoopIsFaithful(run: seq<System>, actions: seq<Action>)
    requires IsRun(run, actions)
    ensures forall t :: 0 <= t < |run| ==> Invariant(run[t])
  {
    hide Invariant;
    forall t | 0 <= t < |run|
      ensures Invariant(run[t])
    {
      RunKeeps(run, actions, t);
    }
  }

  /**
   * Exact recovery in the whole loop. In every run of sender, network and adapter, while reports that
   * may be lost, late or repeated change the sender's depth, at every moment: the result for turn i is
   * frame i with its own number, timestamp and payload if and only if, before that turn was over and
   * at most 32768 turns ahead of it, some datagram arrived whose packet repeats or carries frame i;
   * otherwise it is a notice with the number of frame i.
   */
  lemma LoopRecoversExactly(run: seq<System>, actions: seq<Action>, t: nat)
    requires IsRun(run, actions) && t <= |actions|
    ensures SaysAll(SessionOf(run[t]), run[t].stream.frames, Log(run, actions, t))
  {
    hide SenderOk, WireOk, AsksWell, Matches, Faithful;
    RunKeeps(run, actions, t);
    MatchesSays(SessionOf(run[t]), run[t].stream.frames, Log(run, actions, t));
  }
}
