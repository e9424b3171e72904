/**
 * The in-order results in the terms of a caller: bounds on the gaps between arrivals instead of
 * conditions on the run, a constant redundancy depth, and the adapter's own state.
 */
module Outages {
  import opened Basics
  import opened RedCodec
  import opened RedPacketizer
  import opened RedReceiving
  import opened RedOutput
  import opened Recovery
  import opened InOrderRecovery
  import opened LossAccounting
  import opened Wire
  import opened Feedback
  import opened RtpIngest

  // ---------------------------------------------------------------- how far the output can lag

  /** Neighbouring arrivals are at most gap indices apart. */
  predicate GapsWithin(js: seq<nat>, gap: nat) {
    forall k :: 0 < k < |js| ==> js[k] <= js[k - 1] + gap
  }

  lemma {:induction false} GapsAdd(js: seq<nat>, gap: nat, a: nat, b: nat)
    requires a <= b < |js| && GapsWithin(js, gap)
    ensures js[b] - js[a] <= (b - a) * gap
    decreases b - a
  {
    if a >= b {
    } else {
      GapsAdd(js, gap, a, b - 1);
      assert js[b] <= js[b - 1] + gap;
      assert (b - 1 - a) * gap + gap == (b - a) * gap;
    }
  }

  lemma {:induction false} DistinctKeysFit(js: seq<nat>, p: nat, keys: set<U16>)
    requires p <= |js| && Increasing(js)
    requires p < |js| ==> js[|js| - 1] < js[p] + 0x1_0000
    requires forall k :: p <= k < |js| ==> Seq16(js[k]) in keys
    ensures |js| - p <= |keys|
    decreases |js| - p
  {
    hide Seq16;
    if p >= |js| {
    } else {
      forall k | p < k < |js|
        ensures Seq16(js[k]) != Seq16(js[p])
      {
        Seq16Differs(js[p], js[k]);
      }
      DistinctKeysFit(js, p + 1, keys - {Seq16(js[p])});
    }
  }

  /** Arrivals whose turn is still to come are in the buffer, each in its own place. */
  lemma LateArrivalsAreHeld(stream: Stream, js: seq<nat>, s: Session, p: nat)
    requires WellSent(stream) && InOrder(stream, js) && js != [] && Settled(stream, js, s)
    requires p <= |js| && forall k :: p <= k < |js| ==> js[k] >= Next(s)
    ensures |js| - p <= |s.receiver.buffer|
  {
    hide Linked, Truthful, CarriesAt, Seq16;
    forall k | p <= k < |js|
      ensures Seq16(js[k]) in s.receiver.buffer.Keys
    {
      OwnFrameIsCovered(stream, js, k);
      assert Has(s.receiver, js[k]);
    }
    DistinctKeysFit(js, p, s.receiver.buffer.Keys);
    assert |s.receiver.buffer| == |s.receiver.buffer.Keys|;
  }

  lemma OwnFrameIsCovered(stream: Stream, js: seq<nat>, k: nat)
    requires WellSent(stream) && Known(stream, js) && k < |js|
    ensures Covered(stream, js, js[k])
  {
    assert Oldest(stream, js[k]) <= js[k] <= js[k];
  }

  /** The last arrival before turn n. */
  lemma {:induction false} LastBefore(js: seq<nat>, n: nat) returns (p: nat)
    requires Increasing(js) && js != [] && js[0] < n
    ensures p < |js| && js[p] < n && forall k :: p < k < |js| ==> js[k] >= n
  {
    p := |js| - 1;
    while js[p] >= n
      invariant 0 <= p < |js|
      invariant forall k :: p < k < |js| ==> js[k] >= n
    {
      p := p - 1;
    }
  }

  lemma OutputHasStarted(stream: Stream, js: seq<nat>, s: Session)
    requires WellSent(stream) && InOrder(stream, js) && js != [] && Settled(stream, js, s)
    requires s.receiver.nextSeq !in s.receiver.buffer
    ensures js[0] < Next(s)
  {
    hide Truthful, CarriesAt;
    OwnFrameIsCovered(stream, js, 0);
    assert Has(s.receiver, Next(s)) <==> s.receiver.nextSeq in s.receiver.buffer;
  }

  /** With fewer than size frames waiting, the output lags by fewer than size gaps. */
  lemma LagIsBounded(stream: Stream, js: seq<nat>, s: Session, gap: nat, size: nat)
    requires WellSent(stream) && InOrder(stream, js) && js != [] && Settled(stream, js, s)
    requires GapsWithin(js, gap) && |s.receiver.buffer| < size
    requires s.receiver.nextSeq !in s.receiver.buffer
    ensures js[|js| - 1] + gap < Next(s) + size * gap
  {
    hide Settled, CarriesAt;
    OutputHasStarted(stream, js, s);
    var p := LastBefore(js, Next(s));
    LateArrivalsAreHeld(stream, js, s, p + 1);
    GapsAdd(js, gap, p, |js| - 1);
    var late := |js| - 1 - p;
    assert late * gap + gap == (late + 1) * gap <= size * gap by { ScaleBound(late + 1, size, gap); }
  }

  lemma ScaleBound(a: nat, b: nat, gap: nat)
    requires a <= b
    ensures a * gap <= b * gap
  {
    assert (b - a) * gap >= 0;
  }

  lemma DrainedState(stream: Stream, maxBufferSize: nat, js: seq<nat>)
    requires Known(stream, js) && js != [] && maxBufferSize >= 1
    ensures var r := ReceiveAll(stream, maxBufferSize, js).receiver;
            |r.buffer| < maxBufferSize && r.nextSeq !in r.buffer && r.maxBufferSize == maxBufferSize
  {
    hide PushStep, Drain;
    var r := ReceiveAll(stream, maxBufferSize, Before(js)).receiver;
    var packet := stream.packets[js[|js| - 1]];
    SizeStays(stream, maxBufferSize, Before(js));
    PushKeepsKeys(r, packet);
    DrainStops(PushStep(r, packet));
    DrainLeavesLater(PushStep(r, packet), false);
  }

  lemma {:induction false} SizeStays(stream: Stream, maxBufferSize: int, js: seq<nat>)
    requires Known(stream, js)
    ensures ReceiveAll(stream, maxBufferSize, js).receiver.maxBufferSize == maxBufferSize
  {
    hide PushStep, Drain;
    if js == [] {
    } else {
      var r := ReceiveAll(stream, maxBufferSize, Before(js)).receiver;
      var packet := stream.packets[js[|js| - 1]];
      SizeStays(stream, maxBufferSize, Before(js));
      PushKeepsKeys(r, packet);
      DrainLeavesLater(PushStep(r, packet), false);
    }
  }

  /**
   * Outages a caller can check: if neighbouring arrivals are at most gap apart and a full buffer of
   * such gaps stays within half the sequence space, no packet ever arrives too far ahead. For the
   * adapter's buffer of 8 that is any outage of up to 4095 packets, some 82 seconds of audio.
   */
  lemma {:induction false} ShortOutagesAreNear(stream: Stream, maxBufferSize: nat, js: seq<nat>, gap: nat)
    requires WellSent(stream) && InOrder(stream, js)
    requires maxBufferSize >= 1 && GapsWithin(js, gap) && maxBufferSize * gap <= 32768
    ensures NeverFarAhead(stream, maxBufferSize, js)
  {
    hide Settled, CarriesAt, ReceiveAll;
    if |js| <= 1 {
    } else {
      var front := Before(js);
      ShortOutagesAreNear(stream, maxBufferSize, front, gap);
      AlwaysSettled(stream, maxBufferSize, front);
      DrainedState(stream, maxBufferSize, front);
      LagIsBounded(stream, front, ReceiveAll(stream, maxBufferSize, front), gap, maxBufferSize);
      assert js[|js| - 1] <= js[|js| - 2] + gap;
      forall k | 0 < k < |js|
        ensures js[k] <= Next(ReceiveAll(stream, maxBufferSize, js[..k])) + 32768
      {
        if k < |front| {
          assert front[..k] == js[..k];
        } else {
          assert js[..k] == front;
        }
      }
    }
  }

  // ---------------------------------------------------------------- constant depth

  /** A sender that packs these payloads at one depth. */
  function PackAll(payloads: seq<Bytes>): seq<PackerOp> {
    if payloads == [] then [] else PackAll(payloads[..|payloads| - 1]) + [DoPack(payloads[|payloads| - 1])]
  }

  /** What PackAll sends: its payloads, each packet reaching back as far as depth and history allow. */
  ghost predicate SendsAll(s: Stream, p: Packer, depth: nat, payloads: seq<Bytes>) {
    && s.frames == payloads && p.depth == depth && |p.history| == Min(|payloads|, depth)
    && |s.reach| == |payloads| && (forall j :: 0 <= j < |s.reach| ==> s.reach[j] == Min(j, depth))
  }

  lemma PackSize(p: Packer, payload: Bytes)
    ensures AfterPack(p, payload).depth == p.depth
    ensures |p.history| <= p.depth ==> |AfterPack(p, payload).history| == Min(|p.history| + 1, p.depth)
  {
  }

  lemma OneMoreSendsAll(s: Stream, p: Packer, depth: nat, payloads: seq<Bytes>, payload: Bytes)
    requires SendsAll(s, p, depth, payloads)
    ensures SendsAll(Extend(s, p, payload), AfterPack(p, payload), depth, payloads + [payload])
  {
    PackSize(p, payload);
    hide AfterPack, PackedPacket;
    var reach := s.reach + [ReachOf(p)];
    forall j | 0 <= j < |reach|
      ensures reach[j] == Min(j, depth)
    {
      if j < |s.reach| {
        assert reach[j] == s.reach[j];
      }
    }
  }

  lemma {:induction false} PackAllSends(depth: nat, payloads: seq<Bytes>)
    ensures SendsAll(Sent(depth, PackAll(payloads)), RunPacker(depth, PackAll(payloads)).packer, depth, payloads)
  {
    hide RunPacker, Reaches, Sent, PackedPacket, AfterPack, SendsAll, Extend;
    if payloads == [] {
      NothingSent(depth);
    } else {
      var front, last := payloads[..|payloads| - 1], payloads[|payloads| - 1];
      PackAllSends(depth, front);
      SentOneMore(depth, PackAll(front), last);
      OneMoreSendsAll(Sent(depth, PackAll(front)), RunPacker(depth, PackAll(front)).packer, depth, front, last);
      assert payloads == front + [last];
    }
  }

  lemma NothingSent(depth: nat)
    ensures SendsAll(Sent(depth, []), RunPacker(depth, []).packer, depth, [])
  {
  }

  lemma {:induction false} PackAllWithin(payloads: seq<Bytes>)
    requires forall k :: 0 <= k < |payloads| ==> |payloads[k]| < 0x400
    ensures forall op <- PackAll(payloads) :: WithinBounds(op)
  {
    if payloads == [] {
    } else {
      PackAllWithin(payloads[..|payloads| - 1]);
    }
  }

  /**
   * Exact recovery at constant depth. Frames of at most 1023 bytes are packed at a depth of at most
   * 17; any subset of the packets arrives in order, neighbours at most gap apart with
   * maxBufferSize * gap <= 32768. Then frame i, when its turn comes, is played as it was sent if and
   * only if one of the packets i to i + depth arrived; otherwise its loss is announced.
   */
  lemma RecoveryAtConstantDepth(depth: nat, payloads: seq<Bytes>, maxBufferSize: nat, js: seq<nat>, gap: nat)
    requires depth <= MAX_REDUNDANCY && forall k :: 0 <= k < |payloads| ==> |payloads[k]| < 0x400
    requires js != [] && Increasing(js) && js[|js| - 1] < |payloads|
    requires maxBufferSize >= 1 && GapsWithin(js, gap) && maxBufferSize * gap <= 32768
    ensures Known(Sent(depth, PackAll(payloads)), js)
    ensures var s := ReceiveAll(Sent(depth, PackAll(payloads)), maxBufferSize, js);
            && Next(s) <= js[|js| - 1] + 1
            && forall m :: 0 <= m < |s.out| ==>
                 Says(s.out[m], payloads, js[0] + m, ArrivedWithin(js, js[0] + m, depth))
  {
    hide RunPacker, Reaches, CarriesAt, ReceiveAll, ArrivedWithin, Says;
    var stream := SentStream(depth, payloads);
    RecoveryAtDepth(depth, stream, maxBufferSize, js, gap);
  }

  lemma RecoveryAtDepth(depth: nat, stream: Stream, maxBufferSize: nat, js: seq<nat>, gap: nat)
    requires WellSent(stream) && InOrder(stream, js) && js != []
    requires forall j :: 0 <= j < |stream.reach| ==> stream.reach[j] == Min(j, depth)
    requires maxBufferSize >= 1 && GapsWithin(js, gap) && maxBufferSize * gap <= 32768
    ensures var s := ReceiveAll(stream, maxBufferSize, js);
            && Next(s) <= js[|js| - 1] + 1
            && forall m :: 0 <= m < |s.out| ==>
                 Says(s.out[m], stream.frames, js[0] + m, ArrivedWithin(js, js[0] + m, depth))
  {
    hide Settled, CarriesAt, ReceiveAll, Covered, Says, ArrivedWithin;
    ShortOutagesAreNear(stream, maxBufferSize, js, gap);
    RecoveryExactly(stream, maxBufferSize, js);
    var s := ReceiveAll(stream, maxBufferSize, js);
    forall m | 0 <= m < |s.out|
      ensures Says(s.out[m], stream.frames, js[0] + m, ArrivedWithin(js, js[0] + m, depth))
    {
      CoveredAtConstantDepth(stream, js, depth, js[0] + m);
    }
  }

  lemma SentStream(depth: nat, payloads: seq<Bytes>) returns (stream: Stream)
    requires depth <= MAX_REDUNDANCY && forall k :: 0 <= k < |payloads| ==> |payloads[k]| < 0x400
    ensures stream == Sent(depth, PackAll(payloads)) && WellSent(stream) && stream.frames == payloads
    ensures forall j :: 0 <= j < |stream.reach| ==> stream.reach[j] == Min(j, depth)
  {
    hide RunPacker, Reaches, CarriesAt;
    stream := Sent(depth, PackAll(payloads));
    PackAllSends(depth, payloads);
    PackAllWithin(payloads);
    RunSendsWell(depth, PackAll(payloads));
  }

  // ---------------------------------------------------------------- the adapter's own books

  /** These datagrams are what the sender made of the packets js, whole. */
  ghost predicate Carry(datagrams: seq<Bytes>, stream: Stream, js: seq<nat>)
    requires Known(stream, js)
  {
    && |datagrams| == |js|
    && forall k :: 0 <= k < |js| ==>
         ParseRtp(datagrams[k]) == Some(stream.packets[js[k]]) && IsAudio(stream.packets[js[k]])
  }

  /** The adapter fed with datagrams is the receiver and the engine fed with packets. */
  lemma {:induction false} AdapterIsReceiverAndEngine(
      datagrams: seq<Bytes>, clock: seq<int>, stream: Stream, js: seq<nat>)
    requires WellSent(stream) && Known(stream, js) && Carry(datagrams, stream, js) && |clock| == |js|
    ensures var a, e := AfterDatagrams(datagrams, clock), EngineAfter(0x1234_5678, js, clock);
            && a.receiver == ReceiveAll(stream, 8, js).receiver
            && a.engine.packetsLost == e.packetsLost && a.engine.lastSeq == e.lastSeq
  {
    if js == [] {
    } else {
      var n := |js| - 1;
      var j := js[n];
      assert Before(js) == js[..n];
      AdapterIsReceiverAndEngine(datagrams[..n], clock[..n], stream, js[..n]);
      assert ParseRtp(datagrams[n]) == Some(stream.packets[j]);
      NumbersOf(stream, j);
      OneDatagram(AfterDatagrams(datagrams[..n], clock[..n]), EngineAfter(0x1234_5678, js[..n], clock[..n]),
                  datagrams[n], stream.packets[j], clock[n]);
    }
  }

  lemma NumbersOf(stream: Stream, j: nat)
    requires WellSent(stream) && j < |stream.packets|
    ensures stream.packets[j].seqNum == Seq16(j) && stream.packets[j].timestamp == Time32(j)
  {
    assert CarriesAt(stream, j);
  }

  lemma OneDatagram(a: Adapter, e: Engine, data: Bytes, packet: MediaPacket, nowMs: int)
    requires Sane(a.engine) && ParseRtp(data) == Some(packet) && IsAudio(packet)
    requires a.engine.packetsLost == e.packetsLost && a.engine.lastSeq == e.lastSeq
    ensures var a' := Process(a, data, nowMs).adapter;
            var e' := ArrivalStep(e, packet.seqNum, packet.timestamp, nowMs);
            && a'.receiver == Drain(PushStep(a.receiver, packet), false).0
            && a'.engine.packetsLost == e'.packetsLost && a'.engine.lastSeq == e'.lastSeq
  {
  }

  /**
   * The adapter's books balance: after any subset of the packets in order, with outages below 4096
   * packets none of which directly follows a packet numbered 0, its network loss count is its
   * recovered count (plus the recoveries across a wrap, worked out from the arrivals), its announced
   * losses, and the frames it has not decided on. The counters balance by themselves if and only if
   * no arrival recovers a frame from before a wrap.
   */
  lemma AdapterBooksBalance(datagrams: seq<Bytes>, clock: seq<int>, stream: Stream, js: seq<nat>)
    requires WellSent(stream) && InOrder(stream, js) && Carry(datagrams, stream, js) && |clock| == |js| > 0
    requires GapsWithin(js, 4096)
    requires forall k :: 0 < k < |js| && Seq16(js[k - 1]) == 0 ==> js[k] == js[k - 1] + 1
    ensures var a := AfterDatagrams(datagrams, clock);
            var next := Next(ReceiveAll(stream, 8, js));
            && next <= js[|js| - 1] + 1
            && var undecided := Missing(a.receiver, next, js[|js| - 1] + 1);
            && a.engine.packetsLost == a.receiver.recovered + Uncounted(stream, js) + a.receiver.lost + undecided
            && (a.engine.packetsLost == a.receiver.recovered + a.receiver.lost + undecided
                <==> forall k :: 0 < k < |js| ==> CounterSees(stream, js, k))
            && a.receiver.lost <= a.engine.packetsLost
  {
    hide Settled, CarriesAt, ReceiveAll, AfterDatagrams, EngineAfter, WellSent, Seq16, Uncounted, CounterSees;
    ShortOutagesAreNear(stream, 8, js, 4096);
    AdapterIsReceiverAndEngine(datagrams, clock, stream, js);
    forall k | 0 < k < |js|
      ensures GapCounted(js[k - 1], js[k])
    {
      assert js[k] <= js[k - 1] + 4096;
    }
    LossConservation(stream, 8, 0x1234_5678, js, clock);
    UncountedZero(stream, js);
  }

  /** The two packets around the one that is lost just before the numbers wrap. */
  const AROUND_THE_WRAP: seq<nat> := [65534, 65536]

  /**
   * A recovery that nobody counts. At depth 1 packet 65535 is lost and packet 65536, numbered 0,
   * repeats its frame: all three frames are played, the engine counts one packet lost, and the
   * recovery counter stays at zero.
   */
  lemma RecoveryUncounted(payloads: seq<Bytes>, maxBufferSize: int, ssrc: U32, clock: seq<int>)
    requires |payloads| == 65537 && |clock| == 2
    requires forall k :: 0 <= k < |payloads| ==> |payloads[k]| < 0x400
    ensures Known(Sent(1, PackAll(payloads)), AROUND_THE_WRAP)
    ensures var s := ReceiveAll(Sent(1, PackAll(payloads)), maxBufferSize, AROUND_THE_WRAP);
            && |s.out| == 3
            && (forall m :: 0 <= m < 3 ==> Says(s.out[m], payloads, 65534 + m, true))
            && s.receiver.recovered == 0 && s.receiver.lost == 0
            && EngineAfter(ssrc, AROUND_THE_WRAP, clock).packetsLost == 1
  {
    hide RunPacker, Reaches, CarriesAt, ReceiveAll, Says, EngineAfter, Oldest, Uncounted;
    var stream := SentStream(1, payloads);
    assert Oldest(stream, 65536) == 65535 by { OneBack(stream); }
    RepairedRunsKeepUp(stream, maxBufferSize, AROUND_THE_WRAP);
    RepairedRunsLoseNothing(stream, maxBufferSize, AROUND_THE_WRAP);
    UncountedAroundTheWrap(stream);
    LossConservation(stream, maxBufferSize, ssrc, AROUND_THE_WRAP, clock);
    EngineCountsExactly(ssrc, AROUND_THE_WRAP, clock);
  }

  lemma OneBack(stream: Stream)
    requires |stream.reach| == 65537 && stream.reach[65536] == 1
    ensures Oldest(stream, 65536) == 65535
  {
  }

  lemma UncountedAroundTheWrap(stream: Stream)
    requires |stream.reach| == |stream.packets| == 65537 && Oldest(stream, 65536) == 65535
    ensures Known(stream, AROUND_THE_WRAP) && Uncounted(stream, AROUND_THE_WRAP) == 1
  {
    assert Before(AROUND_THE_WRAP) == [65534];
    assert UncountedAt(stream, AROUND_THE_WRAP, 1) == 1;
  }
}
