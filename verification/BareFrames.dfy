/**
 * What the decoder gets to hear of a stream without redundancy that one worker reads: what becomes of
 * frames that have to wait in a buffer that is read into again.
 */
module BareFrames {
  import opened Basics
  import opened RedCodec
  import opened RedPacketizer
  import opened RedReceiving
  import opened RedOutput
  import opened Recovery
  import opened InOrderRecovery
  import opened LossAccounting
  import opened Wire
  import opened RtpIngest
  import opened Outages
  import opened ReadBuffers
  import opened HeardFrames

  /** The sender without RED: every frame in a packet of its own, read by one worker. */
  function BareArrival(payloads: seq<Bytes>, j: nat, reader: nat, nowMs: int): Arrival
    requires j < |payloads|
  {
    Arrival(reader, EncodeRtp(SenderPacket(FramePacket(payloads, j), OPUS)), nowMs)
  }

  /** Frames of one size that fit the read buffer behind an RTP header. */
  predicate OfSize(payloads: seq<Bytes>, size: nat) {
    0 < size <= READ_BUFFER - 12 && forall k :: 0 <= k < |payloads| ==> |payloads[k]| == size
  }

  lemma BareIsRead(payloads: seq<Bytes>, j: nat, size: nat)
    requires OfSize(payloads, size) && j < |payloads|
    ensures var data := EncodeRtp(SenderPacket(FramePacket(payloads, j), OPUS));
            && Datagram(data) == data && |data| == 12 + size && data[12..] == payloads[j]
            && ParseRtp(data) == Some(FramePacket(payloads, j))
  {
    var data := EncodeRtp(SenderPacket(FramePacket(payloads, j), OPUS));
    SenderRoundTrip(FramePacket(payloads, j), OPUS);
    PayloadIsTheEnd(data);
    assert |data| - |payloads[j]| == 12;
  }

  /** Every waiting frame is the same stretch behind the header in the one buffer that is in use. */
  ghost predicate AllInOnePlace(s: Shared, reader: nat, size: nat) {
    && Sound(s.adapter.receiver)
    && s.refs.Keys == s.adapter.receiver.buffer.Keys
    && forall k <- s.refs :: s.refs[k] == Slice(reader, 12, size)
  }

  lemma BarePush(r: Receiver, m: MediaPacket)
    requires Sound(r) && m.payloadType == OPUS
    ensures var r' := PushStep(r, m);
            && Sound(r')
            && (forall k <- r'.buffer :: k in r.buffer || k == m.seqNum)
            && (forall k <- r.buffer :: k in r'.buffer)
  {
    PushSound(r, m);
  }

  lemma BareRefer(refs: map<U16, Slice>, r: Receiver, m: MediaPacket, slice: Slice)
    requires m.payloadType == OPUS && refs.Keys == r.buffer.Keys
    requires forall k <- refs :: refs[k] == slice
    ensures var refs' := ReferAfterPush(refs, r, m, slice);
            refs'.Keys == PushStep(r, m).buffer.Keys && forall k <- refs' :: refs'[k] == slice
  {
    hide SeqBefore;
  }

  lemma DrainedIsSound(r: Receiver, m: nat)
    requires Sound(r)
    ensures Sound(Drain(r, false).0)
    ensures Drain(r, false).0.buffer.Keys <= r.buffer.Keys
    ensures m < |Drain(r, false).1| && Drain(r, false).1[m].Played? ==> Drain(r, false).1[m].packet.seqNum in r.buffer
  {
    DrainReadsInOrder(r, false);
    var (r', out) := Drain(r, false);
    forall k <- r'.buffer
      ensures Dist(r'.nextSeq, k) <= 32768
    {
      assert Dist(r.nextSeq, k) >= |out|;
    }
    if m < |out| {
      assert out[m] == Slot(r, m);
    }
  }

  /**
   * Bare frames that had to wait: when a bare packet has been read, every frame handed out in this
   * call is heard as the payload of the packet just read, so that it is heard right if and only if it
   * equals that payload.
   */
  lemma BareFramesAreOverwritten(s: Shared, payloads: seq<Bytes>, j: nat, reader: nat, size: nat, nowMs: int)
    requires Valid(s) && AllInOnePlace(s, reader, size) && reader < READERS
    requires OfSize(payloads, size) && j < |payloads|
    ensures AllInOnePlace(Read(s, BareArrival(payloads, j, reader, nowMs)).0, reader, size)
    ensures var a := BareArrival(payloads, j, reader, nowMs);
            var heard, out := Read(s, a).1, Process(s.adapter, Datagram(a.data), nowMs).out;
            && |heard| == |out|
            && forall m :: 0 <= m < |out| ==>
                 heard[m] == if out[m].Played? then Decoded(payloads[j]) else Concealed
  {
    hide Drain, PushStep, ParseRtp, Sound, ReferAfterPush, EncodeRtp, MemoryFits, SeqBefore;
    var a := BareArrival(payloads, j, reader, nowMs);
    var packet, slice := FramePacket(payloads, j), Slice(reader, 12, size);
    BareIsRead(payloads, j, size);
    ProcessIsReceive(s.adapter, a.data, nowMs, packet);
    var r1 := PushStep(s.adapter.receiver, packet);
    BarePush(s.adapter.receiver, packet);
    BareRefer(s.refs, s.adapter.receiver, packet, slice);
    ReferencesFit(s, packet, slice);
    var memory := ReadInto(s.memory, reader, a.data);
    JustRead(s.memory, reader, a.data, 12);
    var refs := ReferAfterPush(s.refs, s.adapter.receiver, packet, slice);
    var (r2, out) := Drain(r1, false);
    DrainedIsSound(r1, 0);
    forall m | 0 <= m < |out|
      ensures Hear(memory, refs, out[m]) == if out[m].Played? then Decoded(payloads[j]) else Concealed
    {
      DrainedIsSound(r1, m);
    }
  }

  /** One worker reads the packets js of a stream of bare frames. */
  ghost predicate Bare(arrivals: seq<Arrival>, payloads: seq<Bytes>, js: seq<nat>, reader: nat) {
    && |arrivals| == |js| && reader < READERS
    && forall k :: 0 <= k < |js| ==>
         js[k] < |payloads| && arrivals[k] == BareArrival(payloads, js[k], reader, arrivals[k].nowMs)
  }

  /** A stream of bare frames. */
  ghost predicate IsBare(stream: Stream, payloads: seq<Bytes>) {
    && WellSent(stream) && stream.frames == payloads && |stream.packets| == |stream.reach| == |payloads|
    && forall j :: 0 <= j < |payloads| ==> stream.reach[j] == 0 && stream.packets[j] == FramePacket(payloads, j)
  }

  /** In order and close enough together for a buffer of eight. */
  predicate NearInOrder(js: seq<nat>, count: nat) {
    && js != [] && Increasing(js) && GapsWithin(js, 4096)
    && forall k :: 0 <= k < |js| ==> js[k] < count
  }

  /** The sender's stream without redundancy. */
  lemma BareStream(payloads: seq<Bytes>, size: nat) returns (stream: Stream)
    requires OfSize(payloads, size) && size < 0x400
    ensures stream == Sent(0, PackAll(payloads)) && IsBare(stream, payloads)
  {
    hide RunPacker, Reaches;
    stream := SentStream(0, payloads);
    PackAllIsBare(payloads);
    forall j | 0 <= j < |payloads|
      ensures stream.packets[j] == FramePacket(payloads, j)
    {
      assert CarriesAt(stream, j);
    }
  }

  lemma {:induction false} PackAllIsBare(payloads: seq<Bytes>)
    ensures forall packet <- Sent(0, PackAll(payloads)).packets :: packet.payloadType == OPUS
  {
    if payloads == [] {
    } else {
      var front, last := payloads[..|payloads| - 1], payloads[|payloads| - 1];
      PackAllIsBare(front);
      PackAllSends(0, front);
      SentOneMore(0, PackAll(front), last);
      hide RunPacker, Reaches, EncodeRed, AfterPack;
      assert PackedPacket(RunPacker(0, PackAll(front)).packer, last).payloadType == OPUS;
    }
  }

  /** Such a stream passes the adapter as it passes the receiver; everything waiting is in one place. */
  lemma {:induction false} BareRun(
      arrivals: seq<Arrival>, payloads: seq<Bytes>, size: nat, stream: Stream, js: seq<nat>, reader: nat)
    requires OfSize(payloads, size) && Bare(arrivals, payloads, js, reader)
    requires IsBare(stream, payloads) && Known(stream, js)
    ensures ReadersKnown(arrivals)
    ensures var s := ReadAll(arrivals).0;
            AllInOnePlace(s, reader, size) && s.adapter.receiver == ReceiveAll(stream, 8, js).receiver
  {
    hide WellSent, Drain, PushStep, Process, ParseRtp, Datagram, Read, EncodeRtp, Sound;
    if js == [] {
      NothingInPlace(reader, size);
    } else {
      var n := |js| - 1;
      assert Before(js) == js[..n];
      BareRun(arrivals[..n], payloads, size, stream, js[..n], reader);
      var s := ReadAll(arrivals[..n]).0;
      BareFramesAreOverwritten(s, payloads, js[n], reader, size, arrivals[n].nowMs);
      ReadIsValid(s, arrivals[n]);
      BareIsRead(payloads, js[n], size);
      ProcessIsReceive(s.adapter, Datagram(arrivals[n].data), arrivals[n].nowMs, FramePacket(payloads, js[n]));
    }
  }

  lemma NothingInPlace(reader: nat, size: nat)
    ensures AllInOnePlace(Start(), reader, size)
  {
  }

  /** Frame i arrived. */
  lemma CoveredIfArrived(stream: Stream, js: seq<nat>, i: nat)
    requires Known(stream, js) && forall j :: 0 <= j < |stream.reach| ==> stream.reach[j] == 0
    ensures Covered(stream, js, i) <==> i in js
  {
    if Covered(stream, js, i) {
      var k :| 0 <= k < |js| && Oldest(stream, js[k]) <= i <= js[k];
      assert js[k] == i;
    }
    if i in js {
      var k :| 0 <= k < |js| && js[k] == i;
      assert Oldest(stream, js[k]) <= i <= js[k];
    }
  }

  /** The turn at which the last arrival finds the output. */
  function TurnOfLast(stream: Stream, js: seq<nat>): nat
    requires Known(stream, js) && js != []
  {
    if |js| == 1 then js[0] else Next(ReceiveAll(stream, 8, Before(js)))
  }

  /**
   * A stream without redundancy, call by call. Frames of one size arrive in order, neighbours at most
   * 4096 apart, at one worker. Then every turn that the arrival of packet j completes is heard as frame
   * j, whichever frame was due, or concealed if the due frame had not arrived.
   */
  lemma BareStreamIsHeard(
      arrivals: seq<Arrival>, payloads: seq<Bytes>, size: nat, stream: Stream, js: seq<nat>, reader: nat)
    requires OfSize(payloads, size) && IsBare(stream, payloads)
    requires Bare(arrivals, payloads, js, reader) && NearInOrder(js, |payloads|)
    ensures ReadersKnown(arrivals)
    ensures var turn, heard := TurnOfLast(stream, js), LastHeard(arrivals);
            && turn + |heard| == Next(ReceiveAll(stream, 8, js))
            && forall m :: 0 <= m < |heard| ==>
                 heard[m] == if turn + m in js then Decoded(payloads[js[|js| - 1]]) else Concealed
  {
    hide CarriesAt, Drain, PushStep, LastHeard, ReceiveAll, BareArrival, OfSize, TurnOfLast, GapsWithin, Next;
    BareLastCall(arrivals, payloads, size, stream, js, reader);
    ShortOutagesAreNear(stream, 8, js, 4096);
    var r := ReceiveAll(stream, 8, Before(js)).receiver;
    LastCall(stream, js, Drain(PushStep(r, stream.packets[js[|js| - 1]]), false).1);
  }

  lemma BareLastCall(
      arrivals: seq<Arrival>, payloads: seq<Bytes>, size: nat, stream: Stream, js: seq<nat>, reader: nat)
    requires OfSize(payloads, size) && IsBare(stream, payloads)
    requires Bare(arrivals, payloads, js, reader) && js != []
    ensures ReadersKnown(arrivals) && js[|js| - 1] < |payloads| && Known(stream, js)
    ensures var heard, j := LastHeard(arrivals), js[|js| - 1];
            var r := ReceiveAll(stream, 8, Before(js)).receiver;
            var out := Drain(PushStep(r, stream.packets[j]), false).1;
            && |heard| == |out|
            && forall m :: 0 <= m < |out| ==> heard[m] == if out[m].Played? then Decoded(payloads[j]) else Concealed
  {
    hide WellSent, Drain, PushStep, Process, ParseRtp, Datagram, Read, EncodeRtp, AllInOnePlace, ReceiveAll, ReadAll;
    var last := |js| - 1;
    var front := arrivals[..last];
    assert Bare(front, payloads, js[..last], reader);
    BareRun(front, payloads, size, stream, js[..last], reader);
    var s := ReadAll(front).0;
    BareFramesAreOverwritten(s, payloads, js[last], reader, size, arrivals[last].nowMs);
    BareIsRead(payloads, js[last], size);
    ProcessIsReceive(s.adapter, Datagram(arrivals[last].data), arrivals[last].nowMs, FramePacket(payloads, js[last]));
  }

  lemma OutGrows(stream: Stream, js: seq<nat>)
    requires Known(stream, js) && js != []
    ensures var before := ReceiveAll(stream, 8, Before(js));
            ReceiveAll(stream, 8, js).out
            == before.out + Drain(PushStep(before.receiver, stream.packets[js[|js| - 1]]), false).1
  {
    hide Drain, PushStep;
  }

  /** The results of the last call, in terms of the turns they are for. */
  lemma LastCall(stream: Stream, js: seq<nat>, out: seq<PopResult>)
    requires WellSent(stream) && InOrder(stream, js) && js != [] && NeverFarAhead(stream, 8, js)
    requires forall j :: 0 <= j < |stream.reach| ==> stream.reach[j] == 0
    requires var r := ReceiveAll(stream, 8, Before(js)).receiver;
             out == Drain(PushStep(r, stream.packets[js[|js| - 1]]), false).1
    ensures TurnOfLast(stream, js) + |out| == Next(ReceiveAll(stream, 8, js))
    ensures forall m :: 0 <= m < |out| ==> (out[m].Played? <==> TurnOfLast(stream, js) + m in js)
  {
    hide CarriesAt, Drain, PushStep, Covered, Says, NeverFarAhead, ReceiveAll, TurnOfLast, Seq16, Increasing;
    var before, after := ReceiveAll(stream, 8, Before(js)), ReceiveAll(stream, 8, js);
    RecoveryExactly(stream, 8, js);
    FirstIndex(stream, js);
    OutGrows(stream, js);
    forall m | 0 <= m < |out|
      ensures out[m].Played? <==> TurnOfLast(stream, js) + m in js
    {
      var i := |before.out| + m;
      assert after.out[i] == out[m];
      SaysPlayed(after.out[i], stream.frames, js[0] + i, Covered(stream, js, js[0] + i));
      CoveredIfArrived(stream, js, js[0] + i);
    }
  }

  lemma SaysPlayed(result: PopResult, frames: seq<Bytes>, i: nat, there: bool)
    requires Says(result, frames, i, there)
    ensures result.Played? <==> there
  {
  }

  lemma FirstIndex(stream: Stream, js: seq<nat>)
    requires WellSent(stream) && InOrder(stream, js) && js != [] && NeverFarAhead(stream, 8, js)
    ensures TurnOfLast(stream, js) == js[0] + |ReceiveAll(stream, 8, Before(js)).out|
  {
    hide WellSent, ReceiveAll, Settled;
    if |js| == 1 {
      assert Before(js) == [];
      NothingReceived(stream, 8);
    } else {
      FrontIsNear(stream, 8, js);
      AlwaysSettled(stream, 8, Before(js));
      FirstOut(stream, Before(js), ReceiveAll(stream, 8, Before(js)));
    }
  }

  // ---------------------------------------------------------------- when everything is heard right

  /** Every packet follows the one before it. */
  predicate Straight(js: seq<nat>) {
    forall q :: 0 < q < |js| ==> js[q] == js[q - 1] + 1
  }

  lemma HeldKey(r: Receiver, frames: seq<Bytes>, n: nat, k: U16) returns (x: nat)
    requires Linked(r, frames, n) && k in r.buffer
    ensures n <= x < n + 0x1_0000 && Has(r, x)
  {
    x := KeyIndex(r, frames, n, k);
  }

  /** While nothing is missing nothing waits. */
  lemma StraightKeepsUp(stream: Stream, payloads: seq<Bytes>, js: seq<nat>)
    requires IsBare(stream, payloads) && NearInOrder(js, |payloads|) && Straight(js)
    ensures var s := ReceiveAll(stream, 8, js);
            && Next(s) == js[|js| - 1] + 1 && s.receiver.buffer == map[]
            && s.receiver.initialized && s.receiver.nextSeq == Seq16(Next(s)) && s.receiver.maxBufferSize == 8
  {
    hide WellSent, ReceiveAll, Truthful, Covered, Seq16, FramePacket;
    RepairedRunsKeepUp(stream, 8, js);
    AlwaysSettled(stream, 8, js);
    SizeStays(stream, 8, js);
    var s := ReceiveAll(stream, 8, js);
    if k :| k in s.receiver.buffer {
      var x := HeldKey(s.receiver, stream.frames, Next(s), k);
    }
  }

  lemma FewWait(r: Receiver, m: MediaPacket)
    requires r.initialized && r.nextSeq !in r.buffer && m.payloadType == OPUS && m.seqNum != r.nextSeq
    requires |r.buffer| + 1 < r.maxBufferSize
    ensures var (r', out) := Drain(PushStep(r, m), false);
            && out == [] && r'.nextSeq == r.nextSeq && r'.nextSeq !in r'.buffer
            && r'.maxBufferSize == r.maxBufferSize && r'.initialized && |r'.buffer| <= |r.buffer| + 1
  {
    hide SeqBefore;
    var r1 := PushStep(r, m);
    assert r1.buffer.Keys <= r.buffer.Keys + {m.seqNum};
    assert |r1.buffer| == |r1.buffer.Keys| && |r.buffer| == |r.buffer.Keys|;
    CountAtMost(r1.buffer.Keys, r.buffer.Keys + {m.seqNum});
  }

  lemma CountAtMost(a: set<U16>, b: set<U16>)
    requires a <= b
    ensures |a| <= |b|
  {
    assert b == a + (b - a);
  }

  /** The frames that wait after the first one missing, as long as they are at most seven. */
  lemma {:induction false} TheyWait(stream: Stream, payloads: seq<Bytes>, js: seq<nat>, p: nat)
    requires IsBare(stream, payloads) && NearInOrder(js, |payloads|)
    requires 0 < p <= |js| <= p + 7 && Straight(js[..p]) && (p < |js| ==> js[p] > js[p - 1] + 1)
    ensures var s := ReceiveAll(stream, 8, js);
            && Next(s) == js[p - 1] + 1 && s.receiver.nextSeq !in s.receiver.buffer
            && |s.receiver.buffer| <= |js| - p
            && s.receiver.initialized && s.receiver.nextSeq == Seq16(Next(s)) && s.receiver.maxBufferSize == 8
  {
    hide ReceiveAll, Drain, PushStep, WellSent, Seq16;
    if |js| == p {
      assert js[..p] == js;
      StraightKeepsUp(stream, payloads, js);
    } else {
      var front, j := Before(js), js[|js| - 1];
      assert front[..p] == js[..p];
      TheyWait(stream, payloads, front, p);
      GapsAdd(js, 4096, p - 1, |js| - 1);
      var s := ReceiveAll(stream, 8, front);
      assert j > Next(s) by { assert j >= js[p]; }
      Seq16Differs(Next(s), j);
      assert stream.packets[j].seqNum == Seq16(j) && stream.packets[j].payloadType == OPUS;
      FewWait(s.receiver, stream.packets[j]);
      ReceiveNext(stream, js);
    }
  }

  lemma ReceiveNext(stream: Stream, js: seq<nat>)
    requires Known(stream, js) && js != []
    ensures ReceiveAll(stream, 8, js)
            == Receive(ReceiveAll(stream, 8, Before(js)), stream.packets[js[|js| - 1]], js[|js| - 1])
  {
    hide Drain, PushStep;
  }

  /** The eighth one that waits releases the first. */
  lemma EighthReleases(stream: Stream, payloads: seq<Bytes>, js: seq<nat>, p: nat)
    requires IsBare(stream, payloads) && NearInOrder(js, |payloads|) && |js| == p + 8
    ensures Next(ReceiveAll(stream, 8, js)) > js[p]
  {
    hide WellSent, Settled, ReceiveAll, FramePacket;
    ShortOutagesAreNear(stream, 8, js, 4096);
    AlwaysSettled(stream, 8, js);
    DrainedState(stream, 8, js);
    var s := ReceiveAll(stream, 8, js);
    if Next(s) <= js[p] {
      assert forall k :: p < k < |js| ==> js[k] > js[p];
      LateArrivalsAreHeld(stream, js, s, p);
    }
  }

  /** What the decoder should hear: every frame that arrived, with its own bytes. */
  predicate HeardRight(heard: seq<Heard>, payloads: seq<Bytes>, js: seq<nat>)
    requires js != []
  {
    && js[0] + |heard| <= |payloads|
    && forall m :: 0 <= m < |heard| ==>
         heard[m] == if js[0] + m in js then Decoded(payloads[js[0] + m]) else Concealed
  }

  /** Behind the first packet that is missing fewer than eight packets arrive. */
  predicate NothingReleased(js: seq<nat>) {
    forall p :: 0 < p < |js| && js[p] != js[p - 1] + 1 ==> |js| < p + 8
  }

  /** So far as many turns have been heard as are over. */
  lemma {:induction false} HeardCount(
      arrivals: seq<Arrival>, payloads: seq<Bytes>, size: nat, stream: Stream, js: seq<nat>, reader: nat)
    requires OfSize(payloads, size) && IsBare(stream, payloads)
    requires Bare(arrivals, payloads, js, reader) && NearInOrder(js, |payloads|)
    ensures ReadersKnown(arrivals)
    ensures js[0] + |ReadAll(arrivals).1| == Next(ReceiveAll(stream, 8, js))
    ensures |js| > 1 ==> js[0] + |ReadAll(arrivals[..|js| - 1]).1| == TurnOfLast(stream, js)
    decreases |js|
  {
    hide WellSent, OfSize, BareArrival, GapsWithin, ReceiveAll, Read, Next;
    BareStreamIsHeard(arrivals, payloads, size, stream, js, reader);
    if |js| == 1 {
      assert arrivals[..0] == [];
    } else {
      NearInFront(js, |payloads|);
      assert Bare(arrivals[..|js| - 1], payloads, Before(js), reader);
      HeardCount(arrivals[..|js| - 1], payloads, size, stream, Before(js), reader);
    }
  }

  lemma NearInFront(js: seq<nat>, count: nat)
    requires NearInOrder(js, count) && |js| > 1
    ensures NearInOrder(Before(js), count)
    ensures NothingReleased(js) ==> NothingReleased(Before(js))
  {
  }

  lemma FirstGap(js: seq<nat>) returns (p: nat)
    requires !Straight(js)
    ensures 0 < p < |js| && js[p] != js[p - 1] + 1 && Straight(js[..p])
  {
    p := 1;
    while js[p] == js[p - 1] + 1
      invariant 0 < p < |js|
      invariant forall q :: 0 < q < p ==> js[q] == js[q - 1] + 1
      decreases |js| - p
    {
      p := p + 1;
    }
  }

  /** A call that completes no turn, or the turn of the packet it brings. */
  lemma LastCallIsRight(
      arrivals: seq<Arrival>, payloads: seq<Bytes>, size: nat, stream: Stream, js: seq<nat>, reader: nat)
    requires OfSize(payloads, size) && IsBare(stream, payloads)
    requires Bare(arrivals, payloads, js, reader) && NearInOrder(js, |payloads|) && NothingReleased(js)
    ensures ReadersKnown(arrivals)
    ensures LastHeard(arrivals) == []
            || (LastHeard(arrivals) == [Decoded(payloads[js[|js| - 1]])] && TurnOfLast(stream, js) == js[|js| - 1])
    ensures |js| > 1 ==> TurnOfLast(stream, js) <= js[|js| - 2] + 1
  {
    hide IsBare, OfSize, Bare, GapsWithin, ReceiveAll, LastHeard, Next, Seq16;
    BareStreamIsHeard(arrivals, payloads, size, stream, js, reader);
    if |js| > 1 {
      NearInFront(js, |payloads|);
    }
    if Straight(js) {
      StraightKeepsUp(stream, payloads, js);
      if |js| > 1 {
        StraightKeepsUp(stream, payloads, Before(js));
      }
    } else {
      var p := FirstGap(js);
      TheyWait(stream, payloads, js, p);
      assert Before(js)[..p] == js[..p];
      TheyWait(stream, payloads, Before(js), p);
    }
  }

  lemma HeardOneMore(a: seq<Heard>, b: seq<Heard>, payloads: seq<Bytes>, js: seq<nat>)
    requires |js| > 1 && Increasing(js) && js[|js| - 1] < |payloads|
    requires HeardRight(a, payloads, Before(js)) && js[0] + |a| <= js[|js| - 2] + 1
    requires b == [] || (b == [Decoded(payloads[js[|js| - 1]])] && js[0] + |a| == js[|js| - 1])
    ensures HeardRight(a + b, payloads, js)
  {
    forall m | 0 <= m < |a + b|
      ensures (a + b)[m] == if js[0] + m in js then Decoded(payloads[js[0] + m]) else Concealed
    {
      if m < |a| {
        assert js == Before(js) + [js[|js| - 1]];
        assert js[0] + m in js <==> js[0] + m in Before(js);
      }
    }
  }

  lemma {:induction false} RightWhileNothingReleased(
      arrivals: seq<Arrival>, payloads: seq<Bytes>, size: nat, stream: Stream, js: seq<nat>, reader: nat)
    requires OfSize(payloads, size) && IsBare(stream, payloads)
    requires Bare(arrivals, payloads, js, reader) && NearInOrder(js, |payloads|) && NothingReleased(js)
    ensures ReadersKnown(arrivals) && HeardRight(ReadAll(arrivals).1, payloads, js)
    decreases |js|
  {
    hide WellSent, OfSize, BareArrival, GapsWithin, ReceiveAll, Read, Next, TurnOfLast, NothingReleased;
    HeardCount(arrivals, payloads, size, stream, js, reader);
    LastCallIsRight(arrivals, payloads, size, stream, js, reader);
    var front := arrivals[..|js| - 1];
    if |js| == 1 {
      assert front == [];
    } else {
      NearInFront(js, |payloads|);
      assert Bare(front, payloads, Before(js), reader);
      RightWhileNothingReleased(front, payloads, size, stream, Before(js), reader);
      HeardOneMore(ReadAll(front).1, LastHeard(arrivals), payloads, js);
    }
  }

  /** What has been heard stays heard. */
  lemma {:induction false} HeardStays(arrivals: seq<Arrival>, q: nat)
    requires ReadersKnown(arrivals) && q <= |arrivals|
    ensures ReadAll(arrivals[..q]).1 <= ReadAll(arrivals).1
    decreases |arrivals|
  {
    hide Read;
    if q == |arrivals| {
      assert arrivals[..q] == arrivals;
    } else {
      var front := arrivals[..|arrivals| - 1];
      HeardStays(front, q);
      assert front[..q] == arrivals[..q];
    }
  }

  /**
   * When the eighth packet behind the first missing one arrives, the missing turns are concealed and
   * the frame that waited longest is heard as the one that has just arrived.
   */
  lemma EighthIsHeardInstead(
      arrivals: seq<Arrival>, payloads: seq<Bytes>, size: nat, stream: Stream, js: seq<nat>, reader: nat, p: nat)
    requires OfSize(payloads, size) && IsBare(stream, payloads)
    requires Bare(arrivals, payloads, js, reader) && NearInOrder(js, |payloads|)
    requires p > 0 && |js| == p + 8 && Straight(js[..p]) && js[p] > js[p - 1] + 1
    ensures ReadersKnown(arrivals)
    ensures var heard, missing := LastHeard(arrivals), js[p] - js[p - 1] - 1;
            && |heard| > missing && heard[missing] == Decoded(payloads[js[p + 7]])
            && forall m :: 0 <= m < missing ==> heard[m] == Concealed
    ensures js[p] - js[0] < |ReadAll(arrivals).1|
            && ReadAll(arrivals).1[js[p] - js[0]] == Decoded(payloads[js[p + 7]])
  {
    hide WellSent, OfSize, BareArrival, GapsWithin, ReceiveAll, Read, Next, TurnOfLast;
    BareStreamIsHeard(arrivals, payloads, size, stream, js, reader);
    HeardCount(arrivals, payloads, size, stream, js, reader);
    EighthReleases(stream, payloads, js, p);
    TurnAfterWait(stream, payloads, js, p);
    var heard := LastHeard(arrivals);
    forall m | 0 <= m < js[p] - js[p - 1] - 1
      ensures heard[m] == Concealed
    {
      NotBetween(js, p, js[p - 1] + 1 + m);
    }
  }

  lemma NotBetween(js: seq<nat>, p: nat, x: nat)
    requires Increasing(js) && 0 < p < |js| && js[p - 1] < x < js[p]
    ensures x !in js
  {
    assert forall k :: 0 <= k < p ==> js[k] <= js[p - 1];
    assert forall k :: p <= k < |js| ==> js[p] <= js[k];
  }

  lemma TurnAfterWait(stream: Stream, payloads: seq<Bytes>, js: seq<nat>, p: nat)
    requires IsBare(stream, payloads) && NearInOrder(js, |payloads|)
    requires p > 0 && |js| == p + 8 && Straight(js[..p]) && js[p] > js[p - 1] + 1
    ensures TurnOfLast(stream, js) == js[p - 1] + 1
  {
    hide WellSent, GapsWithin, ReceiveAll, Next;
    NearInFront(js, |payloads|);
    assert Before(js)[..p] == js[..p];
    TheyWait(stream, payloads, Before(js), p);
  }

  /** No two frames are the same. */
  predicate Distinct(payloads: seq<Bytes>) {
    forall a, b :: 0 <= a < b < |payloads| ==> payloads[a] != payloads[b]
  }

  lemma BareReaders(arrivals: seq<Arrival>, payloads: seq<Bytes>, js: seq<nat>, reader: nat)
    requires Bare(arrivals, payloads, js, reader)
    ensures ReadersKnown(arrivals)
  {
  }

  lemma WrongOnceReleased(
      arrivals: seq<Arrival>, payloads: seq<Bytes>, size: nat, stream: Stream, js: seq<nat>, reader: nat)
    requires OfSize(payloads, size) && IsBare(stream, payloads) && Distinct(payloads)
    requires Bare(arrivals, payloads, js, reader) && NearInOrder(js, |payloads|) && !NothingReleased(js)
    ensures ReadersKnown(arrivals) && !HeardRight(ReadAll(arrivals).1, payloads, js)
  {
    hide OfSize, IsBare, BareArrival, GapsWithin, ReadAll, LastHeard;
    var p := FirstGap(js);
    var q, i := p + 8, js[p] - js[0];
    assert ReadersKnown(arrivals) by { BareReaders(arrivals, payloads, js, reader); }
    NearInPrefix(js, |payloads|, q);
    assert js[..q][..p] == js[..p];
    EighthIsHeardInstead(arrivals[..q], payloads, size, stream, js[..q], reader, p);
    HeardStays(arrivals, q);
    assert ReadAll(arrivals).1[i] == Decoded(payloads[js[p + 7]]);
    assert payloads[js[p]] != payloads[js[p + 7]];
    assert js[0] + i == js[p] && js[p] in js;
  }

  lemma NearInPrefix(js: seq<nat>, count: nat, q: nat)
    requires NearInOrder(js, count) && 0 < q <= |js|
    ensures NearInOrder(js[..q], count)
  {
  }

  /**
   * When a stream without redundancy is heard right, exactly, told by the arrivals alone. Different
   * frames of one size arrive in order, neighbours at most 4096 apart, at one worker. Then everything
   * the decoder gets is the frame of its turn, or concealed for one that did not arrive, if and only
   * if fewer than eight packets have arrived behind the first one missing.
   */
  lemma BareStreamIsRightExactly(
      arrivals: seq<Arrival>, payloads: seq<Bytes>, size: nat, js: seq<nat>, reader: nat)
    requires OfSize(payloads, size) && size < 0x400 && Distinct(payloads)
    requires Bare(arrivals, payloads, js, reader) && NearInOrder(js, |payloads|)
    ensures ReadersKnown(arrivals)
    ensures HeardRight(ReadAll(arrivals).1, payloads, js)
            <==> forall p :: 0 < p < |js| && js[p] != js[p - 1] + 1 ==> |js| < p + 8
  {
    hide OfSize, IsBare, BareArrival, GapsWithin, ReadAll, HeardRight, Distinct;
    var stream := BareStream(payloads, size);
    if NothingReleased(js) {
      RightWhileNothingReleased(arrivals, payloads, size, stream, js, reader);
    } else {
      WrongOnceReleased(arrivals, payloads, size, stream, js, reader);
    }
  }

  /** One packet is lost, then eight arrive. */
  const ONE_LOST: seq<nat> := [0, 2, 3, 4, 5, 6, 7, 8, 9]

  lemma OneLost()
    ensures |ONE_LOST| == 9 && ONE_LOST[0] == 0 && ONE_LOST[1] == 2 && ONE_LOST[8] == 9
    ensures NearInOrder(ONE_LOST, 10) && Straight(ONE_LOST[..1])
  {
  }

  lemma SecondIsHeardAsLast(
      arrivals: seq<Arrival>, payloads: seq<Bytes>, size: nat, stream: Stream, js: seq<nat>, reader: nat)
    requires OfSize(payloads, size) && IsBare(stream, payloads) && |payloads| == 10
    requires Bare(arrivals, payloads, js, reader) && NearInOrder(js, 10)
    requires |js| == 9 && js[0] == 0 && js[1] == 2 && js[8] == 9 && Straight(js[..1])
    ensures ReadersKnown(arrivals)
    ensures var heard := LastHeard(arrivals);
            |heard| >= 2 && heard[0] == Concealed && heard[1] == Decoded(payloads[9])
  {
    hide OfSize, IsBare, BareArrival, LastHeard, ReadAll, NearInOrder, Straight;
    EighthIsHeardInstead(arrivals, payloads, size, stream, js, reader, 1);
  }

  /**
   * A frame played with another frame's bytes. Without redundancy, at one worker, packet 1 is lost
   * and packets 2 to 9 arrive. When packet 9 is read, turn 1 is concealed and turn 2 plays frame 9.
   */
  lemma FrameIsOverwritten(arrivals: seq<Arrival>, payloads: seq<Bytes>, size: nat, reader: nat)
    requires OfSize(payloads, size) && size < 0x400 && |payloads| == 10
    requires Bare(arrivals, payloads, ONE_LOST, reader)
    ensures ReadersKnown(arrivals)
    ensures var heard := LastHeard(arrivals);
            |heard| >= 2 && heard[0] == Concealed && heard[1] == Decoded(payloads[9])
  {
    hide OfSize, IsBare, Bare, LastHeard, NearInOrder, Straight;
    OneLost();
    var stream := BareStream(payloads, size);
    SecondIsHeardAsLast(arrivals, payloads, size, stream, ONE_LOST, reader);
  }
}
