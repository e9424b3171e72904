/**
 * What the decoder gets to hear of a stream of RED packets, whichever worker makes each call, one call
 * after another: exactly the recovered frames. (Workers has the calls overlap.)
 */
module HeardFrames {
  import opened Basics
  import opened RedCodec
  import opened RedPacketizer
  import opened RedReceiving
  import opened RedOutput
  import opened Recovery
  import opened InOrderRecovery
  import opened Wire
  import opened Feedback
  import opened RtpIngest
  import opened Outages
  import opened ReadBuffers
  import ClosedLoop

  // ---------------------------------------------------------------- RED packets

  /** The arrivals are the packets js of the stream, each whole, whoever reads them. */
  ghost predicate Delivered(arrivals: seq<Arrival>, stream: Stream, js: seq<nat>)
    requires Known(stream, js)
  {
    && |arrivals| == |js| && ReadersKnown(arrivals)
    && forall k :: 0 <= k < |js| ==> ParseRtp(Datagram(arrivals[k].data)) == Some(stream.packets[js[k]])
  }

  ghost predicate AllRed(stream: Stream) {
    forall j :: 0 <= j < |stream.packets| ==> stream.packets[j].payloadType == RED
  }

  lemma {:induction false} HeardConcat(a: seq<PopResult>, b: seq<PopResult>)
    ensures HeardAs(a + b) == HeardAs(a) + HeardAs(b)
  {
  }

  lemma StreamPacketIsCopied(stream: Stream, j: nat)
    requires WellSent(stream) && AllRed(stream) && j < |stream.packets|
    ensures IsAudio(stream.packets[j]) && IsCopied(stream.packets[j])
  {
    assert CarriesAt(stream, j);
  }

  lemma ProcessIsReceive(a: Adapter, data: Bytes, nowMs: int, packet: MediaPacket)
    requires Sane(a.engine) && ParseRtp(data) == Some(packet) && IsAudio(packet)
    ensures var outcome := Process(a, data, nowMs);
            (outcome.adapter.receiver, outcome.out) == Drain(PushStep(a.receiver, packet), false)
  {
    hide Drain, PushStep;
  }

  /**
   * With RED packets only, one call after another, the decoder hears what the receiver hands out, payload
   * by payload.
   */
  lemma {:induction false} DecoderHearsTheReceiver(arrivals: seq<Arrival>, stream: Stream, js: seq<nat>)
    requires WellSent(stream) && AllRed(stream) && Known(stream, js) && Delivered(arrivals, stream, js)
    ensures var (s, heard) := ReadAll(arrivals);
            && s.refs == map[]
            && s.adapter.receiver == ReceiveAll(stream, 8, js).receiver
            && heard == HeardAs(ReceiveAll(stream, 8, js).out)
  {
    hide WellSent, Drain, PushStep, Process, IsCopied, ParseRtp, Datagram, HeardAs, Read;
    if js == [] {
      assert HeardAs([]) == [];
    } else {
      var n := |js| - 1;
      assert Before(js) == js[..n];
      DecoderHearsTheReceiver(arrivals[..n], stream, js[..n]);
      var (s, heard) := ReadAll(arrivals[..n]);
      StreamPacketIsCopied(stream, js[n]);
      CopiesAreHeardAsSent(s, arrivals[n]);
      ReadIsValid(s, arrivals[n]);
      ProcessIsReceive(s.adapter, Datagram(arrivals[n].data), arrivals[n].nowMs, stream.packets[js[n]]);
      HeardConcat(ReceiveAll(stream, 8, js[..n]).out,
                  Drain(PushStep(s.adapter.receiver, stream.packets[js[n]]), false).1);
    }
  }

  lemma {:induction false} PackAllIsRed(depth: nat, payloads: seq<Bytes>)
    requires depth >= 1
    ensures AllRed(Sent(depth, PackAll(payloads)))
  {
    if payloads == [] {
    } else {
      var front, last := payloads[..|payloads| - 1], payloads[|payloads| - 1];
      PackAllIsRed(depth, front);
      PackAllSends(depth, front);
      SentOneMore(depth, PackAll(front), last);
      hide RunPacker, Reaches, EncodeRed, AfterPack;
      var p := RunPacker(depth, PackAll(front)).packer;
      assert PackedPacket(p, last).payloadType == RED;
    }
  }

  /**
   * From the sender's packets to the decoder's ear. Frames of at most 1023 bytes are packed at a
   * depth from 1 to 17; any subset of the packets arrives whole and in order, neighbours at most 4096
   * apart; whichever worker makes each call, one call comes after another. Then turn after turn the
   * decoder gets exactly frame i if one of the packets i to i + depth arrived, and otherwise conceals it.
   */
  lemma HeardAtConstantDepth(depth: nat, payloads: seq<Bytes>, arrivals: seq<Arrival>, js: seq<nat>)
    requires 1 <= depth <= MAX_REDUNDANCY && forall k :: 0 <= k < |payloads| ==> |payloads[k]| < 0x400
    requires js != [] && Increasing(js) && js[|js| - 1] < |payloads| && GapsWithin(js, 4096)
    requires Known(Sent(depth, PackAll(payloads)), js) && Delivered(arrivals, Sent(depth, PackAll(payloads)), js)
    ensures ReadersKnown(arrivals)
    ensures var heard := ReadAll(arrivals).1;
            && js[0] + |heard| <= js[|js| - 1] + 1 <= |payloads|
            && forall m :: 0 <= m < |heard| ==>
                 heard[m] == if ArrivedWithin(js, js[0] + m, depth) then Decoded(payloads[js[0] + m]) else Concealed
  {
    hide Sent, WellSent, GapsWithin, ReceiveAll, ArrivedWithin, ParseRtp, AllRed, ReadAll, HeardAs;
    var stream := SentStream(depth, payloads);
    PackAllIsRed(depth, payloads);
    DecoderHearsTheReceiver(arrivals, stream, js);
    HandedOutAtConstantDepth(depth, payloads, js);
  }

  lemma HandedOutAtConstantDepth(depth: nat, payloads: seq<Bytes>, js: seq<nat>)
    requires depth <= MAX_REDUNDANCY && forall k :: 0 <= k < |payloads| ==> |payloads[k]| < 0x400
    requires js != [] && Increasing(js) && js[|js| - 1] < |payloads| && GapsWithin(js, 4096)
    ensures Known(Sent(depth, PackAll(payloads)), js)
    ensures var out := ReceiveAll(Sent(depth, PackAll(payloads)), 8, js).out;
            && js[0] + |out| <= js[|js| - 1] + 1
            && forall m :: 0 <= m < |out| ==>
                 HeardAs(out)[m]
                 == if ArrivedWithin(js, js[0] + m, depth) then Decoded(payloads[js[0] + m]) else Concealed
  {
    hide Sent, WellSent, NeverFarAhead, GapsWithin, ReceiveAll, ArrivedWithin, Says, HeardOf;
    var stream := SentStream(depth, payloads);
    RecoveryAtConstantDepth(depth, payloads, 8, js, 4096);
    ShortOutagesAreNear(stream, 8, js, 4096);
    RecoveryExactly(stream, 8, js);
    var out := ReceiveAll(stream, 8, js).out;
    forall m | 0 <= m < |out|
      ensures HeardAs(out)[m]
              == if ArrivedWithin(js, js[0] + m, depth) then Decoded(payloads[js[0] + m]) else Concealed
    {
      SaysIsHeard(out, m, payloads, js[0] + m, ArrivedWithin(js, js[0] + m, depth));
    }
  }

  lemma SaysIsHeard(out: seq<PopResult>, m: nat, frames: seq<Bytes>, i: nat, there: bool)
    requires m < |out| && i < |frames| && Says(out[m], frames, i, there)
    ensures HeardAs(out)[m] == if there then Decoded(frames[i]) else Concealed
  {
  }

  // ---------------------------------------------------------------- the closed loop

  /** What the reading workers get to read in the first t actions, each time the one that readers says. */
  ghost function LoopArrivals(
      run: seq<ClosedLoop.System>, actions: seq<ClosedLoop.Action>, readers: seq<nat>, t: nat): (arrivals: seq<Arrival>)
    requires ClosedLoop.IsRun(run, actions) && t <= |actions| == |readers|
    requires forall k :: 0 <= k < |readers| ==> readers[k] < READERS
    ensures ReadersKnown(arrivals)
  {
    if t == 0 then []
    else if actions[t - 1].GetPacket? then
      assert ClosedLoop.Possible(run[t - 1], actions[t - 1]);
      LoopArrivals(run, actions, readers, t - 1)
      + [Arrival(readers[t - 1], run[t - 1].wire[actions[t - 1].j], actions[t - 1].nowMs)]
    else LoopArrivals(run, actions, readers, t - 1)
  }

  lemma LoopPacketIsCopied(sys: ClosedLoop.System, j: nat)
    requires ClosedLoop.Invariant(sys) && j < |sys.wire|
    ensures var parsed := ParseRtp(Datagram(sys.wire[j])); parsed.Some? && IsCopied(parsed.value)
  {
    hide ParseRtp, IsCopied, Tracks, WindowMoves, Faithful, Carries;
    assert forall i :: 0 <= i < |sys.wire| ==> ClosedLoop.OnWire(sys.wire[i], sys.stream.packets[i]);
    SenderRoundTrip(sys.stream.packets[j], RED);
    StreamPacketIsCopied(sys.stream, j);
  }

  lemma ArrivalIsHeardAsSent(sys: ClosedLoop.System, a: ClosedLoop.Action, s: Shared, reader: nat)
    requires ClosedLoop.Invariant(sys) && ClosedLoop.Possible(sys, a) && a.GetPacket? && reader < READERS
    requires Valid(s) && s.refs == map[] && s.adapter == sys.adapter
    ensures a.j < |sys.wire|
    ensures var arrival := Arrival(reader, sys.wire[a.j], a.nowMs);
            var sys' := ClosedLoop.ArriveStep(sys, a.j, a.nowMs);
            && Read(s, arrival).0.refs == map[]
            && Read(s, arrival).0.adapter == sys'.adapter
            && HeardAs(sys.out) + Read(s, arrival).1 == HeardAs(sys'.out)
  {
    hide Read, Process, HeardAs, ParseRtp, IsCopied, ClosedLoop.SenderOk, ClosedLoop.WireOk, Faithful;
    var arrival := Arrival(reader, sys.wire[a.j], a.nowMs);
    LoopPacketIsCopied(sys, a.j);
    CopiesAreHeardAsSent(s, arrival);
    ReadIsValid(s, arrival);
    HeardConcat(sys.out, Process(s.adapter, Datagram(arrival.data), a.nowMs).out);
  }

  /**
   * In the closed loop every packet is RED and unpacks, so at every moment of every run, whichever
   * worker reads each datagram, one call after another: nothing refers to a read buffer, and all
   * results so far have reached the decoder byte for byte.
   */
  lemma {:induction false} LoopIsHeardAsSent(
      run: seq<ClosedLoop.System>, actions: seq<ClosedLoop.Action>, readers: seq<nat>, t: nat)
    requires ClosedLoop.IsRun(run, actions) && t <= |actions| == |readers|
    requires forall k :: 0 <= k < |readers| ==> readers[k] < READERS
    ensures var (s, heard) := ReadAll(LoopArrivals(run, actions, readers, t));
            && s.refs == map[]
            && s.adapter == run[t].adapter
            && heard == HeardAs(run[t].out)
  {
    hide ClosedLoop.Invariant, ClosedLoop.Possible, ClosedLoop.ArriveStep, Read, HeardAs;
    if t == 0 {
      assert HeardAs([]) == [] by { NothingHeard(); }
    } else {
      LoopIsHeardAsSent(run, actions, readers, t - 1);
      var a, sys := actions[t - 1], run[t - 1];
      assert ClosedLoop.Possible(sys, a) && run[t - 1 + 1] == ClosedLoop.Next(sys, a);
      if a.GetPacket? {
        ClosedLoop.LoopIsFaithful(run, actions);
        ArrivalIsHeardAsSent(sys, a, ReadAll(LoopArrivals(run, actions, readers, t - 1)).0, readers[t - 1]);
      } else {
        ClosedLoop.ReceivingSideStays(sys, a);
      }
    }
  }

  lemma NothingHeard()
    ensures HeardAs([]) == []
  {
  }
}
