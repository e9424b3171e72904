/** The RTP adapter of ingestion/rtp.go: one datagram in, frames and perhaps a report out. */
module RtpIngest {
  import opened Basics
  import opened RedCodec
  import opened RedReceiving
  import opened RedOutput
  import opened Wire
  import opened Feedback

  /** The reader's buffer; a longer datagram is cut off by the socket. */
  const READ_BUFFER := 2048

  function Datagram(bytes: Bytes): Bytes {
    if |bytes| <= READ_BUFFER then bytes else bytes[..READ_BUFFER]
  }

  // ---------------------------------------------------------------- specification

  datatype Adapter = Adapter(receiver: Receiver, engine: Engine)

  /** What one datagram leads to: the results handed to the decoder, and a report to send back. */
  datatype Outcome = Outcome(adapter: Adapter, out: seq<PopResult>, report: Option<Bytes>)

  predicate IsAudio(m: MediaPacket) {
    m.payloadType == OPUS || m.payloadType == RED
  }

  /** The engine and the report after an arrival: every fiftieth number triggers one. */
  function AfterReport(e: Engine, seqNum: U16): (Engine, Option<Bytes>)
    requires Sane(e)
  {
    if seqNum % 50 != 0 then (e, None)
    else
      var report := ReportOf(e);
      (e.(recommended := report.recommended), Some(ReportBytes(report)))
  }

  function Audio(a: Adapter, m: MediaPacket, nowMs: int): Outcome
    requires Sane(a.engine)
  {
    ArrivalIsSane(a.engine, m.seqNum, m.timestamp, nowMs);
    var (engine, report) := AfterReport(ArrivalStep(a.engine, m.seqNum, m.timestamp, nowMs), m.seqNum);
    var (receiver, out) := Drain(PushStep(a.receiver, m), false);
    Outcome(Adapter(receiver, engine), out, report)
  }

  function Process(a: Adapter, data: Bytes, nowMs: int): Outcome
    requires Sane(a.engine)
  {
    match ParseRtp(data)
    case None => Outcome(a, [], None)
    case Some(m) => if IsAudio(m) then Audio(a, m, nowMs) else Outcome(a, [], None)
  }

  // ---------------------------------------------------------------- the object

  class RtpAdapter {
    const receiver: RedReceiver
    const engine: RTCPFeedbackEngine

    ghost function State(): Adapter
      reads receiver, engine
    {
      Adapter(receiver.State(), engine.State())
    }

    constructor ()
      ensures fresh(receiver) && fresh(engine)
      ensures State() == Adapter(NewReceiver(8), NewEngine(0x1234_5678)) && Sane(State().engine)
    {
      receiver := new RedReceiver(8);
      engine := new RTCPFeedbackEngine(0x1234_5678);
    }

    /** rtp.go:353-374. */
    method SendRtcpReport() returns (bytes: Bytes)
      requires Sane(engine.State())
      modifies engine`recommended
      ensures bytes == ReportBytes(ReportOf(old(engine.State())))
      ensures engine.State() == old(engine.State()).(recommended := ReportOf(old(engine.State())).recommended)
    {
      var report := engine.GenerateReport();
      bytes := SerializeReport(report);
    }

    /** rtp.go:210-215: pop until nothing is ready. */
    method PopReady() returns (out: seq<PopResult>)
      modifies receiver
      ensures (receiver.State(), out) == Drain(old(receiver.State()), false)
    {
      out := [];
      assert [] + Drain(receiver.State(), false).1 == Drain(receiver.State(), false).1;
      while true
        invariant Drain(old(receiver.State()), false)
                  == (Drain(receiver.State(), false).0, out + Drain(receiver.State(), false).1)
        decreases Span(receiver.State())
      {
        ghost var before := receiver.State();
        var result := receiver.PopNext(false);
        if result.Nothing? {
          assert out + [] == out;
          break;
        }
        PopShrinksSpan(before, false);
        Assoc(out, [result], Drain(receiver.State(), false).1);
        out := out + [result];
      }
    }

    method ProcessPacket(data: Bytes, nowMs: int) returns (out: seq<PopResult>, report: Option<Bytes>)
      requires Sane(engine.State())
      modifies receiver, engine
      ensures Outcome(State(), out, report) == Process(old(State()), data, nowMs)
      ensures Sane(engine.State())
    {
      out, report := [], None;
      var media := Parse(data);
      if media.None? || !IsAudio(media.value) {
        return;
      }
      var m := media.value;
      ArrivalIsSane(engine.State(), m.seqNum, m.timestamp, nowMs);
      engine.RecordArrival(m.seqNum, m.timestamp, nowMs);
      if m.seqNum % 50 == 0 {
        var bytes := SendRtcpReport();
        report := Some(bytes);
      }
      receiver.Push(m);
      out := PopReady();
    }
  }

  /** The adapter never enters a state it cannot go on from. */
  lemma ProcessIsSane(a: Adapter, data: Bytes, nowMs: int)
    requires Sane(a.engine)
    ensures Sane(Process(a, data, nowMs).adapter.engine)
  {
    match ParseRtp(data)
    case None =>
    case Some(m) => ArrivalIsSane(a.engine, m.seqNum, m.timestamp, nowMs);
  }

  /** The due frame is missing and at most seven frames wait. */
  ghost predicate Waits(r: Receiver) {
    r.maxBufferSize == 8 && r.nextSeq !in r.buffer && |r.buffer| <= 7
  }

  lemma ProcessWaits(a: Adapter, data: Bytes, nowMs: int)
    requires Sane(a.engine) && Waits(a.receiver)
    ensures Waits(Process(a, data, nowMs).adapter.receiver)
  {
    match ParseRtp(data)
    case None =>
    case Some(m) =>
      PushKeepsKeys(a.receiver, m);
      DrainStops(PushStep(a.receiver, m));
      DrainLeavesLater(PushStep(a.receiver, m), false);
  }

  /** An adapter after these datagrams, whoever sent them, at these times. */
  function AfterDatagrams(datagrams: seq<Bytes>, clock: seq<int>): (a: Adapter)
    requires |clock| == |datagrams|
    ensures Sane(a.engine)
  {
    if datagrams == [] then Adapter(NewReceiver(8), NewEngine(0x1234_5678))
    else
      var n := |datagrams| - 1;
      var before := AfterDatagrams(datagrams[..n], clock[..n]);
      ProcessIsSane(before, datagrams[n], clock[n]);
      Process(before, datagrams[n], clock[n]).adapter
  }

  /** Bounded waiting: whatever datagrams arrive, between two of them at most seven frames wait. */
  lemma {:induction false} AtMostSevenWait(datagrams: seq<Bytes>, clock: seq<int>)
    requires |clock| == |datagrams|
    ensures Waits(AfterDatagrams(datagrams, clock).receiver)
  {
    hide Process;
    if datagrams == [] {
    } else {
      var n := |datagrams| - 1;
      AtMostSevenWait(datagrams[..n], clock[..n]);
      ProcessWaits(AfterDatagrams(datagrams[..n], clock[..n]), datagrams[n], clock[n]);
    }
  }
}
