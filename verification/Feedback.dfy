/** Loss feedback: the RTCP engine of rtcp.go, its report on the wire, and the sender's reading of it. */
module Feedback {
  import opened Basics
  import opened Wire

  // ---------------------------------------------------------------- specification

  /** Jitter and loss fractions are exact reals here. */
  datatype Engine = Engine(
    ssrc: U32,
    lastSeq: U16,
    packetsRecv: nat,
    packetsLost: nat,
    jitter: real,
    lastTransit: int,
    recommended: int)

  datatype Report = Report(
    ssrc: U32,
    fractionLost: Byte,
    totalLost: U32,
    highestSeq: U32,
    jitter: U32,
    recommended: int)

  function NewEngine(ssrc: U32): Engine {
    Engine(ssrc, 0, 0, 0, 0.0, 0, 2)
  }

  /** The packets taken for lost between two arrivals; zero stands for "no arrival yet". */
  function CountedGap(lastSeq: U16, seqNum: U16): nat {
    var diff := Dist(lastSeq, seqNum);
    if lastSeq != 0 && 1 < diff < 30000 then diff - 1 else 0
  }

  function Smoothed(e: Engine, transit: int): real {
    if e.lastTransit == 0 then e.jitter
    else
      var d := transit as real - e.lastTransit as real;
      e.jitter + ((if d < 0.0 then -d else d) - e.jitter) / 16.0
  }

  function ArrivalStep(e: Engine, seqNum: U16, timestamp: U32, nowMs: int): Engine {
    var transit := nowMs - timestamp / 48;
    e.(packetsRecv := e.packetsRecv + 1,
       jitter := Smoothed(e, transit),
       lastTransit := transit,
       packetsLost := e.packetsLost + CountedGap(e.lastSeq, seqNum),
       lastSeq := seqNum)
  }

  function FractionLost(e: Engine): real {
    var total := e.packetsRecv + e.packetsLost;
    if total > 0 then e.packetsLost as real / total as real else 0.0
  }

  function DepthFor(fraction: real): int {
    if fraction > 0.15 then 3 else if fraction < 0.05 then 1 else 2
  }

  /** Nothing is counted lost before something arrived. */
  ghost predicate Sane(e: Engine) {
    (e.packetsRecv == 0 ==> e.packetsLost == 0) && e.jitter >= 0.0
  }

  lemma FractionIsProper(e: Engine)
    requires Sane(e)
    ensures 0.0 <= FractionLost(e) < 1.0
    ensures 0 <= (FractionLost(e) * 256.0).Floor < 256
  {
  }

  function ReportOf(e: Engine): Report
    requires Sane(e)
  {
    FractionIsProper(e);
    Report(e.ssrc, (FractionLost(e) * 256.0).Floor, e.packetsLost % 0x1_0000_0000, e.lastSeq,
           e.jitter.Floor % 0x1_0000_0000, DepthFor(FractionLost(e)))
  }

  // ---------------------------------------------------------------- the object

  class RTCPFeedbackEngine {
    var ssrc: U32
    var lastSeq: U16
    var packetsRecv: nat
    var packetsLost: nat
    var jitter: real
    var lastTransit: int
    var recommended: int

    ghost function State(): Engine
      reads this
    {
      Engine(ssrc, lastSeq, packetsRecv, packetsLost, jitter, lastTransit, recommended)
    }

    constructor (ssrc: U32)
      ensures State() == NewEngine(ssrc) && Sane(State())
    {
      this.ssrc, recommended := ssrc, 2;
      lastSeq, packetsRecv, packetsLost, jitter, lastTransit := 0, 0, 0, 0.0, 0;
    }

    method RecordArrival(seqNum: U16, rtpTimestamp: U32, nowMs: int)
      modifies this
      ensures State() == ArrivalStep(old(State()), seqNum, rtpTimestamp, nowMs)
    {
      packetsRecv := packetsRecv + 1;
      var transit := nowMs - rtpTimestamp / 48;
      if lastTransit != 0 {
        var d := transit as real - lastTransit as real;
        if d < 0.0 {
          d := -d;
        }
        jitter := jitter + (d - jitter) / 16.0;
      }
      lastTransit := transit;
      if lastSeq != 0 {
        var diff := Dist(lastSeq, seqNum);
        if diff > 1 && diff < 30000 {
          packetsLost := packetsLost + (diff - 1);
        }
      }
      lastSeq := seqNum;
    }

    method GenerateReport() returns (report: Report)
      requires Sane(State())
      modifies this`recommended
      ensures report == ReportOf(old(State()))
      ensures State() == old(State()).(recommended := report.recommended)
    {
      FractionIsProper(State());
      var total := packetsRecv + packetsLost;
      var fracLost := 0.0;
      if total > 0 {
        fracLost := packetsLost as real / total as real;
      }
      if fracLost > 0.15 {
        recommended := 3;
      } else if fracLost < 0.05 {
        recommended := 1;
      } else {
        recommended := 2;
      }
      report := Report(ssrc, (fracLost * 256.0).Floor, packetsLost % 0x1_0000_0000, lastSeq,
                       jitter.Floor % 0x1_0000_0000, recommended);
    }
  }

  /**
   * Arrivals keep the engine in a state it can report from. From the second one on jitter moves by a
   * sixteenth of the way towards the latest deviation, so it never turns negative and never exceeds
   * what it was and that deviation.
   */
  lemma ArrivalIsSane(e: Engine, seqNum: U16, timestamp: U32, nowMs: int)
    requires Sane(e)
    ensures Sane(ArrivalStep(e, seqNum, timestamp, nowMs))
    ensures var change := nowMs - timestamp / 48 - e.lastTransit;
            var deviation := (if change < 0 then -change else change) as real;
            e.lastTransit != 0 ==>
              var jitter := ArrivalStep(e, seqNum, timestamp, nowMs).jitter;
              && 16.0 * jitter == 15.0 * e.jitter + deviation
              && (jitter <= e.jitter || jitter <= deviation)
  {
    var transit := nowMs - timestamp / 48;
    if e.lastTransit != 0 {
      var d := transit as real - e.lastTransit as real;
      var deviation := if d < 0.0 then -d else d;
      assert Smoothed(e, transit) == (15.0 * e.jitter + deviation) / 16.0;
    }
  }

  // ---------------------------------------------------------------- the report on the wire

  /** The 24 bytes of sendRTCPReport; the last three stay zero. */
  function ReportBytes(r: Report): Bytes
    requires 0 <= r.recommended < 0x1_0000_0000
  {
    Be32(r.ssrc) + [r.fractionLost] + Be32(r.totalLost) + Be32(r.highestSeq) + Be32(r.jitter)
    + Be32(r.recommended) + [0, 0, 0]
  }

  method SerializeReport(report: Report) returns (bytes: Bytes)
    requires 0 <= report.recommended < 0x1_0000_0000
    ensures bytes == ReportBytes(report)
  {
    hide Be32;
    var buf := new Byte[24](_ => 0);
    PutBe32(buf, 0, report.ssrc);
    buf[4] := report.fractionLost;
    assert buf[..5] == Be32(report.ssrc) + [report.fractionLost];
    PutBe32(buf, 5, report.totalLost);
    PutBe32(buf, 9, report.highestSeq);
    PutBe32(buf, 13, report.jitter);
    PutBe32(buf, 17, report.recommended);
    assert buf[..] == buf[..21] + [0, 0, 0];
    bytes := buf[..];
  }

  datatype SenderView = SenderView(
    ssrc: U32, fractionLost: Byte, totalLost: U32, highestSeq: U32, jitter: U32, recommended: nat)

  /** cmd/sender/main.go:111-117: anything of at least 21 bytes is read as a report. */
  function ParseReport(bytes: Bytes): Option<SenderView> {
    if |bytes| < 21 then None
    else Some(SenderView(ReadBe32(bytes, 0), bytes[4], ReadBe32(bytes, 5), ReadBe32(bytes, 9),
                         ReadBe32(bytes, 13), ReadBe32(bytes, 17)))
  }

  lemma ReportRoundTrip(r: Report)
    requires 0 <= r.recommended < 0x1_0000_0000
    ensures |ReportBytes(r)| == 24
    ensures ParseReport(ReportBytes(r))
            == Some(SenderView(r.ssrc, r.fractionLost, r.totalLost, r.highestSeq, r.jitter, r.recommended))
  {
    var b := ReportBytes(r);
    Be32At(b, 0, r.ssrc);
    Be32At(b, 5, r.totalLost);
    Be32At(b, 9, r.highestSeq);
    Be32At(b, 13, r.jitter);
    Be32At(b, 17, r.recommended);
  }

  lemma Be32At(data: Bytes, at: nat, x: U32)
    requires at + 4 <= |data| && data[at..at + 4] == Be32(x)
    ensures ReadBe32(data, at) == x
  {
    assert data == data[..at] + Be32(x) + data[at + 4..];
    Be32RoundTrip(data[..at], x, data[at + 4..]);
  }

  /** The 21 bytes that a sender reads a report from. */
  function ViewBytes(v: SenderView): Bytes
    requires v.recommended < 0x1_0000_0000
  {
    Be32(v.ssrc) + [v.fractionLost] + Be32(v.totalLost) + Be32(v.highestSeq) + Be32(v.jitter) + Be32(v.recommended)
  }

  /** What the sender takes for a report, exactly: anything that starts with one, whatever follows. */
  lemma ReadExactly(bytes: Bytes, v: SenderView)
    requires v.recommended < 0x1_0000_0000
    ensures ParseReport(bytes) == Some(v) <==> ViewBytes(v) <= bytes
  {
    hide Be32, ReadBe32;
    var b := ViewBytes(v);
    if b <= bytes {
      Be32At(bytes, 0, v.ssrc);
      Be32At(bytes, 5, v.totalLost);
      Be32At(bytes, 9, v.highestSeq);
      Be32At(bytes, 13, v.jitter);
      Be32At(bytes, 17, v.recommended);
    }
    if ParseReport(bytes) == Some(v) {
      ReadBe32Inverse(bytes, 0);
      ReadBe32Inverse(bytes, 5);
      ReadBe32Inverse(bytes, 9);
      ReadBe32Inverse(bytes, 13);
      ReadBe32Inverse(bytes, 17);
      assert bytes[..21]
             == bytes[0..4] + [bytes[4]] + bytes[5..9] + bytes[9..13] + bytes[13..17] + bytes[17..21];
    }
  }

  lemma QuotientAgainst(x: real, t: real, c: real)
    requires t > 0.0
    ensures x / t > c <==> x > c * t
    ensures x / t < c <==> x < c * t
  {
    var q := x / t;
    assert x == q * t;
    if q > c {
      assert (q - c) * t > 0.0;
    } else if q < c {
      assert (c - q) * t > 0.0;
    }
  }

  /** Depth decisions in whole numbers: more than 15 lost in 100, fewer than 5 in 100. */
  lemma DepthThresholds(e: Engine)
    ensures var lost, total := e.packetsLost, e.packetsRecv + e.packetsLost;
            var depth := DepthFor(FractionLost(e));
            && (depth == 3 <==> 100 * lost > 15 * total)
            && (depth == 1 <==> total == 0 || 100 * lost < 5 * total)
            && 1 <= depth <= 3
  {
    var lost, total := e.packetsLost, e.packetsRecv + e.packetsLost;
    if total > 0 {
      QuotientAgainst(lost as real, total as real, 0.15);
      QuotientAgainst(lost as real, total as real, 0.05);
      assert lost as real > 0.15 * total as real <==> 100 * lost > 15 * total;
      assert lost as real < 0.05 * total as real <==> 100 * lost < 5 * total;
    }
  }

  /** The depth to ask for, in whole numbers. */
  function DepthOf(lost: nat, total: nat): nat {
    if 100 * lost > 15 * total then 3 else if total == 0 || 100 * lost < 5 * total then 1 else 2
  }

  lemma FloorOfShare(lost: nat, total: nat)
    requires lost < total
    ensures var share := (lost as real / total as real * 256.0).Floor;
            share * total <= 256 * lost < (share + 1) * total
  {
    var x, t := lost as real, total as real;
    var share := (x / t * 256.0).Floor;
    QuotientAgainst(x, t, share as real / 256.0);
    QuotientAgainst(x, t, (share + 1) as real / 256.0);
    assert share as real / 256.0 <= x / t < (share + 1) as real / 256.0;
    assert 256.0 * (share as real / 256.0 * t) == (share * total) as real;
    assert 256.0 * ((share + 1) as real / 256.0 * t) == ((share + 1) * total) as real;
  }

  /**
   * What a report tells the sender: the share of losses in 256ths, rounded down; the losses modulo
   * 2^32; the last number; the jitter, rounded down; and the depth to use.
   */
  lemma ReportTells(e: Engine)
    requires Sane(e)
    ensures ParseReport(ReportBytes(ReportOf(e))).Some?
    ensures var view := ParseReport(ReportBytes(ReportOf(e))).value;
            var lost, total := e.packetsLost, e.packetsRecv + e.packetsLost;
            && view.ssrc == e.ssrc && view.highestSeq == e.lastSeq
            && (total > 0 ==> view.fractionLost * total <= 256 * lost < (view.fractionLost + 1) * total)
            && (total == 0 ==> view.fractionLost == 0)
            && (lost - view.totalLost) % 0x1_0000_0000 == 0
            && (e.jitter < 4294967296.0 ==> view.jitter as real <= e.jitter < view.jitter as real + 1.0)
            && view.recommended == DepthOf(lost, total)
  {
    hide Be32, ReadBe32, ReportBytes, ParseReport;
    var lost, total := e.packetsLost, e.packetsRecv + e.packetsLost;
    ReportRoundTrip(ReportOf(e));
    DepthThresholds(e);
    if total > 0 {
      FloorOfShare(lost, total);
    }
    assert lost == lost % 0x1_0000_0000 + 0x1_0000_0000 * (lost / 0x1_0000_0000);
  }

  /**
   * The feedback that leaves the engine is the feedback the sender acts on: a depth from 1 to 3,
   * never smaller for a larger share of losses.
   */
  lemma FeedbackArrives(e: Engine, worse: Engine)
    requires Sane(e) && Sane(worse)
    ensures ParseReport(ReportBytes(ReportOf(e))).Some?
    ensures var depth := ParseReport(ReportBytes(ReportOf(e))).value.recommended;
            && 1 <= depth <= 3 && depth == DepthFor(FractionLost(e))
            && (FractionLost(e) <= FractionLost(worse) ==>
                  depth <= ParseReport(ReportBytes(ReportOf(worse))).value.recommended)
  {
    ReportRoundTrip(ReportOf(e));
    ReportRoundTrip(ReportOf(worse));
  }

  // ---------------------------------------------------------------- jitter over a run of arrivals

  /** The engine after arrivals of these packet indices at these times. */
  function EngineAfter(ssrc: U32, js: seq<nat>, clock: seq<int>): Engine
    requires |clock| == |js|
  {
    if js == [] then NewEngine(ssrc)
    else
      var n := |js| - 1;
      ArrivalStep(EngineAfter(ssrc, js[..n], clock[..n]), Seq16(js[n]), Time32(js[n]), clock[n])
  }

  lemma {:induction false} EngineIsSane(ssrc: U32, js: seq<nat>, clock: seq<int>)
    requires |clock| == |js|
    ensures Sane(EngineAfter(ssrc, js, clock))
  {
    hide Seq16, Time32, ArrivalStep;
    if js == [] {
    } else {
      var n := |js| - 1;
      EngineIsSane(ssrc, js[..n], clock[..n]);
      ArrivalIsSane(EngineAfter(ssrc, js[..n], clock[..n]), Seq16(js[n]), Time32(js[n]), clock[n]);
    }
  }

  /** How much later than its timestamp packet j arrives, in milliseconds. */
  function Transit(j: nat, nowMs: int): int {
    nowMs - Time32(j) / 48
  }

  function Abs(x: int): nat {
    if x < 0 then -x else x
  }

  lemma LastTransitIs(ssrc: U32, js: seq<nat>, clock: seq<int>)
    requires |clock| == |js| > 0
    ensures EngineAfter(ssrc, js, clock).lastTransit == Transit(js[|js| - 1], clock[|js| - 1])
  {
  }

  /**
   * Jitter, from the arrivals alone: it is zero after the first one, and each further one moves it by a
   * sixteenth of the way towards the change of transit times since the arrival before. Only a transit
   * time of exactly zero is taken for "no arrival yet".
   */
  lemma JitterFollows(ssrc: U32, js: seq<nat>, clock: seq<int>)
    requires |clock| == |js| > 0
    ensures var n := |js| - 1;
            var before, jitter := EngineAfter(ssrc, js[..n], clock[..n]).jitter, EngineAfter(ssrc, js, clock).jitter;
            && (n == 0 ==> jitter == 0.0)
            && (n > 0 ==>
                  var last, previous := Transit(js[n], clock[n]), Transit(js[n - 1], clock[n - 1]);
                  if previous == 0 then jitter == before
                  else 16.0 * jitter == 15.0 * before + Abs(last - previous) as real)
  {
    hide Seq16, Time32, CountedGap;
    var n := |js| - 1;
    if n > 0 {
      EngineIsSane(ssrc, js[..n], clock[..n]);
      LastTransitIs(ssrc, js[..n], clock[..n]);
      ArrivalIsSane(EngineAfter(ssrc, js[..n], clock[..n]), Seq16(js[n]), Time32(js[n]), clock[n]);
    }
  }

  /** Neither the k-th arrival nor what the engine takes for one shows a change of transit times. */
  predicate SteadyAt(js: seq<nat>, clock: seq<int>, k: nat)
    requires 0 < k < |js| == |clock|
  {
    var last, previous := Transit(js[k], clock[k]), Transit(js[k - 1], clock[k - 1]);
    previous == 0 || last == previous
  }

  /** There is no jitter if and only if no transit time, once it is not zero, is followed by another. */
  lemma {:induction false} NoJitterExactly(ssrc: U32, js: seq<nat>, clock: seq<int>)
    requires |clock| == |js|
    ensures EngineAfter(ssrc, js, clock).jitter == 0.0 <==> forall k :: 0 < k < |js| ==> SteadyAt(js, clock, k)
  {
    hide Transit, ArrivalStep;
    if js == [] {
    } else {
      var n := |js| - 1;
      NoJitterExactly(ssrc, js[..n], clock[..n]);
      EngineIsSane(ssrc, js[..n], clock[..n]);
      JitterFollows(ssrc, js, clock);
      forall k | 0 < k < n
        ensures SteadyAt(js[..n], clock[..n], k) == SteadyAt(js, clock, k)
      {
      }
      if n > 0 {
        assert SteadyAt(js, clock, n) <==> Transit(js[n - 1], clock[n - 1]) == 0
                                           || Transit(js[n], clock[n]) == Transit(js[n - 1], clock[n - 1]);
      }
    }
  }

  /** Packets one after the other, arriving every 20 milliseconds. */
  predicate Paced(js: seq<nat>, clock: seq<int>) {
    && |clock| == |js|
    && forall k :: 0 < k < |js| ==> js[k] == js[k - 1] + 1 && clock[k] == clock[k - 1] + 20
  }

  /** The timestamp behind that of packet j starts again below 960. */
  predicate WrapsAfter(j: nat) {
    Time32(j) >= 0x1_0000_0000 - FRAME_SAMPLES
  }

  /** A timestamp wraps between two arrivals, the first one with a transit time other than zero. */
  predicate WrapSeen(js: seq<nat>, clock: seq<int>, k: nat)
    requires 0 < k < |js| == |clock|
  {
    WrapsAfter(js[k - 1]) && Transit(js[k - 1], clock[k - 1]) != 0
  }

  /** Twenty milliseconds later the transit time is the same, unless the timestamp wraps. */
  lemma PacedTransit(j: nat, nowMs: int)
    ensures !WrapsAfter(j) ==> Transit(j + 1, nowMs + 20) == Transit(j, nowMs)
    ensures WrapsAfter(j) ==> Transit(j + 1, nowMs + 20) - Transit(j, nowMs) >= 89478485
  {
    NextTime(j);
  }

  /**
   * What a timestamp wrap does: a stream that arrives in perfect pace has no jitter if and only if no
   * timestamp wraps on the way, or only where the transit time is zero.
   */
  lemma PacedStreamExactly(ssrc: U32, js: seq<nat>, clock: seq<int>)
    requires Paced(js, clock)
    ensures EngineAfter(ssrc, js, clock).jitter == 0.0
            <==> forall k :: 0 < k < |js| ==> !WrapSeen(js, clock, k)
  {
    hide EngineAfter, Transit, WrapsAfter;
    NoJitterExactly(ssrc, js, clock);
    forall k | 0 < k < |js|
      ensures SteadyAt(js, clock, k) <==> !WrapSeen(js, clock, k)
    {
      PacedTransit(js[k - 1], clock[k - 1]);
    }
  }

  // ---------------------------------------------------------------- counting losses

  /** The engine sees this gap as it is: no gap at all, or one below 30000 not directly after number 0. */
  predicate GapCounted(a: nat, b: nat) {
    b == a + 1 || (Seq16(a) != 0 && b - a < 30000)
  }

  lemma GapExactly(a: nat, b: nat)
    requires a < b
    ensures CountedGap(Seq16(a), Seq16(b)) <= b - a - 1
    ensures CountedGap(Seq16(a), Seq16(b)) == b - a - 1 <==> GapCounted(a, b)
  {
    DistOfIndices(a, b);
  }

  lemma FirstArrival(ssrc: U32, seqNum: U16, timestamp: U32, nowMs: int)
    ensures var e := ArrivalStep(NewEngine(ssrc), seqNum, timestamp, nowMs);
            e.packetsRecv == 1 && e.packetsLost == 0 && e.lastSeq == seqNum
  {
  }

  /**
   * The network loss count, exactly: over in-order arrivals the engine never counts more than the
   * packets missing between first and last, and it counts all of them if and only if every gap is
   * below 30000 and none directly follows a packet numbered 0.
   */
  lemma {:induction false} EngineCountsExactly(ssrc: U32, js: seq<nat>, clock: seq<int>)
    requires |clock| == |js| > 0 && forall a, b :: 0 <= a < b < |js| ==> js[a] < js[b]
    ensures var e, missing := EngineAfter(ssrc, js, clock), js[|js| - 1] + 1 - js[0] - |js|;
            && e.packetsRecv == |js| && e.lastSeq == Seq16(js[|js| - 1]) && Sane(e)
            && e.packetsLost <= missing
            && (e.packetsLost == missing <==> forall k :: 0 < k < |js| ==> GapCounted(js[k - 1], js[k]))
  {
    hide Seq16, Time32, GapCounted, Smoothed, CountedGap, Sane;
    var n := |js| - 1;
    EngineIsSane(ssrc, js, clock);
    if n == 0 {
      FirstArrival(ssrc, Seq16(js[0]), Time32(js[0]), clock[0]);
    } else {
      var front := js[..n];
      EngineCountsExactly(ssrc, front, clock[..n]);
      GapExactly(js[n - 1], js[n]);
      assert forall k :: 0 < k < n ==> GapCounted(front[k - 1], front[k]) == GapCounted(js[k - 1], js[k]);
    }
  }

  /** What a step from one packet to another counts: the distance modulo 2^16, less one, if it is below 30000. */
  function Counted(a: nat, b: nat): nat {
    var forward := (b - a) % 0x1_0000;
    if a % 0x1_0000 != 0 && 2 <= forward < 30000 then forward - 1 else 0
  }

  function AllCounted(js: seq<nat>): nat {
    if |js| <= 1 then 0 else AllCounted(js[..|js| - 1]) + Counted(js[|js| - 2], js[|js| - 1])
  }

  lemma CountedStep(a: nat, b: nat)
    ensures CountedGap(Seq16(a), Seq16(b)) == Counted(a, b)
  {
    DistOfIndices(a, b);
  }

  /** The network loss count for any arrivals whatsoever, wraps, repeats and steps back included. */
  lemma {:induction false} EngineCountsAlways(ssrc: U32, js: seq<nat>, clock: seq<int>)
    requires |clock| == |js| > 0
    ensures var e := EngineAfter(ssrc, js, clock);
            e.packetsLost == AllCounted(js) && e.packetsRecv == |js| && e.lastSeq == Seq16(js[|js| - 1])
  {
    hide Seq16, Time32, Smoothed, CountedGap, Counted;
    var n := |js| - 1;
    if n == 0 {
      FirstArrival(ssrc, Seq16(js[0]), Time32(js[0]), clock[0]);
    } else {
      EngineCountsAlways(ssrc, js[..n], clock[..n]);
      CountedStep(js[n - 1], js[n]);
    }
  }

  /** The packets that lie between two neighbouring arrivals, if the second one is ahead. */
  function JumpedOver(a: nat, b: nat): nat {
    if b > a then b - a - 1 else 0
  }

  function Jumps(js: seq<nat>): nat {
    if |js| <= 1 then 0 else Jumps(js[..|js| - 1]) + JumpedOver(js[|js| - 2], js[|js| - 1])
  }

  /** The engine sees this step as it is: a gap that it counts, or at most 35536 packets back. */
  predicate StepSeen(a: nat, b: nat) {
    if b > a then GapCounted(a, b) else a - b <= 35536
  }

  lemma StepExactly(a: nat, b: nat)
    requires StepSeen(a, b)
    ensures Counted(a, b) == JumpedOver(a, b)
  {
  }

  lemma {:induction false} CountsAreJumps(js: seq<nat>)
    requires forall k :: 0 < k < |js| ==> StepSeen(js[k - 1], js[k])
    ensures AllCounted(js) == Jumps(js)
  {
    hide StepSeen, Counted, JumpedOver;
    var n := |js| - 1;
    if n <= 0 {
    } else {
      CountsAreJumps(js[..n]);
      StepExactly(js[n - 1], js[n]);
    }
  }

  /**
   * The network loss count in any order: packets may come again, late and out of order, and every
   * step forward counts what it jumps over, whether it comes later or not. Nothing is ever taken back.
   */
  lemma EngineCountsJumps(ssrc: U32, js: seq<nat>, clock: seq<int>)
    requires |clock| == |js| > 0 && forall k :: 0 < k < |js| ==> StepSeen(js[k - 1], js[k])
    ensures EngineAfter(ssrc, js, clock).packetsLost == Jumps(js)
  {
    hide StepSeen, EngineAfter;
    EngineCountsAlways(ssrc, js, clock);
    CountsAreJumps(js);
  }

  /** Two packets count as lost although none was, and one that was lost does not count. */
  lemma MiscountedLosses(ssrc: U32, clock: seq<int>)
    requires |clock| >= 4
    ensures EngineAfter(ssrc, [1, 3, 2, 4], clock[..4]).packetsLost == 2
    ensures EngineAfter(ssrc, [65536, 65538], clock[..2]).packetsLost == 0
  {
    hide EngineAfter;
    var swapped, wrapped: seq<nat> := [1, 3, 2, 4], [65536, 65538];
    EngineCountsJumps(ssrc, swapped, clock[..4]);
    assert swapped[..3] == [1, 3, 2] && [1, 3, 2][..2] == [1, 3];
    assert Jumps([1, 3]) == 1 && Jumps([1, 3, 2]) == 1;
    EngineCountsExactly(ssrc, wrapped, clock[..2]);
  }
}
