/**
 * Both directions of the closed loop told by its actions alone: which packets the adapter recorded,
 * what its reports said, and which depths the sender packed with.
 */
module FeedbackLoop {
  import opened Basics
  import opened RedPacketizer
  import opened DepthHistory
  import opened RedCodec
  import opened RedReceiving
  import opened RedOutput
  import opened Recovery
  import opened Wire
  import opened Feedback
  import opened RtpIngest
  import opened ClosedLoop

  // ---------------------------------------------------------------- the actions alone

  /** The packets that arrived. */
  function Arrived(actions: seq<Action>): seq<nat> {
    if actions == [] then []
    else
      var front, last := actions[..|actions| - 1], actions[|actions| - 1];
      Arrived(front) + if last.GetPacket? then [last.j] else []
  }

  /** When they arrived. */
  function Clock(actions: seq<Action>): (clock: seq<int>)
    ensures |clock| == |Arrived(actions)|
  {
    if actions == [] then []
    else
      var front, last := actions[..|actions| - 1], actions[|actions| - 1];
      Clock(front) + if last.GetPacket? then [last.nowMs] else []
  }

  /** The engine that has recorded these arrivals and nothing else. */
  function Recorded(actions: seq<Action>): Engine {
    EngineAfter(0x1234_5678, Arrived(actions), Clock(actions))
  }

  /** The engines behind the reports: a packet whose number is a multiple of 50 triggers one. */
  function Reported(actions: seq<Action>): seq<Engine> {
    if actions == [] then []
    else
      var front, last := actions[..|actions| - 1], actions[|actions| - 1];
      Reported(front) + if last.GetPacket? && Seq16(last.j) % 50 == 0 then [Recorded(actions)] else []
  }

  /** The depth that an engine's counts call for. */
  function DepthAsked(e: Engine): nat {
    DepthOf(e.packetsLost, e.packetsRecv + e.packetsLost)
  }

  /** What an action does to the packetizer: a frame is packed, or a heard report sets the depth it asks for. */
  function OpsOf(a: Action, reported: seq<Engine>): seq<PackerOp> {
    match a
    case SendFrame(payload) => [DoPack(payload)]
    case GetPacket(_, _) => []
    case HearReport(k) => if k < |reported| then [DoSetDepth(DepthAsked(reported[k]))] else []
  }

  function SenderOps(actions: seq<Action>): seq<PackerOp> {
    if actions == [] then []
    else
      var front := actions[..|actions| - 1];
      SenderOps(front) + OpsOf(actions[|actions| - 1], Reported(front))
  }

  // ---------------------------------------------------------------- what the system does

  ghost predicate IsReport(bytes: Bytes, e: Engine) {
    Sane(e) && bytes == ReportBytes(ReportOf(e))
  }

  /** The system is where these actions lead, told by themselves. */
  ghost predicate Follows(sys: System, actions: seq<Action>) {
    && sys.packer == RunPacker(2, SenderOps(actions)).packer
    && sys.stream == Sent(2, SenderOps(actions))
    && sys.adapter.engine.(recommended := 2) == Recorded(actions)
    && |sys.reports| == |Reported(actions)|
    && forall k :: 0 <= k < |sys.reports| ==> IsReport(sys.reports[k], Reported(actions)[k])
  }

  lemma OneActionMore(actions: seq<Action>, a: Action)
    ensures var all := actions + [a];
            && SenderOps(all) == SenderOps(actions) + OpsOf(a, Reported(actions))
            && (if a.GetPacket? then
                  && Arrived(all) == Arrived(actions) + [a.j] && Clock(all) == Clock(actions) + [a.nowMs]
                  && Reported(all) == Reported(actions) + if Seq16(a.j) % 50 == 0 then [Recorded(all)] else []
                else
                  && Arrived(all) == Arrived(actions) && Clock(all) == Clock(actions)
                  && Reported(all) == Reported(actions))
  {
    hide Recorded, OpsOf;
    assert (actions + [a])[..|actions|] == actions;
  }

  lemma SendFollows(sys: System, actions: seq<Action>, payload: Bytes)
    requires Follows(sys, actions)
    ensures Follows(SendStep(sys, payload), actions + [SendFrame(payload)])
  {
    hide SenderOps, Reported, Arrived, Clock, Sent, AfterPack, PackedPacket, EngineAfter, IsReport, EncodeRtp;
    OneActionMore(actions, SendFrame(payload));
    SentOneMore(2, SenderOps(actions), payload);
  }

  lemma HearFollows(sys: System, actions: seq<Action>, k: nat)
    requires Follows(sys, actions) && k < |sys.reports|
    ensures Follows(HearStep(sys, k), actions + [HearReport(k)])
  {
    hide SenderOps, Reported, Arrived, Clock, Sent, SetDepthStep, EngineAfter, ParseReport, ReportBytes, ReportOf;
    OneActionMore(actions, HearReport(k));
    var e := Reported(actions)[k];
    assert IsReport(sys.reports[k], e);
    ReportTells(e);
    SentWithDepth(2, SenderOps(actions), DepthAsked(e));
  }

  /** Recording one more arrival, on the engine that remembers its last recommendation and on the one that does not. */
  lemma RecordOneMore(sys: System, actions: seq<Action>, j: nat, nowMs: int)
    requires sys.adapter.engine.(recommended := 2) == Recorded(actions)
    ensures var all := actions + [GetPacket(j, nowMs)];
            ArrivalStep(sys.adapter.engine, Seq16(j), Time32(j), nowMs).(recommended := 2) == Recorded(all)
  {
    hide Seq16, Time32, CountedGap;
    var all := actions + [GetPacket(j, nowMs)];
    OneActionMore(actions, GetPacket(j, nowMs));
    var js, clock := Arrived(all), Clock(all);
    assert js[..|js| - 1] == Arrived(actions) && clock[..|js| - 1] == Clock(actions);
  }

  lemma ReportOfRecorded(e: Engine, seqNum: U16)
    requires Sane(e)
    ensures var (e', report) := AfterReport(e, seqNum);
            && e'.(recommended := 2) == e.(recommended := 2)
            && (report.Some? <==> seqNum % 50 == 0)
            && (report.Some? ==> IsReport(report.value, e.(recommended := 2)))
  {
    hide ReportBytes;
  }

  /** Of an arrival only the engine and the report matter here. */
  lemma ArriveReports(sys: System, j: nat, nowMs: int)
    requires Invariant(sys) && Possible(sys, GetPacket(j, nowMs))
    ensures var e := ArrivalStep(sys.adapter.engine, Seq16(j), Time32(j), nowMs);
            && Sane(e)
            && var (e', report) := AfterReport(e, Seq16(j));
               var sys' := ArriveStep(sys, j, nowMs);
            && sys'.packer == sys.packer && sys'.stream == sys.stream && sys'.adapter.engine == e'
            && sys'.reports == sys.reports + if report.Some? then [report.value] else []
  {
    hide SenderOk, WireOk, Faithful, AsksWell, WellSent, ArrivalStep, AfterReport, ArriveStep, Drain, PushStep, Unpack;
    ArrivalIsDelivery(sys, j, nowMs);
    ArrivalIsSane(sys.adapter.engine, Seq16(j), Time32(j), nowMs);
  }

  lemma ArriveFollows(sys: System, actions: seq<Action>, j: nat, nowMs: int)
    requires Invariant(sys) && Possible(sys, GetPacket(j, nowMs)) && Follows(sys, actions)
    ensures Follows(ArriveStep(sys, j, nowMs), actions + [GetPacket(j, nowMs)])
  {
    hide SenderOps, Reported, Arrived, Clock, Recorded, Sent, RunPacker, IsReport, Invariant, Possible, ArriveStep,
         ArrivalStep, AfterReport, Seq16, Time32;
    var a := GetPacket(j, nowMs);
    OneActionMore(actions, a);
    assert SenderOps(actions) + [] == SenderOps(actions);
    ArriveReports(sys, j, nowMs);
    RecordOneMore(sys, actions, j, nowMs);
    ReportOfRecorded(ArrivalStep(sys.adapter.engine, Seq16(j), Time32(j), nowMs), Seq16(j));
  }

  // ---------------------------------------------------------------- every run

  lemma StartFollows()
    ensures Follows(Start(), [])
  {
  }

  /**
   * The loop is told by its actions. At every moment of every run, packetizer and sent stream are
   * those of a packetizer that packs the frames and takes up the depths its reports asked for; the
   * adapter's engine has recorded exactly the arrivals so far; and a report was made for every arrival
   * whose number is a multiple of 50, for no other, from what was recorded up to then.
   */
  lemma {:induction false} LoopFollows(run: seq<System>, actions: seq<Action>, t: nat)
    requires IsRun(run, actions) && t <= |actions|
    ensures Follows(run[t], actions[..t])
  {
    hide Follows, Invariant, Possible, ArriveStep, SendStep, HearStep;
    if t == 0 {
      StartFollows();
    } else {
      LoopFollows(run, actions, t - 1);
      RunKeeps(run, actions, t - 1);
      var sys, a, before := run[t - 1], actions[t - 1], actions[..t - 1];
      assert Possible(sys, a) && run[t - 1 + 1] == ClosedLoop.Next(sys, a);
      assert actions[..t] == before + [a];
      match a
      case SendFrame(payload) => SendFollows(sys, before, payload);
      case GetPacket(j, nowMs) => ArriveFollows(sys, before, j, nowMs);
      case HearReport(k) =>
        PossibleMeans(sys, a);
        HearFollows(sys, before, k);
    }
  }

  /** When report k was made, and what its counts are in terms of the arrivals until then. */
  lemma {:induction false} ReportedWhen(actions: seq<Action>, k: nat) returns (m: nat)
    requires k < |Reported(actions)|
    ensures 0 < m <= |actions| && actions[m - 1].GetPacket? && Seq16(actions[m - 1].j) % 50 == 0
    ensures var e, js := Reported(actions)[k], Arrived(actions[..m]);
            e == Recorded(actions[..m]) && e.packetsLost == AllCounted(js) && e.packetsRecv == |js|
  {
    hide Recorded, AllCounted, Seq16;
    m := |actions|;
    var front := actions[..m - 1];
    if k < |Reported(front)| {
      m := ReportedWhen(front, k);
      assert front[..m] == actions[..m];
    } else {
      assert actions[..m] == actions;
      RecordedCounts(actions);
    }
  }

  lemma RecordedCounts(actions: seq<Action>)
    requires Arrived(actions) != []
    ensures Recorded(actions).packetsLost == AllCounted(Arrived(actions))
    ensures Recorded(actions).packetsRecv == |Arrived(actions)|
  {
    EngineCountsAlways(0x1234_5678, Arrived(actions), Clock(actions));
  }

  /** The engine behind the report heard last. */
  function LastHeard(actions: seq<Action>): Option<Engine> {
    if actions == [] then None
    else
      var front, last := actions[..|actions| - 1], actions[|actions| - 1];
      if last.HearReport? && last.k < |Reported(front)| then Some(Reported(front)[last.k]) else LastHeard(front)
  }

  /** An action's effect on the depth: only hearing a report that was made sets one. */
  lemma DepthOneMore(ops: seq<PackerOp>, a: Action, reported: seq<Engine>)
    ensures DepthAfter(2, ops + OpsOf(a, reported))
            == if a.HearReport? && a.k < |reported| then DepthAsked(reported[a.k]) else DepthAfter(2, ops)
  {
    hide DepthAsked;
    var more := OpsOf(a, reported);
    if more == [] {
      assert ops + more == ops;
    } else {
      assert (ops + more)[..|ops|] == ops;
    }
  }

  lemma {:induction false} DepthHeard(actions: seq<Action>)
    ensures DepthAfter(2, SenderOps(actions))
            == if LastHeard(actions).None? then 2 else DepthAsked(LastHeard(actions).value)
  {
    hide DepthAsked, Reported, DepthAfter, OpsOf;
    if actions == [] {
      NoDepthYet();
    } else {
      var front, last := actions[..|actions| - 1], actions[|actions| - 1];
      DepthHeard(front);
      DepthOneMore(SenderOps(front), last, Reported(front));
    }
  }

  lemma NoDepthYet()
    ensures DepthAfter(2, []) == 2
  {
  }

  /**
   * The sender does what it is told: its depth is 2 until it hears a report; after that, of all packets
   * recorded when the report heard last was made, received or counted as lost, more than 15 in 100 lost
   * make the depth 3, fewer than 5 in 100 make it 1, and anything between 2.
   */
  lemma SenderFollows(run: seq<System>, actions: seq<Action>, t: nat)
    requires IsRun(run, actions) && t <= |actions|
    ensures var depth := run[t].packer.depth;
            match LastHeard(actions[..t])
            case None => depth == 2
            case Some(e) =>
              var lost, total := e.packetsLost, e.packetsLost + e.packetsRecv;
              && (depth == 3 <==> 100 * lost > 15 * total)
              && (depth == 1 <==> total == 0 || 100 * lost < 5 * total)
              && 1 <= depth <= 3
  {
    hide IsRun, SenderOps, LastHeard, Held, RunPacker;
    LoopFollows(run, actions, t);
    HistoryIsWhatIsHeld(2, SenderOps(actions[..t]));
    DepthHeard(actions[..t]);
  }

  lemma StreamIsSent(run: seq<System>, actions: seq<Action>, t: nat)
    requires IsRun(run, actions) && t <= |actions|
    ensures run[t].stream == Sent(2, SenderOps(actions[..t]))
  {
    hide SenderOps, Reported, Recorded, RunPacker;
    LoopFollows(run, actions, t);
  }

  lemma FramesAreCounted(ops: seq<PackerOp>)
    ensures |Sent(2, ops).frames| == PackedAfter(ops)
  {
    hide RunPacker, Held, DepthAfter;
    HistoryIsWhatIsHeld(2, ops);
  }

  /**
   * Which frames a packet of the loop repeats, exactly: those that always lay within the depth in force
   * since they were packed.
   */
  lemma LoopRepeatsExactly(run: seq<System>, actions: seq<Action>, t: nat, i: nat)
    requires IsRun(run, actions) && t < |actions| && actions[t].SendFrame?
    ensures var s, j := run[t + 1].stream, |run[t].stream.frames|;
            |s.reach| == j + 1 && (i < j ==> (Oldest(s, j) <= i <==> Held(2, SenderOps(actions[..t]), i)))
  {
    hide Held, Sent, IsRun, SenderOps, PackedAfter, Oldest, Recorded;
    var ops, payload := SenderOps(actions[..t]), actions[t].payload;
    StreamIsSent(run, actions, t);
    StreamIsSent(run, actions, t + 1);
    OneActionMore(actions[..t], actions[t]);
    assert actions[..t + 1] == actions[..t] + [actions[t]];
    PacketRepeatsExactly(2, ops, payload, i);
    FramesAreCounted(ops);
  }

  /** Every packet but the first repeats at least the frame before, and so will the next one. */
  ghost predicate Repeats(packer: Packer, stream: Stream) {
    && |stream.reach| == |stream.frames|
    && (stream.frames != [] ==> packer.history != [])
    && forall j :: 1 <= j < |stream.reach| ==> stream.reach[j] >= 1
  }

  lemma SendRepeats(packer: Packer, stream: Stream, payload: Bytes)
    requires Repeats(packer, stream) && packer.depth >= 1
    ensures Repeats(AfterPack(packer, payload), Extend(stream, packer, payload))
  {
    hide PackedPacket;
  }

  /** The protection never falls away: whatever reports are heard, every packet repeats the frame before. */
  lemma {:induction false} EveryPacketRepeats(run: seq<System>, actions: seq<Action>, t: nat)
    requires IsRun(run, actions) && t <= |actions|
    ensures Repeats(run[t].packer, run[t].stream)
    ensures forall j :: 1 <= j < |run[t].stream.reach| ==> Oldest(run[t].stream, j) <= j - 1
  {
    hide Possible, ArriveStep, AfterPack, Extend, ParseReport, EncodeRtp, Faithful, WireOk, WellSent, Tracks;
    if t == 0 {
    } else {
      EveryPacketRepeats(run, actions, t - 1);
      RunKeeps(run, actions, t - 1);
      var sys, a := run[t - 1], actions[t - 1];
      assert Possible(sys, a) && run[t - 1 + 1] == ClosedLoop.Next(sys, a);
      match a
      case SendFrame(payload) => SendRepeats(sys.packer, sys.stream, payload);
      case GetPacket(j, nowMs) => ArriveReports(sys, j, nowMs);
      case HearReport(k) =>
        PossibleMeans(sys, a);
        assert AsksWell(sys.reports[k]);
    }
  }
}
