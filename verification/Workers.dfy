/**
 * The four reading workers at the same time (rtp.go:98-102, 130-236). Reading a datagram, pushing it,
 * popping a result and decoding it are steps of their own; only each push and each pop holds the
 * receiver's lock. Packets are RED, so that what is popped is a copy. Recording the arrival and
 * reporting touch nothing of this and are left out here.
 */
module Workers {
  import opened Basics
  import opened RedPacketizer
  import opened RedReceiving
  import opened RedOutput
  import opened Recovery
  import opened AnyOrderRecovery
  import opened Wire
  import opened RtpIngest
  import opened ReadBuffers
  import opened HeardFrames

  /** What a worker has in hand: nothing, packet j read into its buffer, the pop loop, or a result. */
  datatype Job = Idle | HasRead(len: nat, j: nat) | Popping | Decoding(index: nat)

  /**
   * The receiver with all results popped so far, what each worker is at, the read buffers, and what
   * has been decoded: the indices of the results, in the order of decoding, and what was heard.
   */
  datatype Pool = Pool(
    session: Session, jobs: seq<Job>, memory: seq<Bytes>, decoded: seq<nat>, heard: seq<Heard>)

  datatype Step = ReadOne(w: nat, j: nat) | PushOne(w: nat) | PopOne(w: nat) | DecodeOne(w: nat)

  function NewPool(): Pool {
    Pool(NewSession(8), seq(READERS, _ => Idle), seq(READERS, _ => seq(READ_BUFFER, _ => 0)), [], [])
  }

  predicate Shaped(p: Pool) {
    |p.jobs| == READERS && MemoryFits(p.memory)
  }

  /** The worker is at this step; a packet is pushed only if none of its frames is taken for another. */
  predicate Ready(stream: Stream, wire: seq<Bytes>, p: Pool, step: Step) {
    && Shaped(p) && step.w < READERS
    && match step
       case ReadOne(w, j) => p.jobs[w].Idle? && j < |wire|
       case PushOne(w) =>
         && p.jobs[w].HasRead? && p.jobs[w].len <= READ_BUFFER
         && Enabled(stream, p.session, Deliver(p.jobs[w].j))
       case PopOne(w) => p.jobs[w].Popping?
       case DecodeOne(w) => p.jobs[w].Decoding? && p.jobs[w].index < |p.session.out|
  }

  function Do(stream: Stream, wire: seq<Bytes>, p: Pool, step: Step): Pool
    requires Ready(stream, wire, p, step)
  {
    match step
    case ReadOne(w, j) =>
      var data := Datagram(wire[j]);
      p.(memory := ReadInto(p.memory, w, data), jobs := p.jobs[w := HasRead(|data|, j)])
    case PushOne(w) =>
      var job := p.jobs[w];
      (match ParseRtp(p.memory[w][..job.len])
       case None => p.(jobs := p.jobs[w := Idle])
       case Some(m) =>
         if !IsAudio(m) then p.(jobs := p.jobs[w := Idle])
         else
           p.(session := p.session.(receiver := PushStep(p.session.receiver, m),
                                    first := if p.session.receiver.initialized then p.session.first else job.j),
              jobs := p.jobs[w := Popping]))
    case PopOne(w) =>
      var (r', result) := PopStep(p.session.receiver, false);
      if result.Nothing? then p.(jobs := p.jobs[w := Idle])
      else
        p.(session := p.session.(receiver := r', out := p.session.out + [result]),
           jobs := p.jobs[w := Decoding(|p.session.out|)])
    case DecodeOne(w) =>
      var index := p.jobs[w].index;
      p.(jobs := p.jobs[w := Popping],
         decoded := p.decoded + [index],
         heard := p.heard + [HeardOf(p.session.out[index])])
  }

  ghost predicate IsPoolRun(stream: Stream, wire: seq<Bytes>, run: seq<Pool>, steps: seq<Step>) {
    && |run| == |steps| + 1
    && run[0] == NewPool()
    && forall t :: 0 <= t < |steps| ==>
         Ready(stream, wire, run[t], steps[t]) && run[t + 1] == Do(stream, wire, run[t], steps[t])
  }

  /** The packets pushed in the first t steps, each with the turn it was pushed at. */
  ghost function Pushes(stream: Stream, wire: seq<Bytes>, run: seq<Pool>, steps: seq<Step>, t: nat): seq<Delivery>
    requires IsPoolRun(stream, wire, run, steps) && t <= |steps|
  {
    if t == 0 then []
    else
      var before := Pushes(stream, wire, run, steps, t - 1);
      assert Ready(stream, wire, run[t - 1], steps[t - 1]);
      LogAfter(stream, run[t - 1], steps[t - 1], before)
  }

  function LogAfter(stream: Stream, p: Pool, step: Step, log: seq<Delivery>): seq<Delivery>
    requires Shaped(p) && step.w < READERS
    requires step.PushOne? ==> p.jobs[step.w].HasRead? && p.jobs[step.w].j < |stream.reach|
  {
    if step.PushOne? then log + [DeliveryOf(stream, p.session, p.jobs[step.w].j)] else log
  }

  // ---------------------------------------------------------------- what every step keeps

  /** The datagrams of a stream of RED packets, whole. */
  ghost predicate OnTheWire(stream: Stream, wire: seq<Bytes>) {
    && WellSent(stream) && AllRed(stream) && |wire| == |stream.packets|
    && forall j :: 0 <= j < |wire| ==> ParseRtp(Datagram(wire[j])) == Some(stream.packets[j])
  }

  /** A datagram that waits to be pushed is still in its worker's buffer. */
  ghost predicate BuffersKept(stream: Stream, p: Pool) {
    Shaped(p) && forall w :: 0 <= w < READERS && p.jobs[w].HasRead? ==>
      && p.jobs[w].j < |stream.packets| && p.jobs[w].len <= READ_BUFFER
      && ParseRtp(p.memory[w][..p.jobs[w].len]) == Some(stream.packets[p.jobs[w].j])
  }

  function InHand(job: Job): nat {
    if job.Decoding? then 1 else 0
  }

  function AllInHand(jobs: seq<Job>): nat
    requires |jobs| == READERS
  {
    InHand(jobs[0]) + InHand(jobs[1]) + InHand(jobs[2]) + InHand(jobs[3])
  }

  /** Every popped result has been decoded once or is in the hands of one worker. */
  ghost predicate EachOnce(p: Pool) {
    && |p.jobs| == READERS
    && (forall k :: 0 <= k < |p.decoded| ==> p.decoded[k] < |p.session.out|)
    && (forall a, b :: 0 <= a < b < |p.decoded| ==> p.decoded[a] != p.decoded[b])
    && (forall w :: 0 <= w < READERS && p.jobs[w].Decoding? ==>
          p.jobs[w].index < |p.session.out| && p.jobs[w].index !in p.decoded)
    && (forall v, w :: 0 <= v < w < READERS && p.jobs[v].Decoding? && p.jobs[w].Decoding? ==>
          p.jobs[v].index != p.jobs[w].index)
    && |p.session.out| == |p.decoded| + AllInHand(p.jobs)
  }

  /** What was heard are the results decoded. */
  ghost predicate HeardThem(p: Pool) {
    && |p.heard| == |p.decoded|
    && forall k :: 0 <= k < |p.decoded| ==>
         p.decoded[k] < |p.session.out| && p.heard[k] == HeardOf(p.session.out[p.decoded[k]])
  }

  ghost predicate Keeps(stream: Stream, p: Pool, log: seq<Delivery>) {
    && BuffersKept(stream, p) && EachOnce(p) && HeardThem(p)
    && Faithful(stream.frames, p.session) && Matches(p.session, log)
  }

  lemma ReadKeeps(stream: Stream, wire: seq<Bytes>, p: Pool, w: nat, j: nat)
    requires OnTheWire(stream, wire) && BuffersKept(stream, p) && Ready(stream, wire, p, ReadOne(w, j))
    ensures BuffersKept(stream, Do(stream, wire, p, ReadOne(w, j)))
  {
    hide WellSent, AllRed, ParseRtp;
    var data := Datagram(wire[j]);
    assert ReadInto(p.memory, w, data)[w][..|data|] == data;
  }

  lemma PushedPacket(stream: Stream, wire: seq<Bytes>, p: Pool, w: nat)
    requires OnTheWire(stream, wire) && BuffersKept(stream, p) && Ready(stream, wire, p, PushOne(w))
    ensures var j := p.jobs[w].j;
            && j < |stream.reach| && CarriesAt(stream, j)
            && Do(stream, wire, p, PushOne(w))
               == p.(session := NetStep(stream, p.session, Deliver(j)), jobs := p.jobs[w := Popping])
  {
    hide CarriesAt, ParseRtp, PushStep;
    StreamPacketIsCopied(stream, p.jobs[w].j);
  }

  /** Worker w goes on to a job that is no packet waiting in its buffer. */
  lemma BuffersStay(stream: Stream, p: Pool, p': Pool, w: nat, job: Job)
    requires BuffersKept(stream, p) && w < READERS && !job.HasRead?
    requires p'.memory == p.memory && p'.jobs == p.jobs[w := job]
    ensures BuffersKept(stream, p')
  {
    hide ParseRtp;
  }

  lemma HandsAfter(jobs: seq<Job>, w: nat, job: Job)
    requires |jobs| == READERS && w < READERS
    ensures AllInHand(jobs[w := job]) + InHand(jobs[w]) == AllInHand(jobs) + InHand(job)
  {
  }

  /** Worker w goes from one job to another, neither of them the decoding of a result. */
  lemma ResultsStay(p: Pool, p': Pool, w: nat, job: Job)
    requires EachOnce(p) && HeardThem(p) && w < READERS && !p.jobs[w].Decoding? && !job.Decoding?
    requires p'.jobs == p.jobs[w := job] && p'.decoded == p.decoded && p'.heard == p.heard
    requires p'.session.out == p.session.out
    ensures EachOnce(p') && HeardThem(p')
  {
    hide AllInHand, HeardOf;
    HandsAfter(p.jobs, w, job);
  }

  lemma ResultPopped(p: Pool, p': Pool, w: nat, result: PopResult)
    requires EachOnce(p) && HeardThem(p) && w < READERS && !p.jobs[w].Decoding?
    requires p'.jobs == p.jobs[w := Decoding(|p.session.out|)] && p'.decoded == p.decoded && p'.heard == p.heard
    requires p'.session.out == p.session.out + [result]
    ensures EachOnce(p') && HeardThem(p')
  {
    hide AllInHand, HeardOf;
    HandsAfter(p.jobs, w, Decoding(|p.session.out|));
  }

  lemma ResultDecoded(p: Pool, p': Pool, w: nat)
    requires EachOnce(p) && HeardThem(p) && w < READERS && p.jobs[w].Decoding?
    requires p'.jobs == p.jobs[w := Popping] && p'.session == p.session
    requires p'.decoded == p.decoded + [p.jobs[w].index]
    requires p'.heard == p.heard + [HeardOf(p.session.out[p.jobs[w].index])]
    ensures EachOnce(p') && HeardThem(p')
  {
    hide AllInHand, HeardOf;
    HandsAfter(p.jobs, w, Popping);
  }

  lemma StepKeeps(stream: Stream, wire: seq<Bytes>, p: Pool, step: Step, log: seq<Delivery>)
    requires OnTheWire(stream, wire) && Ready(stream, wire, p, step) && Keeps(stream, p, log)
    ensures step.PushOne? ==> p.jobs[step.w].j < |stream.reach|
    ensures Keeps(stream, Do(stream, wire, p, step), LogAfter(stream, p, step, log))
  {
    hide CarriesAt, AllRed, ParseRtp, PushStep, PopStep, Faithful, Matches, BuffersKept, EachOnce, HeardThem, ReadInto;
    assert Shaped(p);
    var p', w := Do(stream, wire, p, step), step.w;
    match step
    case ReadOne(_, j) =>
      ReadKeeps(stream, wire, p, w, j);
      ResultsStay(p, p', w, p'.jobs[w]);
    case PushOne(_) =>
      PushedPacket(stream, wire, p, w);
      BuffersStay(stream, p, p', w, Popping);
      ResultsStay(p, p', w, Popping);
      DeliverIsFaithful(stream, p.session, p.jobs[w].j);
      DeliverMatches(stream, p.session, p.jobs[w].j, log);
    case PopOne(_) =>
      RequestIsFaithful(stream, p.session, false);
      RequestMatches(stream, p.session, false, log);
      BuffersStay(stream, p, p', w, p'.jobs[w]);
      var result := PopStep(p.session.receiver, false).1;
      if result.Nothing? {
        ResultsStay(p, p', w, Idle);
      } else {
        ResultPopped(p, p', w, result);
      }
    case DecodeOne(_) =>
      BuffersStay(stream, p, p', w, Popping);
      ResultDecoded(p, p', w);
  }

  lemma {:induction false} RunKeeps(stream: Stream, wire: seq<Bytes>, run: seq<Pool>, steps: seq<Step>, t: nat)
    requires OnTheWire(stream, wire) && IsPoolRun(stream, wire, run, steps) && t <= |steps|
    ensures Keeps(stream, run[t], Pushes(stream, wire, run, steps, t))
  {
    hide OnTheWire, Keeps, Do, LogAfter, Ready;
    if t == 0 {
      NothingYet(stream);
    } else {
      RunKeeps(stream, wire, run, steps, t - 1);
      assert Ready(stream, wire, run[t - 1], steps[t - 1]);
      assert run[t - 1 + 1] == Do(stream, wire, run[t - 1], steps[t - 1]);
      StepKeeps(stream, wire, run[t - 1], steps[t - 1], Pushes(stream, wire, run, steps, t - 1));
    }
  }

  lemma NothingYet(stream: Stream)
    ensures Keeps(stream, NewPool(), [])
  {
    NothingMatches(NewSession(8));
  }

  // ---------------------------------------------------------------- what is heard

  /**
   * Whatever the workers' steps do to each other's order: each popped result is decoded at most once,
   * at most four are still to be decoded, none once all workers are idle; and what is heard of the
   * result for turn i is frame i with its own bytes, if a packet carrying it was pushed before turn i
   * was over and at most 32768 turns ahead, and otherwise that it is concealed.
   */
  lemma EveryResultIsHeardOnce(stream: Stream, wire: seq<Bytes>, run: seq<Pool>, steps: seq<Step>)
    requires OnTheWire(stream, wire) && IsPoolRun(stream, wire, run, steps)
    ensures var p, log := run[|steps|], Pushes(stream, wire, run, steps, |steps|);
            && |p.heard| == |p.decoded| <= |p.session.out| <= |p.decoded| + READERS
            && (forall a, b :: 0 <= a < b < |p.decoded| ==> p.decoded[a] != p.decoded[b])
            && ((forall w :: 0 <= w < READERS ==> p.jobs[w].Idle?) ==> |p.decoded| == |p.session.out|)
            && forall k :: 0 <= k < |p.decoded| ==>
                 && p.decoded[k] < |p.session.out|
                 && var turn := p.session.first + p.decoded[k];
                    if Got(log, turn) then turn < |stream.frames| && p.heard[k] == Decoded(stream.frames[turn])
                    else p.heard[k] == Concealed
  {
    hide OnTheWire, Do, Ready, Pushes, BuffersKept, Faithful, Matches, Got, Says;
    RunKeeps(stream, wire, run, steps, |steps|);
    var p, log := run[|steps|], Pushes(stream, wire, run, steps, |steps|);
    MatchesSays(p.session, stream.frames, log);
    forall k | 0 <= k < |p.decoded|
      ensures p.decoded[k] < |p.session.out|
      ensures var turn := p.session.first + p.decoded[k];
              if Got(log, turn) then turn < |stream.frames| && p.heard[k] == Decoded(stream.frames[turn])
              else p.heard[k] == Concealed
    {
      var i := p.decoded[k];
      SaysHeard(p.session.out[i], stream.frames, p.session.first + i, Got(log, p.session.first + i));
    }
  }

  lemma SaysHeard(result: PopResult, frames: seq<Bytes>, i: nat, there: bool)
    requires Says(result, frames, i, there)
    ensures if there then i < |frames| && HeardOf(result) == Decoded(frames[i]) else HeardOf(result) == Concealed
  {
  }

  // ---------------------------------------------------------------- nothing is left lying

  predicate Busy(job: Job) {
    job.Popping? || job.Decoding?
  }

  /** Unless some worker is still in its pop loop, nothing can be popped. */
  ghost predicate Quiet(p: Pool) {
    && |p.jobs| == READERS && p.session.receiver.maxBufferSize == 8
    && ((exists w :: 0 <= w < READERS && Busy(p.jobs[w])) || PopStep(p.session.receiver, false).1.Nothing?)
  }

  lemma StepQuiet(stream: Stream, wire: seq<Bytes>, p: Pool, step: Step)
    requires OnTheWire(stream, wire) && Ready(stream, wire, p, step) && BuffersKept(stream, p) && Quiet(p)
    ensures Quiet(Do(stream, wire, p, step))
  {
    hide CarriesAt, ParseRtp, PushStep, OnTheWire, Enabled, ReadInto;
    var p', w := Do(stream, wire, p, step), step.w;
    match step
    case ReadOne(_, _) =>
      forall v | 0 <= v < READERS && Busy(p.jobs[v])
        ensures Busy(p'.jobs[v])
      {
      }
    case PushOne(_) =>
      PushedPacket(stream, wire, p, w);
      PushKeepsKeys(p.session.receiver, stream.packets[p.jobs[w].j]);
      assert Busy(p'.jobs[w]);
    case PopOne(_) =>
      if !PopStep(p.session.receiver, false).1.Nothing? {
        assert Busy(p'.jobs[w]);
      }
    case DecodeOne(_) =>
      assert Busy(p'.jobs[w]);
  }

  lemma {:induction false} RunQuiet(stream: Stream, wire: seq<Bytes>, run: seq<Pool>, steps: seq<Step>, t: nat)
    requires OnTheWire(stream, wire) && IsPoolRun(stream, wire, run, steps) && t <= |steps|
    ensures Quiet(run[t])
  {
    hide OnTheWire, Keeps, Do, Ready, Quiet;
    if t == 0 {
      NewIsQuiet();
    } else {
      RunQuiet(stream, wire, run, steps, t - 1);
      RunKeeps(stream, wire, run, steps, t - 1);
      assert Ready(stream, wire, run[t - 1], steps[t - 1]);
      assert run[t - 1 + 1] == Do(stream, wire, run[t - 1], steps[t - 1]);
      KeepsBuffers(stream, run[t - 1], Pushes(stream, wire, run, steps, t - 1));
      StepQuiet(stream, wire, run[t - 1], steps[t - 1]);
    }
  }

  lemma NewIsQuiet()
    ensures Quiet(NewPool())
  {
  }

  lemma KeepsBuffers(stream: Stream, p: Pool, log: seq<Delivery>)
    requires Keeps(stream, p, log)
    ensures BuffersKept(stream, p)
  {
  }

  /**
   * The workers leave nothing behind: whenever none of them is in its pop loop, however their steps
   * overlapped, the due frame is missing, fewer than eight frames wait, and all results handed out
   * have been decoded.
   */
  lemma NothingIsLeft(stream: Stream, wire: seq<Bytes>, run: seq<Pool>, steps: seq<Step>, t: nat)
    requires OnTheWire(stream, wire) && IsPoolRun(stream, wire, run, steps) && t <= |steps|
    requires |run[t].jobs| == READERS && forall w :: 0 <= w < READERS ==> !Busy(run[t].jobs[w])
    ensures var r := run[t].session.receiver;
            r.initialized ==> r.nextSeq !in r.buffer && |r.buffer| < 8
    ensures |run[t].decoded| == |run[t].session.out|
  {
    hide OnTheWire, IsPoolRun, BuffersKept, Faithful, Matches, HeardThem;
    RunQuiet(stream, wire, run, steps, t);
    RunKeeps(stream, wire, run, steps, t);
  }

  // ---------------------------------------------------------------- what overlapping steps can change

  /** A worker that is overtaken before its push: the frame of the packet it read first is never played. */
  lemma FrameIsOvertaken(stream: Stream, wire: seq<Bytes>) returns (run: seq<Pool>, steps: seq<Step>)
    requires OnTheWire(stream, wire) && |wire| >= 2
    ensures IsPoolRun(stream, wire, run, steps)
    ensures steps == [ReadOne(0, 0), ReadOne(1, 1), PushOne(1), PushOne(0)]
    ensures run[4].session.receiver.initialized && run[4].session.first == 1
  {
    hide ParseRtp, PushStep, CarriesAt, BuffersKept, ReadInto;
    steps := [ReadOne(0, 0), ReadOne(1, 1), PushOne(1), PushOne(0)];
    var p0 := NewPool();
    assert BuffersKept(stream, p0) by { NothingYet(stream); }
    var p1 := Do(stream, wire, p0, steps[0]);
    ReadKeeps(stream, wire, p0, 0, 0);
    var p2 := Do(stream, wire, p1, steps[1]);
    ReadKeeps(stream, wire, p1, 1, 1);
    PushedPacket(stream, wire, p2, 1);
    var p3 := Do(stream, wire, p2, steps[2]);
    BuffersStay(stream, p2, p3, 1, Popping);
    PushKeepsKeys(p2.session.receiver, stream.packets[1]);
    FirstReachesNowhere(stream);
    PushedPacket(stream, wire, p3, 0);
    var p4 := Do(stream, wire, p3, steps[3]);
    PushKeepsKeys(p3.session.receiver, stream.packets[0]);
    run := [p0, p1, p2, p3, p4];
  }

  lemma FirstReachesNowhere(stream: Stream)
    requires WellSent(stream) && |stream.packets| > 0
    ensures Oldest(stream, 0) == 0
  {
    assert CarriesAt(stream, 0);
  }

  /**
   * Two workers that pop in turn and decode the other way round: frames 0 and 1 are both heard, frame 1
   * first.
   */
  lemma FramesAreSwapped(stream: Stream, wire: seq<Bytes>) returns (run: seq<Pool>, steps: seq<Step>)
    requires OnTheWire(stream, wire) && |wire| >= 2
    ensures IsPoolRun(stream, wire, run, steps) && |steps| == 8
    ensures run[8].session.first == 0 && run[8].decoded == [1, 0]
    ensures run[8].heard == [Decoded(stream.frames[1]), Decoded(stream.frames[0])]
  {
    hide ParseRtp, PushStep, PopStep, CarriesAt, BuffersKept, ReadInto, Linked, Gains, SafeAt;
    steps := [ReadOne(0, 0), ReadOne(1, 1), PushOne(0), PushOne(1), PopOne(0), PopOne(1), DecodeOne(1), DecodeOne(0)];
    var p0 := NewPool();
    assert BuffersKept(stream, p0) by { NothingYet(stream); }
    var p1 := Do(stream, wire, p0, steps[0]);
    ReadKeeps(stream, wire, p0, 0, 0);
    var p2 := Do(stream, wire, p1, steps[1]);
    ReadKeeps(stream, wire, p1, 1, 1);
    PushedPacket(stream, wire, p2, 0);
    var p3 := Do(stream, wire, p2, steps[2]);
    BuffersStay(stream, p2, p3, 0, Popping);
    var r1 := BothArePopped(stream);
    PushedPacket(stream, wire, p3, 1);
    var p4 := Do(stream, wire, p3, steps[3]);
    var p5 := Do(stream, wire, p4, steps[4]);
    var p6 := Do(stream, wire, p5, steps[5]);
    var p7 := Do(stream, wire, p6, steps[6]);
    var p8 := Do(stream, wire, p7, steps[7]);
    run := [p0, p1, p2, p3, p4, p5, p6, p7, p8];
  }

  /** Packets 0 and 1 pushed in order, and two frames popped. */
  lemma BothArePopped(stream: Stream) returns (r: Receiver)
    requires WellSent(stream) && AllRed(stream) && |stream.packets| >= 2
    ensures r == PushStep(NewReceiver(8), stream.packets[0]) && r.initialized
    ensures Oldest(stream, 1) >= 0 && forall i :: Oldest(stream, 1) <= i <= 1 ==> SafeAt(0, i)
    ensures var (r1, first) := PopStep(PushStep(r, stream.packets[1]), false);
            && first == Played(FramePacket(stream.frames, 0))
            && PopStep(r1, false).1 == Played(FramePacket(stream.frames, 1))
  {
    hide Carries, PushStep, SafeAt, Linked, Gains, Seq16;
    r := PushStep(NewReceiver(8), stream.packets[0]);
    assert CarriesAt(stream, 0) && CarriesAt(stream, 1);
    NearIsSafe(0, 0, 1);
    PushEffect(NewReceiver(8), stream.packets[0], stream.frames, 0, 0, 0);
    LinkedIsInitialized(r, stream.frames, 0);
    PushEffect(r, stream.packets[1], stream.frames, 0, Oldest(stream, 1), 1);
    TwoAreHeld(NewReceiver(8), r, PushStep(r, stream.packets[1]), Oldest(stream, 1));
    TwoPops(PushStep(r, stream.packets[1]), stream.frames);
  }

  lemma TwoAreHeld(r: Receiver, r1: Receiver, r2: Receiver, lo: int)
    requires Gains(r, r1, 0, 0, 0) && Gains(r1, r2, 0, lo, 1) && lo <= 1
    ensures Has(r2, 0) && Has(r2, 1)
  {
    hide Seq16;
    assert Has(r1, 0);
  }

  lemma TwoPops(r: Receiver, frames: seq<Bytes>)
    requires Linked(r, frames, 0) && Has(r, 0) && Has(r, 1)
    ensures PopStep(r, false).1 == Played(FramePacket(frames, 0))
    ensures PopStep(PopStep(r, false).0, false).1 == Played(FramePacket(frames, 1))
  {
    hide FramePacket;
    assert Dist(0, 0) == 0 && Dist(0, 1) == 1;
  }

  /** While no worker pops before the one before it has decoded, results are decoded in their order. */
  ghost predicate OneAtATime(run: seq<Pool>, steps: seq<Step>) {
    && |run| == |steps| + 1
    && forall t :: 0 <= t < |steps| && steps[t].PopOne? ==> NoneInHand(run[t])
  }

  predicate NoneInHand(p: Pool) {
    forall w :: 0 <= w < |p.jobs| ==> !p.jobs[w].Decoding?
  }

  predicate InSequence(p: Pool) {
    && (forall k :: 0 <= k < |p.decoded| ==> p.decoded[k] == k)
    && forall w :: 0 <= w < |p.jobs| && p.jobs[w].Decoding? ==> p.jobs[w].index == |p.decoded|
  }

  lemma StaysInSequence(stream: Stream, wire: seq<Bytes>, p: Pool, step: Step)
    requires Ready(stream, wire, p, step) && EachOnce(p) && InSequence(p)
    requires step.PopOne? ==> NoneInHand(p)
    ensures InSequence(Do(stream, wire, p, step))
  {
    hide PopStep, PushStep, ParseRtp, ReadInto, Enabled, HeardOf;
    if step.PopOne? {
      assert AllInHand(p.jobs) == 0;
    }
  }

  lemma {:induction false} DecodedInOrder(
      stream: Stream, wire: seq<Bytes>, run: seq<Pool>, steps: seq<Step>, t: nat)
    requires OnTheWire(stream, wire) && IsPoolRun(stream, wire, run, steps) && t <= |steps|
    requires OneAtATime(run, steps)
    ensures forall k :: 0 <= k < |run[t].decoded| ==> run[t].decoded[k] == k
    ensures InSequence(run[t])
  {
    hide OnTheWire, BuffersKept, Faithful, Matches, EachOnce, HeardThem, Do, Ready, NoneInHand;
    if t == 0 {
    } else {
      DecodedInOrder(stream, wire, run, steps, t - 1);
      RunKeeps(stream, wire, run, steps, t - 1);
      assert run[t - 1 + 1] == Do(stream, wire, run[t - 1], steps[t - 1]);
      StaysInSequence(stream, wire, run[t - 1], steps[t - 1]);
    }
  }
}
