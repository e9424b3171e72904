/** What comes out of the recovery buffer, over arbitrary runs and when it is drained. */
module RedOutput {
  import opened Basics
  import opened RedCodec
  import opened RedReceiving

  // ---------------------------------------------------------------- runs

  datatype Event = Arrive(packet: MediaPacket) | Ask(force: bool)

  /**
   * A receiver since its last reset, with everything it handed out, the sequence number it started
   * at, how many frames entered its buffer under a key that was not there, and how many packets came.
   */
  datatype Run = Run(receiver: Receiver, out: seq<PopResult>, first: U16, entered: nat, arrived: nat)

  function Handle(run: Run, e: Event): Run {
    match e
    case Arrive(packet) =>
      var r' := PushStep(run.receiver, packet);
      run.(receiver := r',
           first := if run.receiver.initialized then run.first else packet.seqNum,
           entered := run.entered + |r'.buffer.Keys - run.receiver.buffer.Keys|,
           arrived := run.arrived + 1)
    case Ask(force) =>
      var (r', result) := PopStep(run.receiver, force);
      run.(receiver := r', out := if result.Nothing? then run.out else run.out + [result])
  }

  function RunEvents(maxBufferSize: int, events: seq<Event>): Run {
    if events == [] then Run(NewReceiver(maxBufferSize), [], 0, 0, 0)
    else Handle(RunEvents(maxBufferSize, events[..|events| - 1]), events[|events| - 1])
  }

  function NumberOf(result: PopResult): U16
    requires !result.Nothing?
  {
    if result.Played? then result.packet.seqNum else result.seqNum
  }

  function CountPlayed(out: seq<PopResult>): nat {
    if out == [] then 0
    else CountPlayed(out[..|out| - 1]) + if out[|out| - 1].Played? then 1 else 0
  }

  /** Results carry consecutive numbers. */
  ghost predicate Numbered(run: Run) {
    && Sound(run.receiver)
    && (!run.receiver.initialized ==> run.out == [])
    && (run.receiver.initialized ==> run.receiver.nextSeq == Seq16(run.first + |run.out|))
    && (forall m :: 0 <= m < |run.out| ==>
          !run.out[m].Nothing? && NumberOf(run.out[m]) == Seq16(run.first + m))
  }

  /** The counters are true, and no frame enters or leaves unnoticed. */
  ghost predicate Counted(run: Run) {
    && run.receiver.received == run.arrived
    && run.receiver.lost == |run.out| - CountPlayed(run.out)
    && run.entered == CountPlayed(run.out) + |run.receiver.buffer|
  }

  lemma {:induction false} PushBlocksKeepsKeys(r: Receiver, packet: MediaPacket, blocks: seq<RedBlock>)
    ensures r.buffer.Keys <= PushBlocks(r, packet, blocks).buffer.Keys
    ensures PushBlocks(r, packet, blocks).nextSeq == r.nextSeq && PushBlocks(r, packet, blocks).lost == r.lost
    ensures PushBlocks(r, packet, blocks).maxBufferSize == r.maxBufferSize
    ensures PushBlocks(r, packet, blocks).received == r.received
    decreases |blocks|
  {
    if blocks == [] {
    } else {
      PushBlocksKeepsKeys(PushBlock(r, packet, blocks[0]), packet, blocks[1..]);
    }
  }

  lemma PushKeepsKeys(r: Receiver, packet: MediaPacket)
    ensures r.buffer.Keys <= PushStep(r, packet).buffer.Keys
    ensures PushStep(r, packet).nextSeq == Admit(r, packet.seqNum).nextSeq && PushStep(r, packet).lost == r.lost
    ensures PushStep(r, packet).initialized && PushStep(r, packet).maxBufferSize == r.maxBufferSize
    ensures PushStep(r, packet).received == r.received + 1
  {
    if packet.payloadType == RED && Unpack(packet.payload, packet.timestamp).Ok? {
      var blocks := Unpack(packet.payload, packet.timestamp).value;
      PushBlocksKeepsKeys(Admit(r, packet.seqNum), packet, blocks);
      PushBlocksInitialized(Admit(r, packet.seqNum), packet, blocks);
    }
  }

  lemma {:induction false} PushBlocksInitialized(r: Receiver, packet: MediaPacket, blocks: seq<RedBlock>)
    ensures PushBlocks(r, packet, blocks).initialized == r.initialized
    decreases |blocks|
  {
    if blocks == [] {
    } else {
      PushBlocksInitialized(PushBlock(r, packet, blocks[0]), packet, blocks[1..]);
    }
  }

  lemma PopCounts(r: Receiver, force: bool)
    ensures var (r', result) := PopStep(r, force);
            && r'.lost == r.lost + (if result.Skipped? then 1 else 0)
            && r'.received == r.received
            && |r.buffer| == |r'.buffer| + (if result.Played? then 1 else 0)
  {
    var r' := PopStep(r, force).0;
    if PopStep(r, force).1.Played? {
      assert r'.buffer.Keys == r.buffer.Keys - {r.nextSeq};
      assert |r.buffer.Keys| == |r.buffer| && |r'.buffer.Keys| == |r'.buffer|;
    }
  }

  lemma PopNumber(r: Receiver, force: bool)
    requires Sound(r) && !PopStep(r, force).1.Nothing?
    ensures NumberOf(PopStep(r, force).1) == r.nextSeq
    ensures PopStep(r, force).0.nextSeq == (r.nextSeq + 1) % 0x1_0000
  {
  }

  lemma AskNumbered(run: Run, force: bool)
    requires Numbered(run)
    ensures Numbered(Handle(run, Ask(force)))
  {
    PopSound(run.receiver, force);
    if !PopStep(run.receiver, force).1.Nothing? {
      PopNumber(run.receiver, force);
      NextSeq(run.first + |run.out|);
    }
  }

  lemma AskCounted(run: Run, force: bool)
    requires Counted(run)
    ensures Counted(Handle(run, Ask(force)))
  {
    hide PopStep;
    var result := PopStep(run.receiver, force).1;
    PopCounts(run.receiver, force);
    assert (run.out + [result])[..|run.out|] == run.out;
  }

  lemma ArriveAccounted(run: Run, packet: MediaPacket)
    requires Numbered(run) && Counted(run)
    ensures Numbered(Handle(run, Arrive(packet))) && Counted(Handle(run, Arrive(packet)))
  {
    hide PushStep, Sound;
    var r, r' := run.receiver, PushStep(run.receiver, packet);
    PushSound(r, packet);
    PushKeepsKeys(r, packet);
    assert |r'.buffer.Keys| == |r'.buffer.Keys - r.buffer.Keys| + |r.buffer.Keys|;
    assert |r'.buffer| == |r'.buffer.Keys| && |r.buffer| == |r.buffer.Keys|;
  }

  /**
   * Gap-free output over every interleaving of packets (of any origin, in any order) and requests:
   * the m-th result is numbered first + m, the loss counter is the number of skipped results, and
   * the frames that entered the buffer are exactly those played plus those still waiting.
   */
  lemma {:induction false} GapFreeOutput(maxBufferSize: int, events: seq<Event>)
    ensures Numbered(RunEvents(maxBufferSize, events))
    ensures Counted(RunEvents(maxBufferSize, events))
  {
    if events == [] {
    } else {
      var front, e := events[..|events| - 1], events[|events| - 1];
      GapFreeOutput(maxBufferSize, front);
      match e
      case Arrive(packet) => ArriveAccounted(RunEvents(maxBufferSize, front), packet);
      case Ask(force) =>
        AskNumbered(RunEvents(maxBufferSize, front), force);
        AskCounted(RunEvents(maxBufferSize, front), force);
    }
  }

  // ---------------------------------------------------------------- the span of a buffer

  /** The sequence number m turns ahead. */
  function At(nextSeq: U16, m: nat): U16
    requires m <= 0x1_0000
  {
    if nextSeq + m < 0x1_0000 then nextSeq + m else nextSeq + m - 0x1_0000
  }

  lemma AtIndex(n: int, m: nat)
    requires m <= 0x1_0000
    ensures At(Seq16(n), m) == Seq16(n + m)
  {
  }

  lemma AtDist(nextSeq: U16, k: U16)
    ensures At(nextSeq, Dist(nextSeq, k)) == k
  {
  }

  lemma DistAt(nextSeq: U16, m: nat)
    requires m < 0x1_0000
    ensures Dist(nextSeq, At(nextSeq, m)) == m
  {
  }

  /** Everything but the due frame is one turn closer after one turn. */
  lemma OneTurnCloser(nextSeq: U16)
    ensures At(nextSeq, 1) == (nextSeq + 1) % 0x1_0000
    ensures forall k: U16 :: Dist(At(nextSeq, 1), k) == if k == nextSeq then 0xFFFF else Dist(nextSeq, k) - 1
  {
  }

  function SpanBelow(buffer: map<U16, MediaPacket>, nextSeq: U16, h: nat): (s: nat)
    requires h <= 0x1_0000
    ensures s <= h
    ensures s > 0 ==> At(nextSeq, s - 1) in buffer
    ensures forall m :: s <= m < h ==> At(nextSeq, m) !in buffer
  {
    if h == 0 || At(nextSeq, h - 1) in buffer then h else SpanBelow(buffer, nextSeq, h - 1)
  }

  /** How many turns lie between now and the last buffered frame, both included. */
  function Span(r: Receiver): nat {
    SpanBelow(r.buffer, r.nextSeq, 0x1_0000)
  }

  lemma SpanCovers(r: Receiver, k: U16)
    requires k in r.buffer
    ensures Dist(r.nextSeq, k) < Span(r)
  {
    AtDist(r.nextSeq, k);
  }

  lemma SpanNonempty(r: Receiver)
    ensures Span(r) > 0 <==> |r.buffer| > 0
  {
    if |r.buffer| > 0 {
      var k :| k in r.buffer;
      SpanCovers(r, k);
    }
  }

  lemma SpanIs(r: Receiver, s: nat)
    requires s <= 0x1_0000
    requires s > 0 ==> At(r.nextSeq, s - 1) in r.buffer
    requires forall k <- r.buffer :: Dist(r.nextSeq, k) < s
    ensures Span(r) == s
  {
    if Span(r) > s {
      DistAt(r.nextSeq, Span(r) - 1);
    }
  }

  /** Every result uses up exactly one turn of the span; this is what makes draining terminate. */
  lemma PopShrinksSpan(r: Receiver, force: bool)
    requires !PopStep(r, force).1.Nothing?
    ensures Span(r) == Span(PopStep(r, force).0) + 1
  {
    var r' := PopStep(r, force).0;
    SpanNonempty(r);
    OneTurnCloser(r.nextSeq);
    assert r'.buffer == r.buffer - {r.nextSeq};
    var s := Span(r) - 1;
    forall k <- r'.buffer
      ensures Dist(r'.nextSeq, k) < s
    {
      SpanCovers(r, k);
    }
    if s > 0 {
      var last := At(r.nextSeq, s);
      DistAt(r.nextSeq, s);
      assert last in r.buffer && last != r.nextSeq;
      AtDist(r'.nextSeq, last);
    }
    SpanIs(r', s);
  }

  // ---------------------------------------------------------------- draining

  /** Ask until nothing comes out: the loop of rtp.go:211-234. */
  function Drain(r: Receiver, force: bool): (Receiver, seq<PopResult>)
    decreases Span(r)
  {
    var (r1, result) := PopStep(r, force);
    if result.Nothing? then (r, [])
    else
      PopShrinksSpan(r, force);
      var (r2, out) := Drain(r1, force);
      (r2, [result] + out)
  }

  /** What must come out m turns from now, read off the buffer as it is. */
  function Slot(r: Receiver, m: nat): PopResult
    requires m < 0x1_0000
  {
    if At(r.nextSeq, m) in r.buffer then Played(r.buffer[At(r.nextSeq, m)]) else Skipped(At(r.nextSeq, m))
  }

  /** The part of the buffer that is due n turns from now or later. */
  function Later(r: Receiver, n: nat): map<U16, MediaPacket> {
    map k | k in r.buffer && Dist(r.nextSeq, k) >= n :: r.buffer[k]
  }

  /** The state after n turns. */
  ghost predicate TurnsLater(r: Receiver, n: nat, r': Receiver) {
    && n <= Span(r)
    && r'.nextSeq == At(r.nextSeq, n)
    && r'.buffer == Later(r, n)
    && r'.initialized == r.initialized && r'.maxBufferSize == r.maxBufferSize
    && r'.received == r.received && r'.recovered == r.recovered
  }

  lemma OneTurn(r: Receiver, force: bool)
    requires !PopStep(r, force).1.Nothing?
    ensures TurnsLater(r, 1, PopStep(r, force).0)
    ensures PopStep(r, force).1 == Slot(r, 0)
  {
    PopShrinksSpan(r, force);
    OneTurnCloser(r.nextSeq);
  }

  lemma TurnsAdd(r: Receiver, r1: Receiver, n: nat, r2: Receiver)
    requires TurnsLater(r, 1, r1) && TurnsLater(r1, n, r2) && Span(r) == Span(r1) + 1
    ensures TurnsLater(r, n + 1, r2)
  {
    OneTurnCloser(r.nextSeq);
    hide Span;
    forall k <- r.buffer
      ensures k in r2.buffer <==> Dist(r.nextSeq, k) >= n + 1
    {
      assert k in r1.buffer <==> Dist(r.nextSeq, k) >= 1;
    }
    assert r2.buffer == Later(r, n + 1);
  }

  lemma SlotShifts(r: Receiver, r1: Receiver, m: nat)
    requires TurnsLater(r, 1, r1) && m + 1 < 0x1_0000
    ensures Slot(r1, m) == Slot(r, m + 1)
  {
    DistAt(r.nextSeq, m + 1);
    assert At(r1.nextSeq, m) == At(r.nextSeq, m + 1);
  }

  /**
   * Draining reads the buffer in circular order from the due frame: the m-th result is exactly what
   * the buffer held (or lacked) m turns ahead, and what is left is exactly the later part. It stops
   * where nothing can be popped any more.
   */
  lemma {:induction false} DrainReadsInOrder(r: Receiver, force: bool)
    ensures var (r', out) := Drain(r, force);
            && TurnsLater(r, |out|, r')
            && (forall m :: 0 <= m < |out| ==> out[m] == Slot(r, m))
            && PopStep(r', force).1.Nothing?
    decreases Span(r)
  {
    hide Slot, Dist, PopStep;
    var (r1, result) := PopStep(r, force);
    if result.Nothing? {
      assert Later(r, 0) == r.buffer;
    } else {
      OneTurn(r, force);
      PopShrinksSpan(r, force);
      DrainReadsInOrder(r1, force);
      var (r2, rest) := Drain(r1, force);
      TurnsAdd(r, r1, |rest|, r2);
      var out := [result] + rest;
      forall m | 0 <= m < |out|
        ensures out[m] == Slot(r, m)
      {
        if m > 0 {
          SlotShifts(r, r1, m - 1);
        }
      }
    }
  }

  lemma DrainLeavesLater(r: Receiver, force: bool)
    ensures TurnsLater(r, |Drain(r, force).1|, Drain(r, force).0)
    ensures PopStep(Drain(r, force).0, force).1.Nothing?
  {
    DrainReadsInOrder(r, force);
  }

  /**
   * The adapter's loop ends, from any initialized state and for any buffer size, with the due frame
   * missing and fewer than maxBufferSize frames (or none) waiting; in a sound state after at most
   * 32769 results.
   */
  lemma DrainStops(r: Receiver)
    requires r.initialized
    ensures var (r', out) := Drain(r, false);
            && r'.nextSeq !in r'.buffer
            && (|r'.buffer| < r.maxBufferSize || |r'.buffer| == 0)
            && |out| <= Span(r)
            && (Sound(r) ==> |out| <= 32769)
  {
    DrainReadsInOrder(r, false);
    if Sound(r) && Span(r) > 0 {
      DistAt(r.nextSeq, Span(r) - 1);
    }
  }

  lemma {:induction false} DrainCounts(r: Receiver, force: bool)
    ensures var (r', out) := Drain(r, force);
            && |r.buffer| == CountPlayed(out) + |r'.buffer|
            && r'.lost - r.lost == |out| - CountPlayed(out)
    decreases Span(r)
  {
    var (r1, result) := PopStep(r, force);
    if result.Nothing? {
    } else {
      PopShrinksSpan(r, force);
      DrainCounts(r1, force);
      PopCounts(r, force);
      CountPlayedCons(result, Drain(r1, force).1);
    }
  }

  lemma {:induction false} CountPlayedCons(first: PopResult, rest: seq<PopResult>)
    ensures CountPlayed([first] + rest) == CountPlayed(rest) + if first.Played? then 1 else 0
  {
    if rest == [] {
      assert ([first] + rest)[..0] == [];
    } else {
      var n := |rest| - 1;
      assert ([first] + rest)[..n + 1] == [first] + rest[..n];
      CountPlayedCons(first, rest[..n]);
    }
  }

  /**
   * A forced drain is a sort: it hands out every buffered frame exactly once, at its place in the
   * circular order from the due frame, announces each missing turn before the last frame, and leaves
   * the buffer empty.
   */
  lemma ForcedDrainSorts(r: Receiver)
    requires r.initialized
    ensures var (r', out) := Drain(r, true);
            && |out| == Span(r)
            && (forall k <- r.buffer :: Dist(r.nextSeq, k) < |out| && out[Dist(r.nextSeq, k)] == Played(r.buffer[k]))
            && CountPlayed(out) == |r.buffer|
            && r'.lost - r.lost == Span(r) - |r.buffer|
            && r'.buffer == map[]
  {
    var (r', out) := Drain(r, true);
    DrainReadsInOrder(r, true);
    DrainCounts(r, true);
    assert |r'.buffer| == 0;
    assert forall k <- r.buffer :: k !in r'.buffer;
    if Span(r) > 0 {
      DistAt(r.nextSeq, Span(r) - 1);
    }
    forall k <- r.buffer
      ensures Dist(r.nextSeq, k) < |out| && out[Dist(r.nextSeq, k)] == Played(r.buffer[k])
    {
      SpanCovers(r, k);
      AtDist(r.nextSeq, k);
    }
  }
}
