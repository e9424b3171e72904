/**
 * Packer and receiver over a network: which frames come out, and that they are the right ones.
 * Frames are named by unwrapped indices; sequence numbers and timestamps wrap as they like.
 */
module Recovery {
  import opened Basics
  import opened RedCodec
  import opened RedLaws
  import opened RedPacketizer
  import opened RedReceiving
  import opened RedOutput

  // ---------------------------------------------------------------- the link between buffer and stream

  /**
   * The receiver's next turn is frame n, and what it holds m turns ahead is frame n + m of the
   * stream: number, timestamp and payload.
   */
  ghost predicate Linked(r: Receiver, frames: seq<Bytes>, n: nat) {
    && r.initialized && r.nextSeq == Seq16(n)
    && forall k <- r.buffer ::
         var i := n + Dist(r.nextSeq, k);
         i < |frames| && r.buffer[k] == FramePacket(frames, i)
  }

  /** Frame x is in the buffer, for x within one wrap of the next turn. */
  predicate Has(r: Receiver, x: int) {
    Seq16(x) in r.buffer
  }

  lemma Seq16Injective(n: nat, x: int, i: int)
    requires n <= x < n + 0x1_0000 && n <= i < n + 0x1_0000 && Seq16(x) == Seq16(i)
    ensures x == i
  {
    DistOfIndices(n, x);
    DistOfIndices(n, i);
  }

  /**
   * Frame i may arrive while it is turn n: it is among the next 65536 frames, or its number looks
   * like one of the past, so that it is dropped.
   */
  predicate SafeAt(n: nat, i: int) {
    n <= i < n + 0x1_0000 || (i - n) % 0x1_0000 > 32768
  }

  /** In particular a frame may be up to 32767 turns late. */
  lemma NearIsSafe(n: nat, lo: int, j: int)
    requires n - 32767 <= lo && j < n + 0x1_0000
    ensures forall i :: lo <= i <= j ==> SafeAt(n, i)
  {
  }

  lemma TakenForFuture(n: nat, i: int)
    ensures SeqBefore(Seq16(i), Seq16(n)) <==> (i - n) % 0x1_0000 > 32768
  {
    DistOfIndices(n, i);
  }

  /** The number of wraps after which numbers and timestamps both repeat. */
  const TIME_PERIOD := 1024

  /** A frame some wraps away betrays itself by its timestamp. */
  lemma WrapChangesTime(i: int, wraps: int)
    requires -TIME_PERIOD < wraps < TIME_PERIOD && wraps != 0
    ensures Time32(i) != Time32(i + 0x1_0000 * wraps)
  {
    hide Time32;
    TimeDifference(i, i + 0x1_0000 * wraps);
    WrapsDoNotCancel(wraps);
    assert FRAME_SAMPLES * (i + 0x1_0000 * wraps - i) == 0x3C0_0000 * wraps;
  }

  lemma WrapsDoNotCancel(wraps: int)
    requires -TIME_PERIOD < wraps < TIME_PERIOD && wraps != 0
    ensures 0x3C0_0000 * wraps % 0x1_0000_0000 != 0
  {
    var q, m := 0x3C0_0000 * wraps / 0x1_0000_0000, 0x3C0_0000 * wraps % 0x1_0000_0000;
    assert 0x3C0_0000 * wraps == 0x1_0000_0000 * q + m;
    assert 751 * (0x3C0_0000 * wraps) == 0x40_0000 * (11265 * wraps) == 751 * (0x1_0000_0000 * q + m);
    assert m == 0 ==> wraps == 1024 * (751 * q - 11 * wraps);
  }

  /**
   * When taking in a frame is safe: less than 1023 wraps away from turn n, inserting frame i leaves
   * the buffer right if and only if the frame is one of the next 65536 or its number lies in the
   * half of the circle that counts as past. A frame 32768 to 65536 turns late, say, does not.
   */
  lemma InsertIsSafeExactly(r: Receiver, frames: seq<Bytes>, n: nat, i: nat)
    requires Linked(r, frames, n) && i < |frames|
    requires -1023 * 0x1_0000 <= i - n <= 1023 * 0x1_0000
    ensures Linked(InsertStep(r, FramePacket(frames, i)), frames, n) <==> SafeAt(n, i)
  {
    if SafeAt(n, i) {
      SafeInsert(r, frames, n, i);
    } else {
      TakenForFuture(n, i);
      hide FramePacket, Linked;
      assert InsertStep(r, FramePacket(frames, i)).nextSeq == r.nextSeq;
      WrongEntry(InsertStep(r, FramePacket(frames, i)), frames, n, i);
    }
  }

  /** The turn at which a frame that is not safe would come out. */
  function WrongTurn(n: nat, i: int): nat {
    n + (i - n) % 0x1_0000
  }

  lemma WrongTurnIsWrong(frames: seq<Bytes>, n: nat, i: nat)
    requires !SafeAt(n, i) && -1023 * 0x1_0000 <= i - n <= 1023 * 0x1_0000
    ensures Seq16(i) == Seq16(WrongTurn(n, i)) && Time32(i) != Time32(WrongTurn(n, i))
    ensures Dist(Seq16(n), Seq16(i)) == WrongTurn(n, i) - n
  {
    hide Time32, Dist;
    DistOfIndices(n, i);
    var wraps := -((i - n) / 0x1_0000);
    assert WrongTurn(n, i) == i + 0x1_0000 * wraps;
    WrapChangesTime(i, wraps);
  }

  /** A buffer with such a frame in it is wrong. */
  lemma WrongEntry(r: Receiver, frames: seq<Bytes>, n: nat, i: nat)
    requires !SafeAt(n, i) && -1023 * 0x1_0000 <= i - n <= 1023 * 0x1_0000 && i < |frames|
    requires Seq16(i) in r.buffer && r.buffer[Seq16(i)] == FramePacket(frames, i)
    ensures !Linked(r, frames, n)
  {
    hide Seq16, Time32, Dist, SafeAt;
    WrongTurnIsWrong(frames, n, i);
    assert r.nextSeq == Seq16(n) ==> n + Dist(r.nextSeq, Seq16(i)) == WrongTurn(n, i);
  }

  lemma SafeInsert(r: Receiver, frames: seq<Bytes>, n: nat, i: nat)
    requires Linked(r, frames, n) && i < |frames| && SafeAt(n, i)
    ensures Linked(InsertStep(r, FramePacket(frames, i)), frames, n)
    ensures InsertStep(r, FramePacket(frames, i)).buffer
            == if n <= i <= n + 32768 then r.buffer[Seq16(i) := FramePacket(frames, i)] else r.buffer
  {
    hide Seq16, SeqBefore;
    TakenForFuture(n, i);
    if n <= i < n + 0x1_0000 {
      TurnsAhead(n, i);
    }
  }

  /** r' holds what r holds and, of frames lo..j, those whose turn is at most 32768 away and not over. */
  ghost predicate Gains(r: Receiver, r': Receiver, n: nat, lo: int, j: int) {
    forall x {:trigger Has(r', x)} :: n <= x < n + 0x1_0000 ==>
      (Has(r', x) <==> Has(r, x) || (lo <= x <= j && x <= n + 32768))
  }

  lemma InsertGains(r: Receiver, frames: seq<Bytes>, n: nat, i: nat)
    requires Linked(r, frames, n) && i < |frames| && SafeAt(n, i)
    ensures Gains(r, InsertStep(r, FramePacket(frames, i)), n, i, i)
  {
    SafeInsert(r, frames, n, i);
    var r' := InsertStep(r, FramePacket(frames, i));
    forall x {:trigger Has(r', x)} | n <= x < n + 0x1_0000
      ensures Has(r', x) <==> Has(r, x) || (x == i && i <= n + 32768)
    {
      if Seq16(x) == Seq16(i) && n <= i <= n + 32768 {
        Seq16Injective(n, x, i);
      }
    }
  }

  // ---------------------------------------------------------------- pushing a packet

  /** The receiver works out frame numbers from timestamps, across both wraps. */
  lemma BlockIsItsFrame(frames: seq<Bytes>, packet: MediaPacket, i: nat, j: nat)
    requires i <= j < |frames| && j - i < 0x1_0000
    requires packet.seqNum == Seq16(j) && packet.timestamp == Time32(j)
    ensures FrameOf(packet, BlockOf(FramePacket(frames, i))) == FramePacket(frames, i)
  {
    TimeOffset(i, j);
    StepBack(j, j - i);
  }

  lemma CountingKeepsLink(r: Receiver, packet: MediaPacket, block: RedBlock, frames: seq<Bytes>, n: nat, i: nat)
    requires Linked(r, frames, n) && i < |frames| && SafeAt(n, i)
    requires FrameOf(packet, block) == FramePacket(frames, i)
    ensures Linked(PushBlock(r, packet, block), frames, n)
    ensures Gains(r, PushBlock(r, packet, block), n, i, i)
  {
    hide Seq16, Time32, SeqBefore, SafeAt, Dist, CountsAsRecovered, FrameOf;
    assert FramePacket(frames, i).seqNum == Seq16(i);
    var r1 := if CountsAsRecovered(r, packet, Seq16(i)) then r.(recovered := r.recovered + 1) else r;
    assert forall x :: Has(r1, x) == Has(r, x);
    SafeInsert(r1, frames, n, i);
    InsertGains(r1, frames, n, i);
  }

  lemma GainsAdd(r: Receiver, r1: Receiver, r2: Receiver, n: nat, lo: int, j: int)
    requires lo <= j
    requires Gains(r, r1, n, lo, lo) && Gains(r1, r2, n, lo + 1, j)
    ensures Gains(r, r2, n, lo, j)
  {
    forall x {:trigger Has(r2, x)} | n <= x < n + 0x1_0000
      ensures Has(r2, x) <==> Has(r, x) || (lo <= x <= j && x <= n + 32768)
    {
      assert Has(r1, x) <==> Has(r, x) || (x == lo && x <= n + 32768);
    }
  }

  lemma {:induction false} PushBlocksEffect(
      r: Receiver, packet: MediaPacket, frames: seq<Bytes>, n: nat, lo: nat, j: nat)
    requires Linked(r, frames, n)
    requires lo <= j + 1 <= |frames| && j - lo < 0x1_0000 && forall i :: lo <= i <= j ==> SafeAt(n, i)
    requires packet.seqNum == Seq16(j) && packet.timestamp == Time32(j)
    ensures var r' := PushBlocks(r, packet, BlocksOf(FramePackets(frames, lo, j + 1)));
            Linked(r', frames, n) && Gains(r, r', n, lo, j)
    decreases j + 1 - lo
  {
    if lo > j {
    } else {
      var block := BlockOf(FramePacket(frames, lo));
      var r1 := PushBlock(r, packet, block);
      BlockIsItsFrame(frames, packet, lo, j);
      CountingKeepsLink(r, packet, block, frames, n, lo);
      var rest := BlocksOf(FramePackets(frames, lo + 1, j + 1));
      assert BlocksOf(FramePackets(frames, lo, j + 1)) == [block] + rest;
      PushBlocksEffect(r1, packet, frames, n, lo + 1, j);
      GainsAdd(r, r1, PushBlocks(r1, packet, rest), n, lo, j);
    }
  }

  /** Where the output stands when packet j arrives: the first packet sets it. */
  function Turn(r: Receiver, n: nat, j: nat): nat {
    if r.initialized then n else j
  }

  /** A receiver that holds nothing wrong: either nothing at all, or frames from turn n on. */
  ghost predicate Right(r: Receiver, frames: seq<Bytes>, n: nat) {
    if r.initialized then Linked(r, frames, n) else r.buffer == map[]
  }

  lemma AdmittedIsLinked(r: Receiver, packet: MediaPacket, frames: seq<Bytes>, m: nat, j: nat)
    requires Right(r, frames, m) && packet.seqNum == Seq16(j)
    ensures Linked(Admit(r, packet.seqNum), frames, Turn(r, m, j))
    ensures Admit(r, packet.seqNum).buffer == r.buffer
  {
  }

  /**
   * A packet from the stream, delivered at any time in any order, puts exactly the frames it carries
   * into the buffer, as long as none of them is taken for another one; of them it keeps the ones
   * whose turn is to come within 32768 turns.
   */
  lemma PushEffect(r: Receiver, packet: MediaPacket, frames: seq<Bytes>, m: nat, lo: nat, j: nat)
    requires Right(r, frames, m)
    requires lo <= j < |frames| && j - lo < 0x1_0000 && Carries(packet, frames, lo, j)
    requires forall i :: lo <= i <= j ==> SafeAt(Turn(r, m, j), i)
    ensures Linked(PushStep(r, packet), frames, Turn(r, m, j))
    ensures Gains(r, PushStep(r, packet), Turn(r, m, j), lo, j)
  {
    hide SafeAt, Linked, Seq16, Time32;
    var admitted, n := Admit(r, packet.seqNum), Turn(r, m, j);
    AdmittedIsLinked(r, packet, frames, m, j);
    if packet.payloadType == OPUS {
      assert packet == FramePacket(frames, j);
      SafeInsert(admitted, frames, n, j);
      InsertGains(admitted, frames, n, j);
    } else {
      PushBlocksEffect(admitted, packet, frames, n, lo, j);
    }
  }

  // ---------------------------------------------------------------- handing out

  /** The result for turn i is the frame itself or a truthful notice that it is missing. */
  ghost predicate Truthful(result: PopResult, frames: seq<Bytes>, i: nat) {
    match result
    case Nothing => false
    case Played(packet) => i < |frames| && packet == FramePacket(frames, i)
    case Skipped(seqNum) => seqNum == Seq16(i)
  }

  /** The result for turn i says what it must: the frame itself if it was there, else its number. */
  ghost predicate Says(result: PopResult, frames: seq<Bytes>, i: nat, there: bool) {
    if there then i < |frames| && result == Played(FramePacket(frames, i)) else result == Skipped(Seq16(i))
  }

  lemma TruthfulSays(result: PopResult, frames: seq<Bytes>, i: nat)
    requires Truthful(result, frames, i)
    ensures Says(result, frames, i, result.Played?)
  {
  }

  lemma PopIsTruthful(r: Receiver, frames: seq<Bytes>, n: nat, force: bool)
    requires Linked(r, frames, n)
    ensures var (r', result) := PopStep(r, force);
            if result.Nothing? then r' == r
            else Truthful(result, frames, n) && Linked(r', frames, n + 1)
  {
    OneTurnCloser(r.nextSeq);
    NextSeq(n);
  }

  lemma SlotIsTruthful(r: Receiver, frames: seq<Bytes>, n: nat, m: nat)
    requires Linked(r, frames, n) && m < 0x1_0000
    ensures Truthful(Slot(r, m), frames, n + m)
    ensures Slot(r, m).Played? <==> Has(r, n + m)
  {
    AtIndex(n, m);
    DistAt(r.nextSeq, m);
  }

  /** Draining a right buffer plays exactly the frames that are there and keeps the later ones. */
  lemma DrainIsTruthful(r: Receiver, frames: seq<Bytes>, n: nat, force: bool)
    requires Linked(r, frames, n)
    ensures var (r', out) := Drain(r, force);
            && |out| <= 0x1_0000
            && (forall m :: 0 <= m < |out| ==> Truthful(out[m], frames, n + m))
            && (forall m :: 0 <= m < |out| ==> (out[m].Played? <==> Has(r, n + m)))
            && Linked(r', frames, n + |out|)
  {
    var (r', out) := Drain(r, force);
    DrainReadsInOrder(r, force);
    forall m | 0 <= m < |out|
      ensures Truthful(out[m], frames, n + m) && (out[m].Played? <==> Has(r, n + m))
    {
      SlotIsTruthful(r, frames, n, m);
    }
    LaterIsLinked(r, frames, n, |out|, r');
  }

  lemma DrainKeepsLater(r: Receiver, frames: seq<Bytes>, n: nat, force: bool, x: int)
    requires Linked(r, frames, n)
    requires n + |Drain(r, force).1| <= x < n + 0x1_0000
    ensures Has(Drain(r, force).0, x) <==> Has(r, x)
  {
    DrainLeavesLater(r, force);
    TurnsAhead(n, x);
  }

  lemma LaterIsLinked(r: Receiver, frames: seq<Bytes>, n: nat, turns: nat, r': Receiver)
    requires Linked(r, frames, n) && TurnsLater(r, turns, r')
    ensures Linked(r', frames, n + turns)
  {
    AtIndex(n, turns);
    forall k <- r'.buffer
      ensures Dist(r'.nextSeq, k) == Dist(r.nextSeq, k) - turns
    {
    }
  }

  // ---------------------------------------------------------------- when a delivery does harm

  /** What lies under one number stays there while frames with other numbers follow. */
  lemma {:induction false} EntryStays(
      r: Receiver, packet: MediaPacket, frames: seq<Bytes>, lo: nat, j: nat, key: U16)
    requires lo <= j + 1 <= |frames| && j - lo < 0x1_0000
    requires packet.seqNum == Seq16(j) && packet.timestamp == Time32(j)
    requires key in r.buffer && forall x :: lo <= x <= j ==> Seq16(x) != key
    ensures var r' := PushBlocks(r, packet, BlocksOf(FramePackets(frames, lo, j + 1)));
            key in r'.buffer && r'.buffer[key] == r.buffer[key]
    decreases j + 1 - lo
  {
    hide Seq16, Time32, SeqBefore, FrameOf;
    if lo > j {
    } else {
      var block := BlockOf(FramePacket(frames, lo));
      BlockIsItsFrame(frames, packet, lo, j);
      var rest := BlocksOf(FramePackets(frames, lo + 1, j + 1));
      assert BlocksOf(FramePackets(frames, lo, j + 1)) == [block] + rest;
      assert ([block] + rest)[1..] == rest;
      EntryStays(PushBlock(r, packet, block), packet, frames, lo + 1, j, key);
    }
  }

  lemma OtherNumbers(i: nat, j: nat)
    requires j - i < 0x1_0000
    ensures forall x :: i < x <= j ==> Seq16(x) != Seq16(i)
  {
    forall x | i < x <= j
      ensures Seq16(x) != Seq16(i)
    {
      DistOfIndices(i, x);
    }
  }

  /** A carried frame whose number does not count as past ends up in the buffer. */
  lemma {:induction false} FrameIsPut(
      r: Receiver, packet: MediaPacket, frames: seq<Bytes>, lo: nat, i: nat, j: nat)
    requires r.initialized && lo <= i <= j < |frames| && j - lo < 0x1_0000
    requires packet.seqNum == Seq16(j) && packet.timestamp == Time32(j)
    requires !SeqBefore(Seq16(i), r.nextSeq)
    ensures var r' := PushBlocks(r, packet, BlocksOf(FramePackets(frames, lo, j + 1)));
            Seq16(i) in r'.buffer && r'.buffer[Seq16(i)] == FramePacket(frames, i)
    decreases i - lo
  {
    hide Seq16, Time32, SeqBefore, FrameOf;
    var block := BlockOf(FramePacket(frames, lo));
    BlockIsItsFrame(frames, packet, lo, j);
    var rest := BlocksOf(FramePackets(frames, lo + 1, j + 1));
    assert BlocksOf(FramePackets(frames, lo, j + 1)) == [block] + rest;
    assert ([block] + rest)[1..] == rest;
    if lo < i {
      FrameIsPut(PushBlock(r, packet, block), packet, frames, lo + 1, i, j);
    } else {
      OtherNumbers(i, j);
      EntryStays(PushBlock(r, packet, block), packet, frames, lo + 1, j, Seq16(i));
    }
  }

  lemma HarmIsDone(r: Receiver, packet: MediaPacket, frames: seq<Bytes>, n: nat, lo: nat, i: nat, j: nat)
    requires Linked(r, frames, n) && !SafeAt(n, i)
    requires lo <= i <= j < |frames| && j - lo < 0x1_0000 && Carries(packet, frames, lo, j)
    ensures var r' := PushStep(r, packet);
            && Seq16(i) in r'.buffer && r'.buffer[Seq16(i)] == FramePacket(frames, i)
            && r'.initialized && r'.nextSeq == Seq16(n)
  {
    TakenForFuture(n, i);
    PushKeepsKeys(r, packet);
    hide Seq16, Time32, SeqBefore;
    if packet.payloadType == OPUS {
      assert packet == FramePacket(frames, j);
    } else {
      FrameIsPut(Admit(r, packet.seqNum), packet, frames, lo, i, j);
    }
  }

  /**
   * When a delivery is safe, exactly: a packet with frames less than 1023 wraps away leaves the
   * buffer right if and only if each frame it carries is safe on its own.
   */
  lemma PushIsSafeExactly(r: Receiver, packet: MediaPacket, frames: seq<Bytes>, n: nat, lo: nat, j: nat)
    requires Linked(r, frames, n)
    requires lo <= j < |frames| && j - lo < 0x1_0000 && Carries(packet, frames, lo, j)
    requires n - 1023 * 0x1_0000 <= lo && j <= n + 1023 * 0x1_0000
    ensures Linked(PushStep(r, packet), frames, n) <==> forall i :: lo <= i <= j ==> SafeAt(n, i)
  {
    hide SafeAt, Carries, PushStep;
    if i: nat :| lo <= i <= j && !SafeAt(n, i) {
      HarmIsDone(r, packet, frames, n, lo, i, j);
      WrongEntry(PushStep(r, packet), frames, n, i);
    } else {
      PushEffect(r, packet, frames, n, lo, j);
    }
  }

  lemma WrongFrameIsUntruthful(frames: seq<Bytes>, n: nat, i: nat)
    requires !SafeAt(n, i) && -1023 * 0x1_0000 <= i - n <= 1023 * 0x1_0000 && i < |frames|
    ensures !Truthful(Played(FramePacket(frames, i)), frames, WrongTurn(n, i))
  {
    hide Seq16, Time32, Dist, SafeAt;
    WrongTurnIsWrong(frames, n, i);
  }

  lemma WrongFrameComesOut(r: Receiver, frames: seq<Bytes>, n: nat, i: nat)
    requires !SafeAt(n, i) && -1023 * 0x1_0000 <= i - n <= 1023 * 0x1_0000 && i < |frames|
    requires r.initialized && r.nextSeq == Seq16(n)
    requires Seq16(i) in r.buffer && r.buffer[Seq16(i)] == FramePacket(frames, i)
    ensures var m, out := WrongTurn(n, i) - n, Drain(r, true).1;
            0 <= m < |out| && out[m] == Played(FramePacket(frames, i)) && !Truthful(out[m], frames, n + m)
  {
    hide SafeAt, Truthful, Seq16, Time32, Dist, FramePacket, WrongTurn, Drain, Span;
    ForcedDrainSorts(r);
    WrongTurnIsWrong(frames, n, i);
    WrongFrameIsUntruthful(frames, n, i);
    assert Drain(r, true).1[Dist(r.nextSeq, Seq16(i))] == Played(FramePacket(frames, i));
  }

  /**
   * The harm comes out: if the buffer is drained by force after such a delivery, all results are
   * right if and only if each carried frame was safe. Otherwise some turn plays another turn's frame.
   */
  lemma OutputIsRightExactly(r: Receiver, packet: MediaPacket, frames: seq<Bytes>, n: nat, lo: nat, j: nat)
    requires Linked(r, frames, n)
    requires lo <= j < |frames| && j - lo < 0x1_0000 && Carries(packet, frames, lo, j)
    requires n - 1023 * 0x1_0000 <= lo && j <= n + 1023 * 0x1_0000
    ensures var out := Drain(PushStep(r, packet), true).1;
            (forall m :: 0 <= m < |out| ==> Truthful(out[m], frames, n + m))
            <==> forall i :: lo <= i <= j ==> SafeAt(n, i)
  {
    hide SafeAt, Carries, PushStep, Truthful, Linked, Seq16, Dist, WrongTurn;
    LinkedIsInitialized(r, frames, n);
    if i: nat :| lo <= i <= j && !SafeAt(n, i) {
      HarmIsDone(r, packet, frames, n, lo, i, j);
      WrongFrameComesOut(PushStep(r, packet), frames, n, i);
    } else {
      PushEffect(r, packet, frames, n, lo, j);
      DrainIsTruthful(PushStep(r, packet), frames, n, true);
    }
  }

  lemma LinkedIsInitialized(r: Receiver, frames: seq<Bytes>, n: nat)
    requires Linked(r, frames, n)
    ensures r.initialized
  {
  }

  // ---------------------------------------------------------------- a run with a wrong payload

  /** Packet 0 has been received and played. */
  function AfterFirst(stream: Stream, maxBufferSize: int): Receiver
    requires |stream.packets| > 0
  {
    PopStep(PushStep(NewReceiver(maxBufferSize), stream.packets[0]), false).0
  }

  /** Then packet 32769 has arrived and the buffer was drained by force. */
  function AfterJump(stream: Stream, maxBufferSize: int): Receiver
    requires |stream.packets| > 32769
  {
    Drain(PushStep(AfterFirst(stream, maxBufferSize), stream.packets[32769]), true).0
  }

  lemma FirstIsPlayed(stream: Stream, maxBufferSize: int)
    requires WellSent(stream) && |stream.packets| > 0
    ensures var r := AfterFirst(stream, maxBufferSize); Linked(r, stream.frames, 1) && Sound(r)
  {
    hide Linked, Carries, PushStep, Gains, SafeAt;
    var empty, packet := NewReceiver(maxBufferSize), stream.packets[0];
    assert CarriesAt(stream, 0);
    NearIsSafe(0, 0, 0);
    PushEffect(empty, packet, stream.frames, 0, 0, 0);
    PushSound(empty, packet);
    HasWhatItGained(empty, PushStep(empty, packet), stream.frames, 0, 0, 0);
    PopIsTruthful(PushStep(empty, packet), stream.frames, 0, false);
    PopSound(PushStep(empty, packet), false);
  }

  lemma HasWhatItGained(r: Receiver, r': Receiver, frames: seq<Bytes>, n: nat, lo: int, j: nat)
    requires Linked(r', frames, n) && Gains(r, r', n, lo, j) && lo <= j && n <= j <= n + 32768
    ensures Seq16(j) in r'.buffer && r'.initialized && r'.nextSeq == Seq16(n)
  {
    assert Has(r', j);
  }

  lemma JumpIsDrained(stream: Stream, maxBufferSize: int)
    requires WellSent(stream) && |stream.packets| > 32769
    ensures Linked(AfterJump(stream, maxBufferSize), stream.frames, 32770)
  {
    hide Linked, Carries, PushStep, Gains, SafeAt, AfterFirst, Seq16, Drain, Span, Dist, At;
    var r, packet, lo := AfterFirst(stream, maxBufferSize), stream.packets[32769], Oldest(stream, 32769);
    FirstIsPlayed(stream, maxBufferSize);
    LinkedIsInitialized(r, stream.frames, 1);
    assert CarriesAt(stream, 32769);
    NearIsSafe(1, lo, 32769);
    PushEffect(r, packet, stream.frames, 1, lo, 32769);
    PushSound(r, packet);
    var r' := PushStep(r, packet);
    HasWhatItGained(r, r', stream.frames, 1, lo, 32769);
    AtIndex(1, 32768);
    SpanIs(r', 32769);
    ForcedDrainSorts(r');
    DrainIsTruthful(r', stream.frames, 1, true);
  }

  /**
   * It happens: packet 0 is received and played, everything up to packet 32769 is lost, that packet is
   * played by force, and then packet 1 comes again. Its frame is stored for turn 65537, and draining
   * by force plays it there.
   */
  lemma WrongFrameIsPlayed(stream: Stream, maxBufferSize: int)
    requires WellSent(stream) && |stream.packets| > 32769
    ensures var r := AfterJump(stream, maxBufferSize);
            var out := Drain(PushStep(r, stream.packets[1]), true).1;
            && Linked(r, stream.frames, 32770)
            && |out| > 32767 && out[32767] == Played(FramePacket(stream.frames, 1))
            && !Truthful(out[32767], stream.frames, 32770 + 32767)
  {
    hide Linked, Carries, PushStep, AfterJump, Seq16, Drain, Span, Truthful, FramePacket;
    JumpIsDrained(stream, maxBufferSize);
    var r, lo := AfterJump(stream, maxBufferSize), Oldest(stream, 1);
    assert CarriesAt(stream, 1);
    HarmIsDone(r, stream.packets[1], stream.frames, 32770, lo, 1, 1);
    WrongFrameComesOut(PushStep(r, stream.packets[1]), stream.frames, 32770, 1);
  }

  // ---------------------------------------------------------------- any network

  /** The network delivers packet j (again, late, early), or somebody asks for a frame. */
  datatype NetEvent = Deliver(j: nat) | Request(force: bool)

  /** A receiver with its output and the index at which that output starts. */
  datatype Session = Session(receiver: Receiver, out: seq<PopResult>, first: nat)

  function NewSession(maxBufferSize: int): Session {
    Session(NewReceiver(maxBufferSize), [], 0)
  }

  /** The index whose turn it is. */
  function Next(s: Session): nat {
    s.first + |s.out|
  }

  predicate Enabled(stream: Stream, s: Session, e: NetEvent) {
    match e
    case Deliver(j) =>
      && j < |stream.packets| && |stream.packets| == |stream.reach|
      && (s.receiver.initialized ==> forall i :: Oldest(stream, j) <= i <= j ==> SafeAt(Next(s), i))
    case Request(_) => true
  }

  function NetStep(stream: Stream, s: Session, e: NetEvent): Session
    requires Enabled(stream, s, e)
  {
    match e
    case Deliver(j) =>
      s.(receiver := PushStep(s.receiver, stream.packets[j]),
         first := if s.receiver.initialized then s.first else j)
    case Request(force) =>
      var (r', result) := PopStep(s.receiver, force);
      s.(receiver := r', out := if result.Nothing? then s.out else s.out + [result])
  }

  /** All results so far are truthful, and so will be the next ones. */
  ghost predicate Faithful(frames: seq<Bytes>, s: Session) {
    && Right(s.receiver, frames, Next(s))
    && (!s.receiver.initialized ==> s.out == [])
    && forall m :: 0 <= m < |s.out| ==> Truthful(s.out[m], frames, s.first + m)
  }

  lemma DeliverIsFaithful(stream: Stream, s: Session, j: nat)
    requires |stream.reach| == |stream.packets| == |stream.frames| && j < |stream.reach| && CarriesAt(stream, j)
    requires Faithful(stream.frames, s) && Enabled(stream, s, Deliver(j))
    ensures Faithful(stream.frames, NetStep(stream, s, Deliver(j)))
  {
    hide Linked, Seq16, Time32, PushStep, SafeAt;
    NearIsSafe(j, Oldest(stream, j), j);
    PushEffect(s.receiver, stream.packets[j], stream.frames, Next(s), Oldest(stream, j), j);
    LinkedIsInitialized(PushStep(s.receiver, stream.packets[j]), stream.frames, Turn(s.receiver, Next(s), j));
  }

  lemma TruthfulAppend(out: seq<PopResult>, more: seq<PopResult>, frames: seq<Bytes>, first: nat)
    requires forall m :: 0 <= m < |out| ==> Truthful(out[m], frames, first + m)
    requires forall m :: 0 <= m < |more| ==> Truthful(more[m], frames, first + |out| + m)
    ensures forall m :: 0 <= m < |out + more| ==> Truthful((out + more)[m], frames, first + m)
  {
    forall m | 0 <= m < |out + more|
      ensures Truthful((out + more)[m], frames, first + m)
    {
      if m >= |out| {
        assert Truthful(more[m - |out|], frames, first + |out| + (m - |out|));
      }
    }
  }

  lemma RequestIsFaithful(stream: Stream, s: Session, force: bool)
    requires Faithful(stream.frames, s)
    ensures Faithful(stream.frames, NetStep(stream, s, Request(force)))
  {
    hide Seq16, Time32, Linked, Truthful;
    var (r', result) := PopStep(s.receiver, force);
    if result.Nothing? {
      assert NetStep(stream, s, Request(force)) == s;
    } else {
      PopIsTruthful(s.receiver, stream.frames, Next(s), force);
      TruthfulAppend(s.out, [result], stream.frames, s.first);
    }
  }

  /** A run of the network: no event delivers a frame that is taken for another one. */
  ghost predicate IsNetRun(stream: Stream, run: seq<Session>, events: seq<NetEvent>) {
    && |run| == |events| + 1
    && run[0] == NewSession(run[0].receiver.maxBufferSize)
    && forall t :: 0 <= t < |events| ==>
         Enabled(stream, run[t], events[t]) && run[t + 1] == NetStep(stream, run[t], events[t])
  }

  /**
   * No wrong payload. Packets of one stream are lost, duplicated, delayed and reordered at will,
   * and frames are requested at will. As long as no delivered frame is taken for another one, the m-th
   * result ever handed out is frame first + m with its own number, timestamp and payload, or a notice
   * carrying that number. (OutputIsRightExactly says that the first delivery of the other kind can
   * make a wrong frame come out.)
   */
  lemma {:induction false} NoWrongPayload(stream: Stream, run: seq<Session>, events: seq<NetEvent>)
    requires WellSent(stream) && IsNetRun(stream, run, events)
    ensures forall t :: 0 <= t < |run| ==> Faithful(stream.frames, run[t])
    decreases |events|
  {
    if events == [] {
    } else {
      var n := |events| - 1;
      NoWrongPayload(stream, run[..n + 1], events[..n]);
      assert run[..n + 1][n] == run[n];
      match events[n] {
        case Deliver(j) => DeliverIsFaithful(stream, run[n], j);
        case Request(force) => RequestIsFaithful(stream, run[n], force);
      }
      forall t | 0 <= t < |run|
        ensures Faithful(stream.frames, run[t])
      {
        if t <= n {
          assert run[..n + 1][t] == run[t];
        }
      }
    }
  }
}
