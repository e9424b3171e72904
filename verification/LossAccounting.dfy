/** Loss conservation: what the network lost is recovered, announced as lost, or still undecided. */
module LossAccounting {
  import opened Basics
  import opened RedCodec
  import opened RedLaws
  import opened RedPacketizer
  import opened RedReceiving
  import opened RedOutput
  import opened Recovery
  import opened InOrderRecovery
  import opened Feedback

  // ---------------------------------------------------------------- what the recovery counter misses

  /**
   * A redundant frame that enters the buffer without being counted as recovered, because the
   * counter compares the plain numbers and the frame's is the larger: it lies before a wrap.
   */
  function Missed(r: Receiver, packet: MediaPacket, block: RedBlock): nat {
    var frame := FrameOf(packet, block);
    if frame.seqNum > packet.seqNum && !SeqBefore(frame.seqNum, r.nextSeq) && frame.seqNum !in r.buffer
    then 1 else 0
  }

  function MissedIn(r: Receiver, packet: MediaPacket, blocks: seq<RedBlock>): nat
    decreases |blocks|
  {
    if blocks == [] then 0
    else Missed(r, packet, blocks[0]) + MissedIn(PushBlock(r, packet, blocks[0]), packet, blocks[1..])
  }

  function MissedByPush(r: Receiver, packet: MediaPacket): nat {
    if packet.payloadType != RED then 0
    else
      match Unpack(packet.payload, packet.timestamp)
      case Err(_) => 0
      case Ok(blocks) => MissedIn(Admit(r, packet.seqNum), packet, blocks)
  }

  /** One block adds one frame for each recovery counted or missed, and one if it is the primary. */
  lemma BlockCounts(r: Receiver, packet: MediaPacket, block: RedBlock)
    requires r.initialized
    ensures var r', seqNum := PushBlock(r, packet, block), FrameOf(packet, block).seqNum;
            && (seqNum != packet.seqNum ==>
                  |r'.buffer| + r.recovered == |r.buffer| + r'.recovered + Missed(r, packet, block)
                  && (packet.seqNum in r'.buffer <==> packet.seqNum in r.buffer))
            && (seqNum == packet.seqNum && seqNum !in r.buffer && !SeqBefore(seqNum, r.nextSeq) ==>
                  |r'.buffer| == |r.buffer| + 1 && r'.recovered == r.recovered && Missed(r, packet, block) == 0)
            && r'.nextSeq == r.nextSeq && r'.initialized && r'.lost == r.lost
  {
    var r', frame := PushBlock(r, packet, block), FrameOf(packet, block);
    if frame.seqNum !in r.buffer && !SeqBefore(frame.seqNum, r.nextSeq) {
      assert r'.buffer.Keys == r.buffer.Keys + {frame.seqNum};
    } else {
      assert r'.buffer.Keys == r.buffer.Keys;
    }
    assert |r'.buffer| == |r'.buffer.Keys| && |r.buffer| == |r.buffer.Keys|;
  }

  lemma {:induction false} BlocksCount(r: Receiver, packet: MediaPacket, frames: seq<Bytes>, lo: nat, j: nat)
    requires r.initialized
    requires lo <= j < |frames| && j - lo < 0x1_0000
    requires packet.seqNum == Seq16(j) && packet.timestamp == Time32(j)
    requires Seq16(j) !in r.buffer && !SeqBefore(Seq16(j), r.nextSeq)
    ensures var blocks := BlocksOf(FramePackets(frames, lo, j + 1));
            var r' := PushBlocks(r, packet, blocks);
            && |r'.buffer| + r.recovered == |r.buffer| + r'.recovered + MissedIn(r, packet, blocks) + 1
            && r'.lost == r.lost
    decreases j - lo
  {
    hide FrameOf, Missed, SeqBefore, PushBlock;
    var block := BlockOf(FramePacket(frames, lo));
    BlockIsItsFrame(frames, packet, lo, j);
    BlockCounts(r, packet, block);
    var rest := BlocksOf(FramePackets(frames, lo + 1, j + 1));
    assert BlocksOf(FramePackets(frames, lo, j + 1)) == [block] + rest;
    assert ([block] + rest)[1..] == rest;
    if lo >= j {
    } else {
      Seq16Differs(lo, j);
      BlocksCount(PushBlock(r, packet, block), packet, frames, lo + 1, j);
    }
  }

  lemma Seq16Differs(i: nat, j: nat)
    requires i < j < i + 0x1_0000
    ensures Seq16(i) != Seq16(j)
  {
    DistOfIndices(i, j);
  }

  /** A packet whose own frame is new adds itself and what it recovers. */
  lemma PushCounts(r: Receiver, packet: MediaPacket, frames: seq<Bytes>, lo: nat, j: nat)
    requires lo <= j < |frames| && j - lo < 0x1_0000 && Carries(packet, frames, lo, j)
    requires Seq16(j) !in r.buffer && (r.initialized ==> !SeqBefore(Seq16(j), r.nextSeq))
    ensures var r' := PushStep(r, packet);
            && |r'.buffer| + r.recovered == |r.buffer| + r'.recovered + MissedByPush(r, packet) + 1
            && r'.lost == r.lost
  {
    var admitted := Admit(r, packet.seqNum);
    if packet.payloadType == OPUS {
      assert PushStep(r, packet).buffer.Keys == r.buffer.Keys + {packet.seqNum};
      assert |PushStep(r, packet).buffer| == |PushStep(r, packet).buffer.Keys| && |r.buffer| == |r.buffer.Keys|;
    } else {
      BlocksCount(admitted, packet, frames, lo, j);
    }
  }

  // ---------------------------------------------------------------- over a run

  /** Recoveries missed by the counter over in-order arrivals. */
  function MissedOver(stream: Stream, maxBufferSize: int, js: seq<nat>): nat
    requires Known(stream, js)
  {
    if js == [] then 0
    else
      var front, j := Before(js), js[|js| - 1];
      MissedOver(stream, maxBufferSize, front)
      + MissedByPush(ReceiveAll(stream, maxBufferSize, front).receiver, stream.packets[j])
  }

  /** Frames that entered the buffer: one for each arrival, one for each recovery. */
  ghost predicate Balanced(stream: Stream, maxBufferSize: int, js: seq<nat>)
    requires Known(stream, js)
  {
    var s := ReceiveAll(stream, maxBufferSize, js);
    && s.receiver.recovered + MissedOver(stream, maxBufferSize, js) + |js|
       == CountPlayed(s.out) + |s.receiver.buffer|
    && s.receiver.lost == |s.out| - CountPlayed(s.out)
  }

  lemma {:induction false} CountPlayedConcat(a: seq<PopResult>, b: seq<PopResult>)
    ensures CountPlayed(a + b) == CountPlayed(a) + CountPlayed(b)
  {
    if b == [] {
      assert a + b == a;
    } else {
      var n := |b| - 1;
      assert (a + b)[..|a + b| - 1] == a + b[..n];
      CountPlayedConcat(a, b[..n]);
    }
  }

  /** In order, the arriving packet's own frame is not there yet and not over. */
  lemma ArrivalIsNew(stream: Stream, js: seq<nat>, s: Session, j: nat)
    requires WellSent(stream) && InOrder(stream, js) && js != [] && Settled(stream, js, s)
    requires js[|js| - 1] < j <= Next(s) + 32768
    ensures Seq16(j) !in s.receiver.buffer && !SeqBefore(Seq16(j), s.receiver.nextSeq)
  {
    TurnsAhead(Next(s), j);
    assert !Has(s.receiver, j);
  }

  lemma ReceiveBalances(stream: Stream, maxBufferSize: int, js: seq<nat>)
    requires WellSent(stream) && InOrder(stream, js) && js != []
    requires Balanced(stream, maxBufferSize, Before(js))
    requires var r := ReceiveAll(stream, maxBufferSize, Before(js)).receiver;
             var j := js[|js| - 1];
             Seq16(j) !in r.buffer && (r.initialized ==> !SeqBefore(Seq16(j), r.nextSeq))
    ensures Balanced(stream, maxBufferSize, js)
  {
    hide Carries, Seq16, SeqBefore, PushStep, MissedByPush, Drain;
    var s, j := ReceiveAll(stream, maxBufferSize, Before(js)), js[|js| - 1];
    assert CarriesAt(stream, j);
    PushCounts(s.receiver, stream.packets[j], stream.frames, Oldest(stream, j), j);
    var r := PushStep(s.receiver, stream.packets[j]);
    DrainCounts(r, false);
    DrainLeavesLater(r, false);
    CountPlayedConcat(s.out, Drain(r, false).1);
  }

  lemma NothingBalances(stream: Stream, maxBufferSize: int)
    requires Known(stream, [])
    ensures Balanced(stream, maxBufferSize, [])
    ensures !ReceiveAll(stream, maxBufferSize, []).receiver.initialized
    ensures ReceiveAll(stream, maxBufferSize, []).receiver.buffer == map[]
  {
  }

  lemma {:induction false} AlwaysBalanced(stream: Stream, maxBufferSize: int, js: seq<nat>)
    requires WellSent(stream) && InOrder(stream, js)
    requires NeverFarAhead(stream, maxBufferSize, js)
    ensures Balanced(stream, maxBufferSize, js)
  {
    hide CarriesAt, Settled, Seq16, SeqBefore, Balanced, ReceiveAll;
    if js == [] {
      NothingBalances(stream, maxBufferSize);
    } else {
      var front := Before(js);
      FrontIsNear(stream, maxBufferSize, js);
      AlwaysBalanced(stream, maxBufferSize, front);
      if front != [] {
        AlwaysSettled(stream, maxBufferSize, front);
        ArrivalIsNew(stream, front, ReceiveAll(stream, maxBufferSize, front), js[|js| - 1]);
      } else {
        NothingBalances(stream, maxBufferSize);
      }
      ReceiveBalances(stream, maxBufferSize, js);
    }
  }

  // ---------------------------------------------------------------- undecided frames

  /** How many of the frames n..hi-1 are not in the buffer. */
  function Missing(r: Receiver, n: nat, hi: nat): nat
    requires n <= hi
    decreases hi - n
  {
    if n == hi then 0 else Missing(r, n, hi - 1) + if Has(r, hi - 1) then 0 else 1
  }

  ghost function Held(r: Receiver, n: nat, hi: nat): set<U16> {
    set x | n <= x < hi && Has(r, x) :: Seq16(x)
  }

  lemma {:induction false} HeldAndMissing(r: Receiver, n: nat, hi: nat)
    requires n <= hi <= n + 0x1_0000
    ensures |Held(r, n, hi)| + Missing(r, n, hi) == hi - n
    decreases hi - n
  {
    hide Seq16;
    if n >= hi {
    } else {
      HeldAndMissing(r, n, hi - 1);
      if Has(r, hi - 1) {
        forall x | n <= x < hi - 1
          ensures Seq16(x) != Seq16(hi - 1)
        {
          Seq16Differs(x, hi - 1);
        }
        assert Held(r, n, hi) == Held(r, n, hi - 1) + {Seq16(hi - 1)};
      } else {
        assert Held(r, n, hi) == Held(r, n, hi - 1);
      }
    }
  }

  /** The unwrapped index of a buffered frame. */
  lemma KeyIndex(r: Receiver, frames: seq<Bytes>, n: nat, k: U16) returns (x: nat)
    requires Linked(r, frames, n) && k in r.buffer
    ensures n <= x < n + 0x1_0000 && Seq16(x) == k
  {
    x := n + Dist(r.nextSeq, k);
    AtDist(r.nextSeq, k);
    AtIndex(n, Dist(r.nextSeq, k));
  }

  /** A settled buffer and the frames missing from it make up everything not yet decided. */
  lemma SettledMissing(stream: Stream, js: seq<nat>, s: Session)
    requires WellSent(stream) && InOrder(stream, js) && js != [] && Settled(stream, js, s)
    ensures |s.receiver.buffer| + Missing(s.receiver, Next(s), js[|js| - 1] + 1) == js[|js| - 1] + 1 - Next(s)
  {
    hide Truthful, Covered, CarriesAt, Seq16, Linked;
    var r, n, hi := s.receiver, Next(s), js[|js| - 1] + 1;
    HeldAndMissing(r, n, hi);
    forall k <- r.buffer
      ensures k in Held(r, n, hi)
    {
      var x := KeyIndex(r, stream.frames, n, k);
      assert Has(r, x);
    }
    assert Held(r, n, hi) == r.buffer.Keys;
    assert |r.buffer| == |r.buffer.Keys|;
  }

  // ---------------------------------------------------------------- how many recoveries are missed

  /** The frame is not buffered yet and its turn not over. */
  predicate Fresh(r: Receiver, x: int) {
    Seq16(x) !in r.buffer && !SeqBefore(Seq16(x), r.nextSeq)
  }

  function Max(a: int, b: int): int {
    if a > b then a else b
  }

  /** How many of the frames from lo on, all new from f on, lie before the last wrap at or before j. */
  function BeforeWrap(lo: int, f: int, j: nat): nat {
    Max(0, j - Seq16(j) - Max(lo, f))
  }

  lemma OneBlockMissed(r: Receiver, packet: MediaPacket, frames: seq<Bytes>, lo: nat, j: nat, f: int)
    requires lo <= j < |frames| && j - lo < 0x1_0000
    requires packet.seqNum == Seq16(j) && packet.timestamp == Time32(j)
    requires lo < j ==> (Fresh(r, lo) <==> lo >= f)
    ensures Missed(r, packet, BlockOf(FramePacket(frames, lo))) + BeforeWrap(lo + 1, f, j) == BeforeWrap(lo, f, j)
  {
    hide FrameOf, Time32, SeqBefore, FramePacket;
    BlockIsItsFrame(frames, packet, lo, j);
    assert FramePacket(frames, lo).seqNum == Seq16(lo) by { FrameNumber(frames, lo); }
    assert j == 0x1_0000 * (j / 0x1_0000) + Seq16(j);
    assert lo == 0x1_0000 * (lo / 0x1_0000) + Seq16(lo);
  }

  lemma FrameNumber(frames: seq<Bytes>, i: nat)
    requires i < |frames|
    ensures FramePacket(frames, i).seqNum == Seq16(i)
  {
  }

  lemma FreshStays(r: Receiver, packet: MediaPacket, frames: seq<Bytes>, lo: nat, j: nat, x: nat)
    requires lo < x <= j < |frames| && j - lo < 0x1_0000
    requires packet.seqNum == Seq16(j) && packet.timestamp == Time32(j)
    ensures Fresh(PushBlock(r, packet, BlockOf(FramePacket(frames, lo))), x) <==> Fresh(r, x)
  {
    BlockIsItsFrame(frames, packet, lo, j);
    Seq16Differs(lo, x);
    hide FrameOf, Time32, SeqBefore, Seq16;
  }

  /** Pushing frames lo..j misses exactly the new ones from before the wrap. */
  lemma {:induction false} MissedInExactly(
      r: Receiver, packet: MediaPacket, frames: seq<Bytes>, lo: nat, j: nat, f: int)
    requires lo <= j + 1 <= |frames| && j - lo < 0x1_0000
    requires packet.seqNum == Seq16(j) && packet.timestamp == Time32(j)
    requires forall x {:trigger Fresh(r, x)} :: lo <= x < j ==> (Fresh(r, x) <==> x >= f)
    ensures MissedIn(r, packet, BlocksOf(FramePackets(frames, lo, j + 1))) == BeforeWrap(lo, f, j)
    decreases j + 1 - lo
  {
    hide Seq16, Time32, SeqBefore, PushBlock, FrameOf, Fresh, Missed, FramePacket;
    if lo <= j {
      var block := BlockOf(FramePacket(frames, lo));
      var r1 := PushBlock(r, packet, block);
      var rest := BlocksOf(FramePackets(frames, lo + 1, j + 1));
      assert BlocksOf(FramePackets(frames, lo, j + 1)) == [block] + rest;
      assert ([block] + rest)[1..] == rest;
      OneBlockMissed(r, packet, frames, lo, j, f);
      forall x {:trigger Fresh(r1, x)} | lo + 1 <= x < j
        ensures Fresh(r1, x) <==> x >= f
      {
        FreshStays(r, packet, frames, lo, j, x);
      }
      MissedInExactly(r1, packet, frames, lo + 1, j, f);
    } else {
      NothingBeforeWrap(lo, f, j);
    }
  }

  lemma NothingBeforeWrap(lo: int, f: int, j: nat)
    requires lo >= j || f >= j
    ensures BeforeWrap(lo, f, j) == 0
  {
  }

  lemma MissedByPushExactly(r: Receiver, packet: MediaPacket, frames: seq<Bytes>, lo: nat, j: nat, f: int)
    requires lo <= j < |frames| && j - lo < 0x1_0000 && Carries(packet, frames, lo, j)
    requires var admitted := Admit(r, packet.seqNum);
             forall x {:trigger Fresh(admitted, x)} :: lo <= x < j ==> (Fresh(admitted, x) <==> x >= f)
    ensures MissedByPush(r, packet) == BeforeWrap(lo, f, j)
  {
    hide Fresh;
    if packet.payloadType == OPUS {
      NothingBeforeWrap(lo, f, j);
    } else {
      MissedInExactly(Admit(r, packet.seqNum), packet, frames, lo, j, f);
    }
  }

  /** The first packet misses nothing: whatever it repeats is over. */
  lemma FirstMissesNothing(stream: Stream, maxBufferSize: int, j: nat)
    requires WellSent(stream) && j < |stream.packets|
    ensures MissedByPush(NewReceiver(maxBufferSize), stream.packets[j]) == 0
  {
    assert CarriesAt(stream, j);
    var r := Admit(NewReceiver(maxBufferSize), stream.packets[j].seqNum);
    forall x {:trigger Fresh(r, x)} | Oldest(stream, j) <= x < j
      ensures !Fresh(r, x)
    {
      TurnsBehind(j, x);
    }
    MissedByPushExactly(NewReceiver(maxBufferSize), stream.packets[j], stream.frames, Oldest(stream, j), j, j);
    NothingBeforeWrap(Oldest(stream, j), j, j);
  }

  /** In order, exactly the frames after the previous arrival are new to the buffer. */
  lemma NewAfterLast(stream: Stream, js: seq<nat>, s: Session, x: int)
    requires WellSent(stream) && InOrder(stream, js) && |js| > 1 && Settled(stream, Before(js), s)
    requires var j := js[|js| - 1]; Oldest(stream, j) <= x < j <= Next(s) + 32768
    ensures Fresh(s.receiver, x) <==> x > js[|js| - 2]
  {
    hide Settled, Carries, Covered, SeqBefore;
    var n, front, j, last := Next(s), Before(js), js[|js| - 1], js[|js| - 2];
    assert front[|front| - 1] == last;
    assert CarriesAt(stream, j);
    if x < n {
      SettledHas(stream, front, s, n);
      TurnsBehind(n, x);
    } else {
      SettledHas(stream, front, s, x);
      TurnsAhead(n, x);
      CoveredIsStable(stream, js, x);
    }
  }

  lemma SettledHas(stream: Stream, js: seq<nat>, s: Session, x: int)
    requires WellSent(stream) && InOrder(stream, js) && js != [] && Settled(stream, js, s)
    requires Next(s) <= x < Next(s) + 0x1_0000
    ensures s.receiver.nextSeq == Seq16(Next(s)) && Next(s) <= js[|js| - 1] + 1
    ensures Seq16(x) in s.receiver.buffer <==> x <= js[|js| - 1] && Covered(stream, js, x)
  {
    hide CarriesAt, Covered, Truthful;
    assert Has(s.receiver, x) <==> x <= js[|js| - 1] && Covered(stream, js, x);
  }

  lemma NextMisses(stream: Stream, js: seq<nat>, s: Session)
    requires WellSent(stream) && InOrder(stream, js) && |js| > 1 && Settled(stream, Before(js), s)
    requires js[|js| - 1] <= Next(s) + 32768
    ensures MissedByPush(s.receiver, stream.packets[js[|js| - 1]]) == UncountedAt(stream, js, |js| - 1)
  {
    hide Fresh, Settled, SeqBefore, MissedByPush, Carries, BeforeWrap;
    var j, last := js[|js| - 1], js[|js| - 2];
    var r := s.receiver;
    InitializedWhenSettled(stream, Before(js), s);
    assert CarriesAt(stream, j);
    var admitted := Admit(r, stream.packets[j].seqNum);
    forall x {:trigger Fresh(admitted, x)} | Oldest(stream, j) <= x < j
      ensures Fresh(admitted, x) <==> x >= last + 1
    {
      NewAfterLast(stream, js, s, x);
      FreshWhenAdmitted(r, stream.packets[j].seqNum, x);
    }
    MissedByPushExactly(r, stream.packets[j], stream.frames, Oldest(stream, j), j, last + 1);
  }

  lemma FreshWhenAdmitted(r: Receiver, seqNum: U16, x: int)
    requires r.initialized
    ensures Fresh(Admit(r, seqNum), x) <==> Fresh(r, x)
  {
  }

  /** The recoveries that arrival k brings from before a wrap, worked out from the arrivals alone. */
  function UncountedAt(stream: Stream, js: seq<nat>, k: nat): nat
    requires Known(stream, js) && 0 < k < |js|
  {
    BeforeWrap(Oldest(stream, js[k]), js[k - 1] + 1, js[k])
  }

  function Uncounted(stream: Stream, js: seq<nat>): nat
    requires Known(stream, js)
  {
    if |js| <= 1 then 0 else Uncounted(stream, Before(js)) + UncountedAt(stream, js, |js| - 1)
  }

  /**
   * What the recovery counter misses, exactly: over in-order arrivals, the frames that each arrival
   * recovers from before the wrap it has crossed.
   */
  lemma {:induction false} MissedExactly(stream: Stream, maxBufferSize: int, js: seq<nat>)
    requires WellSent(stream) && InOrder(stream, js)
    requires NeverFarAhead(stream, maxBufferSize, js)
    ensures MissedOver(stream, maxBufferSize, js) == Uncounted(stream, js)
  {
    hide WellSent, Settled, MissedByPush, UncountedAt, ReceiveAll;
    if js == [] {
    } else {
      var front := Before(js);
      FrontIsNear(stream, maxBufferSize, js);
      MissedExactly(stream, maxBufferSize, front);
      if front == [] {
        NothingBalances(stream, maxBufferSize);
        NothingReceived(stream, maxBufferSize);
        FirstMissesNothing(stream, maxBufferSize, js[0]);
      } else {
        AlwaysSettled(stream, maxBufferSize, front);
        NextMisses(stream, js, ReceiveAll(stream, maxBufferSize, front));
      }
    }
  }

  lemma NothingReceived(stream: Stream, maxBufferSize: int)
    requires Known(stream, [])
    ensures ReceiveAll(stream, maxBufferSize, []) == NewSession(maxBufferSize)
  {
  }

  /** Arrival k recovers nothing from before a wrap: it repeats nothing from there, or nothing new. */
  predicate CounterSees(stream: Stream, js: seq<nat>, k: nat)
    requires Known(stream, js) && 0 < k < |js|
  {
    Seq16(js[k]) >= stream.reach[js[k]] || Seq16(js[k]) + js[k - 1] + 1 >= js[k]
  }

  lemma {:induction false} UncountedZero(stream: Stream, js: seq<nat>)
    requires Known(stream, js)
    ensures Uncounted(stream, js) == 0 <==> forall k :: 0 < k < |js| ==> CounterSees(stream, js, k)
  {
    if |js| <= 1 {
    } else {
      var front, last := Before(js), |js| - 1;
      UncountedZero(stream, front);
      assert UncountedAt(stream, js, last) == 0 <==> CounterSees(stream, js, last);
      hide UncountedAt, Seq16;
      assert forall k :: 0 < k < |front| ==> CounterSees(stream, front, k) == CounterSees(stream, js, k);
    }
  }

  /**
   * When the counter is right: the recovery counter misses nothing if and only if no arrival recovers
   * a frame from before a wrap, that is, repeats frames from there that lie after the arrival before.
   */
  lemma NothingMissed(stream: Stream, maxBufferSize: int, js: seq<nat>)
    requires WellSent(stream) && InOrder(stream, js)
    requires NeverFarAhead(stream, maxBufferSize, js)
    ensures MissedOver(stream, maxBufferSize, js) == 0
            <==> forall k :: 0 < k < |js| ==> CounterSees(stream, js, k)
  {
    hide CounterSees, MissedOver, Uncounted, WellSent, Increasing, Known, NeverFarAhead;
    MissedExactly(stream, maxBufferSize, js);
    UncountedZero(stream, js);
  }

  // ---------------------------------------------------------------- conservation

  /**
   * Loss conservation across components. Any subset of the packets of a stream arrives in order at
   * feedback engine and receiver, none more than 32768 turns ahead of the output, with gaps the
   * engine can see. Then every packet the engine counts as lost in the network is accounted for
   * once: its frame was recovered (and counted, or missed by the counter across a wrap), or its loss
   * was announced, or it is not decided yet. So the receiver never announces more losses than the
   * network caused.
   */
  lemma LossConservation(stream: Stream, maxBufferSize: int, ssrc: U32, js: seq<nat>, clock: seq<int>)
    requires WellSent(stream) && InOrder(stream, js) && |clock| == |js| > 0
    requires NeverFarAhead(stream, maxBufferSize, js)
    requires forall k :: 0 < k < |js| ==> GapCounted(js[k - 1], js[k])
    ensures var s, e := ReceiveAll(stream, maxBufferSize, js), EngineAfter(ssrc, js, clock);
            && Next(s) <= js[|js| - 1] + 1
            && e.packetsLost == s.receiver.recovered + Uncounted(stream, js)
                                + s.receiver.lost + Missing(s.receiver, Next(s), js[|js| - 1] + 1)
            && s.receiver.lost <= e.packetsLost
  {
    hide Settled, GapCounted, WellSent, Known, Uncounted;
    EngineCountsExactly(ssrc, js, clock);
    AlwaysSettled(stream, maxBufferSize, js);
    AlwaysBalanced(stream, maxBufferSize, js);
    MissedExactly(stream, maxBufferSize, js);
    var s := ReceiveAll(stream, maxBufferSize, js);
    SettledMeans(stream, js, s);
    SettledMissing(stream, js, s);
  }

  /**
   * The counters alone balance, network losses against frames recovered, announced and undecided, if
   * and only if no arrival recovers a frame from before a wrap.
   */
  lemma CountersBalanceExactly(stream: Stream, maxBufferSize: int, ssrc: U32, js: seq<nat>, clock: seq<int>)
    requires WellSent(stream) && InOrder(stream, js) && |clock| == |js| > 0
    requires NeverFarAhead(stream, maxBufferSize, js)
    requires forall k :: 0 < k < |js| ==> GapCounted(js[k - 1], js[k])
    ensures var s, e := ReceiveAll(stream, maxBufferSize, js), EngineAfter(ssrc, js, clock);
            && Next(s) <= js[|js| - 1] + 1
            && (e.packetsLost == s.receiver.recovered + s.receiver.lost
                                 + Missing(s.receiver, Next(s), js[|js| - 1] + 1)
                <==> forall k :: 0 < k < |js| ==> CounterSees(stream, js, k))
  {
    hide CounterSees, GapCounted, WellSent, Known, Uncounted, ReceiveAll, EngineAfter, Missing;
    LossConservation(stream, maxBufferSize, ssrc, js, clock);
    UncountedZero(stream, js);
  }
}
