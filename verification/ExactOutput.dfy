/**
 * What the recovery buffer hands out, for every interleaving of arbitrary packets and requests: told
 * by the frames that the packets offer, well-formed or not.
 */
module ExactOutput {
  import opened Basics
  import opened RedCodec
  import opened RedReceiving
  import opened RedOutput

  // ---------------------------------------------------------------- offers

  function FramesOf(packet: MediaPacket, blocks: seq<RedBlock>): seq<MediaPacket> {
    if blocks == [] then [] else [FrameOf(packet, blocks[0])] + FramesOf(packet, blocks[1..])
  }

  /**
   * The frames that a packet offers: a bare packet itself, the blocks of a RED packet, and of a RED
   * packet that does not unpack its payload as it is; nothing for any other payload type.
   */
  function OffersOf(packet: MediaPacket): seq<MediaPacket> {
    if packet.payloadType != OPUS && packet.payloadType != RED then []
    else if packet.payloadType == RED && Unpack(packet.payload, packet.timestamp).Ok? then
      FramesOf(packet, Unpack(packet.payload, packet.timestamp).value)
    else [packet.(payloadType := OPUS)]
  }

  /** A frame, and how many results were out when it was offered. */
  datatype Offer = Offer(frame: MediaPacket, turn: nat)

  function AtTurn(frames: seq<MediaPacket>, turn: nat): seq<Offer> {
    if frames == [] then [] else [Offer(frames[0], turn)] + AtTurn(frames[1..], turn)
  }

  function Offered(maxBufferSize: int, events: seq<Event>): seq<Offer> {
    if events == [] then []
    else
      var front, last := events[..|events| - 1], events[|events| - 1];
      Offered(maxBufferSize, front)
      + if last.Arrive? then AtTurn(OffersOf(last.packet), |RunEvents(maxBufferSize, front).out|) else []
  }

  /** The offer is for turn x: it has its number, and the turn is not over and at most 32768 away. */
  predicate IsFor(offer: Offer, first: U16, x: nat) {
    offer.frame.seqNum == Seq16(first + x) && offer.turn <= x <= offer.turn + 32768
  }

  /** Where the log holds the last offer for turn x, or -1. */
  function LatestAt(log: seq<Offer>, first: U16, x: nat): (i: int)
    ensures -1 <= i < |log|
  {
    if log == [] then -1
    else if IsFor(log[|log| - 1], first, x) then |log| - 1
    else LatestAt(log[..|log| - 1], first, x)
  }

  function Latest(log: seq<Offer>, first: U16, x: nat): Option<MediaPacket> {
    var i := LatestAt(log, first, x);
    if i < 0 then None else Some(log[i].frame)
  }

  // ---------------------------------------------------------------- what is held and handed out

  predicate SaysLatest(result: PopResult, log: seq<Offer>, first: U16, x: nat) {
    result == if Latest(log, first, x).Some? then Played(Latest(log, first, x).value) else Skipped(Seq16(first + x))
  }

  /** Under the number of turn x lies the last frame offered for it. */
  predicate KeepsLatest(buffer: map<U16, MediaPacket>, log: seq<Offer>, first: U16, x: nat) {
    var k := Seq16(first + x);
    if k in buffer then Latest(log, first, x) == Some(buffer[k]) else Latest(log, first, x) == None
  }

  /** The receiver at turn n holds the last offers for the turns to come. */
  ghost predicate HoldsLatest(r: Receiver, log: seq<Offer>, first: U16, n: nat) {
    && r.initialized && r.nextSeq == Seq16(first + n)
    && (forall x: nat :: n <= x <= n + 32768 ==> KeepsLatest(r.buffer, log, first, x))
    && (forall offer <- log :: offer.turn <= n)
  }

  lemma LatestOneMore(log: seq<Offer>, offer: Offer, first: U16, x: nat)
    ensures LatestAt(log + [offer], first, x) == if IsFor(offer, first, x) then |log| else LatestAt(log, first, x)
  {
    assert (log + [offer])[..|log|] == log;
  }

  lemma InsertHolds(r: Receiver, log: seq<Offer>, first: U16, n: nat, frame: MediaPacket)
    requires HoldsLatest(r, log, first, n)
    ensures HoldsLatest(InsertStep(r, frame), log + [Offer(frame, n)], first, n)
  {
    hide Seq16, LatestAt, SeqBefore;
    var r', log' := InsertStep(r, frame), log + [Offer(frame, n)];
    forall x: nat | n <= x <= n + 32768
      ensures KeepsLatest(r'.buffer, log', first, x)
    {
      assert KeepsLatest(r.buffer, log, first, x);
      LatestOneMore(log, Offer(frame, n), first, x);
      TurnsAhead(first + n, first + x);
    }
  }

  lemma {:induction false} BlocksHold(
      r: Receiver, log: seq<Offer>, first: U16, n: nat, packet: MediaPacket, blocks: seq<RedBlock>)
    requires HoldsLatest(r, log, first, n)
    ensures HoldsLatest(PushBlocks(r, packet, blocks), log + AtTurn(FramesOf(packet, blocks), n), first, n)
    decreases |blocks|
  {
    hide HoldsLatest, InsertStep, FrameOf;
    var frames := FramesOf(packet, blocks);
    if blocks == [] {
      assert log + AtTurn(frames, n) == log;
    } else {
      var offer := Offer(frames[0], n);
      BlockHolds(r, log, first, n, packet, blocks[0]);
      BlocksHold(PushBlock(r, packet, blocks[0]), log + [offer], first, n, packet, blocks[1..]);
      assert frames[1..] == FramesOf(packet, blocks[1..]);
      Assoc(log, [offer], AtTurn(frames[1..], n));
    }
  }

  lemma BlockHolds(r: Receiver, log: seq<Offer>, first: U16, n: nat, packet: MediaPacket, block: RedBlock)
    requires HoldsLatest(r, log, first, n)
    ensures HoldsLatest(PushBlock(r, packet, block), log + [Offer(FrameOf(packet, block), n)], first, n)
  {
    hide FrameOf, CountsAsRecovered, InsertStep, KeepsLatest;
    var counted := r.(recovered := r.recovered + 1);
    assert HoldsLatest(counted, log, first, n);
    InsertHolds(r, log, first, n, FrameOf(packet, block));
    InsertHolds(counted, log, first, n, FrameOf(packet, block));
  }

  lemma AdmitHolds(r: Receiver, log: seq<Offer>, first: U16, n: nat, seqNum: U16)
    requires if r.initialized then HoldsLatest(r, log, first, n) else r.buffer == map[] && log == [] && n == 0
    ensures HoldsLatest(Admit(r, seqNum), log, if r.initialized then first else seqNum, n)
  {
    hide LatestAt;
    if r.initialized {
      assert forall x: nat :: n <= x <= n + 32768 ==> KeepsLatest(r.buffer, log, first, x);
    } else {
      NothingOffered(seqNum);
    }
  }

  lemma NothingOffered(first: U16)
    ensures forall x: nat :: LatestAt([], first, x) == -1
  {
  }

  lemma PushHolds(r: Receiver, log: seq<Offer>, first: U16, n: nat, packet: MediaPacket)
    requires if r.initialized then HoldsLatest(r, log, first, n) else r.buffer == map[] && log == [] && n == 0
    ensures HoldsLatest(PushStep(r, packet), log + AtTurn(OffersOf(packet), n),
                        if r.initialized then first else packet.seqNum, n)
  {
    hide HoldsLatest, Unpack, InsertStep, Admit;
    var first' := if r.initialized then first else packet.seqNum;
    var r' := Admit(r, packet.seqNum);
    AdmitHolds(r, log, first, n, packet.seqNum);
    if packet.payloadType != OPUS && packet.payloadType != RED {
      assert log + AtTurn(OffersOf(packet), n) == log;
    } else if packet.payloadType == RED && Unpack(packet.payload, packet.timestamp).Ok? {
      BlocksHold(r', log, first', n, packet, Unpack(packet.payload, packet.timestamp).value);
    } else {
      var frame := packet.(payloadType := OPUS);
      InsertHolds(r', log, first', n, frame);
      assert AtTurn([frame], n) == [Offer(frame, n)];
    }
  }

  lemma {:induction false} OverIsOver(log: seq<Offer>, frames: seq<MediaPacket>, first: U16, n: nat, x: nat)
    requires x < n
    ensures LatestAt(log + AtTurn(frames, n), first, x) == LatestAt(log, first, x)
    decreases |frames|
  {
    if frames == [] {
      assert log + AtTurn(frames, n) == log;
    } else {
      var offer := Offer(frames[0], n);
      OverIsOver(log + [offer], frames[1..], first, n, x);
      LatestOneMore(log, offer, first, x);
      Assoc(log, [offer], AtTurn(frames[1..], n));
    }
  }

  lemma {:induction false} TooEarly(log: seq<Offer>, first: U16, n: nat, x: nat)
    requires (forall offer <- log :: offer.turn <= n) && x > n + 32768
    ensures LatestAt(log, first, x) == -1
  {
    if log == [] {
    } else {
      assert log[|log| - 1] in log;
      TooEarly(log[..|log| - 1], first, n, x);
    }
  }

  lemma NextNumber(n: nat)
    ensures (Seq16(n) + 1) % 0x1_0000 == Seq16(n + 1)
  {
  }

  /** A request hands out the latest offer for its turn, or announces that there was none. */
  lemma PopHolds(r: Receiver, log: seq<Offer>, first: U16, n: nat, force: bool)
    requires HoldsLatest(r, log, first, n) && Sound(r)
    ensures var (r', result) := PopStep(r, force);
            if result.Nothing? then HoldsLatest(r', log, first, n)
            else HoldsLatest(r', log, first, n + 1) && SaysLatest(result, log, first, n)
  {
    hide LatestAt, Seq16, SeqBefore;
    var (r', result) := PopStep(r, force);
    assert KeepsLatest(r.buffer, log, first, n);
    if !result.Nothing? {
      NextNumber(first + n);
      forall x: nat | n + 1 <= x <= n + 1 + 32768
        ensures KeepsLatest(r'.buffer, log, first, x)
      {
        TurnsAhead(first + n, first + x);
        if x <= n + 32768 {
          assert KeepsLatest(r.buffer, log, first, x);
        } else {
          TooEarly(log, first, n, x);
        }
      }
    }
  }

  // ---------------------------------------------------------------- every run

  ghost predicate Explained(run: Run, log: seq<Offer>) {
    && Sound(run.receiver)
    && (if run.receiver.initialized then HoldsLatest(run.receiver, log, run.first, |run.out|)
        else run.receiver.buffer == map[] && log == [] && run.out == [])
    && forall x :: 0 <= x < |run.out| ==> SaysLatest(run.out[x], log, run.first, x)
  }

  lemma ArriveExplained(run: Run, log: seq<Offer>, packet: MediaPacket)
    requires Explained(run, log)
    ensures Explained(Handle(run, Arrive(packet)), log + AtTurn(OffersOf(packet), |run.out|))
  {
    hide HoldsLatest, SaysLatest, PushStep, Sound, OffersOf;
    var n := |run.out|;
    PushSound(run.receiver, packet);
    PushKeepsKeys(run.receiver, packet);
    PushHolds(run.receiver, log, run.first, n, packet);
    forall x | 0 <= x < n
      ensures SaysLatest(run.out[x], log + AtTurn(OffersOf(packet), n), run.first, x)
    {
      SaysStill(run.out[x], log, OffersOf(packet), run.first, n, x);
    }
  }

  lemma AskExplained(run: Run, log: seq<Offer>, force: bool)
    requires Explained(run, log)
    ensures Explained(Handle(run, Ask(force)), log)
  {
    hide HoldsLatest, SaysLatest, PopStep, Sound;
    PopSound(run.receiver, force);
    PopStays(run.receiver, force);
    if run.receiver.initialized {
      PopHolds(run.receiver, log, run.first, |run.out|, force);
    }
  }

  /**
   * The output, exactly, for every interleaving of arbitrary packets and requests: the result for turn
   * x is the last frame that was offered with the number of turn x while that turn was not over and at
   * most 32768 away, and a notice of loss if there was none; what waits for later turns is the last
   * frame offered for each of them.
   */
  lemma {:induction false} OutputIsLatest(maxBufferSize: int, events: seq<Event>)
    ensures Explained(RunEvents(maxBufferSize, events), Offered(maxBufferSize, events))
  {
    hide Explained, Handle, OffersOf;
    if events == [] {
      NothingExplained(maxBufferSize);
    } else {
      var front, last := events[..|events| - 1], events[|events| - 1];
      OutputIsLatest(maxBufferSize, front);
      var run, log := RunEvents(maxBufferSize, front), Offered(maxBufferSize, front);
      match last
      case Arrive(packet) => ArriveExplained(run, log, packet);
      case Ask(force) =>
        AskExplained(run, log, force);
        assert log + [] == log;
    }
  }

  lemma NothingExplained(maxBufferSize: int)
    ensures Explained(RunEvents(maxBufferSize, []), [])
  {
  }

  lemma PopStays(r: Receiver, force: bool)
    ensures PopStep(r, force).0.initialized == r.initialized
    ensures !r.initialized ==> PopStep(r, force) == (r, Nothing)
  {
  }

  lemma SaysStill(
      result: PopResult, log: seq<Offer>, frames: seq<MediaPacket>, first: U16, n: nat, x: nat)
    requires x < n && SaysLatest(result, log, first, x)
    ensures SaysLatest(result, log + AtTurn(frames, n), first, x)
  {
    OverIsOver(log, frames, first, n, x);
  }

  // ---------------------------------------------------------------- when a request waits

  /** The turns from n on for which something was offered. */
  function TurnsOffered(log: seq<Offer>, first: U16, n: nat): set<nat> {
    set x: nat | n <= x <= n + 32768 && LatestAt(log, first, x) >= 0
  }

  lemma {:induction false} AsManyValues<A, B>(m: map<A, B>)
    requires forall a, b | a in m && b in m && a != b :: m[a] != m[b]
    ensures |m.Values| == |m|
    decreases |m|
  {
    if m == map[] {
      assert m.Values == {};
    } else {
      var a :| a in m;
      var rest := m - {a};
      AsManyValues(rest);
      forall v
        ensures v in m.Values <==> v in rest.Values + {m[a]}
      {
        if k :| k in m && m[k] == v {
          assert k == a || (k in rest && rest[k] == v);
        }
      }
      assert m.Values == rest.Values + {m[a]};
      assert m.Keys == rest.Keys + {a};
    }
  }

  /** The turn for which a key is buffered. */
  function TurnsOf(r: Receiver, n: nat): (turns: map<U16, nat>)
    ensures turns.Keys == r.buffer.Keys
  {
    map k | k in r.buffer :: n + Dist(r.nextSeq, k)
  }

  lemma BufferedTurns(r: Receiver, log: seq<Offer>, first: U16, n: nat)
    requires HoldsLatest(r, log, first, n) && Sound(r)
    ensures |r.buffer| == |TurnsOffered(log, first, n)|
  {
    hide LatestAt, Seq16, SeqBefore;
    var m, turns := TurnsOf(r, n), TurnsOffered(log, first, n);
    forall k <- m
      ensures m[k] in turns
    {
      AtThatTurn(first, n, k);
      assert KeepsLatest(r.buffer, log, first, m[k]);
    }
    forall x <- turns
      ensures x in m.Values
    {
      var k := Seq16(first + x);
      assert KeepsLatest(r.buffer, log, first, x);
      TurnsAhead(first + n, first + x);
      assert k in m && m[k] == x;
    }
    assert m.Values == turns;
    AsManyValues(m);
    assert |m| == |m.Keys| && |r.buffer| == |r.buffer.Keys|;
  }

  lemma AtThatTurn(first: U16, n: nat, k: U16)
    ensures Seq16(first + (n + Dist(Seq16(first + n), k))) == k
  {
    AtIndex(first + n, Dist(Seq16(first + n), k));
    AtDist(Seq16(first + n), k);
  }

  /**
   * When a request is answered, exactly: with a frame if and only if one was offered for the due turn;
   * otherwise with a notice if and only if frames were offered for later turns and the request is
   * forced or they are at least maxBufferSize; and with nothing in all other cases.
   */
  lemma AnsweredExactly(maxBufferSize: int, events: seq<Event>, force: bool)
    ensures var run, log := RunEvents(maxBufferSize, events), Offered(maxBufferSize, events);
            var n := |run.out|;
            var result := PopStep(run.receiver, force).1;
            && (result.Played? <==> log != [] && LatestAt(log, run.first, n) >= 0)
            && (result.Skipped? <==>
                  && log != [] && LatestAt(log, run.first, n) < 0 && TurnsOffered(log, run.first, n) != {}
                  && (force || |TurnsOffered(log, run.first, n)| >= maxBufferSize))
  {
    hide LatestAt, Seq16;
    OutputIsLatest(maxBufferSize, events);
    SizeStays(maxBufferSize, events);
    var run, log := RunEvents(maxBufferSize, events), Offered(maxBufferSize, events);
    var n := |run.out|;
    if run.receiver.initialized {
      BufferedTurns(run.receiver, log, run.first, n);
      assert KeepsLatest(run.receiver.buffer, log, run.first, n);
      if log == [] {
        NothingOffered(run.first);
        assert TurnsOffered(log, run.first, n) == {};
      }
    }
  }

  lemma {:induction false} SizeStays(maxBufferSize: int, events: seq<Event>)
    ensures RunEvents(maxBufferSize, events).receiver.maxBufferSize == maxBufferSize
  {
    hide PushStep;
    if events == [] {
    } else {
      var front, last := events[..|events| - 1], events[|events| - 1];
      SizeStays(maxBufferSize, front);
      if last.Arrive? {
        PushKeepsKeys(RunEvents(maxBufferSize, front).receiver, last.packet);
      }
    }
  }

  // ---------------------------------------------------------------- the recovery counter

  function Repeat<T>(x: T, n: nat): (xs: seq<T>)
    ensures |xs| == n && forall k :: 0 <= k < n ==> xs[k] == x
  {
    if n == 0 then [] else [x] + Repeat(x, n - 1)
  }

  /** For each offered frame the number of the RED packet it was a block of. */
  function CarriersOf(packet: MediaPacket): (carriers: seq<Option<U16>>)
    ensures |carriers| == |OffersOf(packet)|
  {
    Repeat(if IsUnpacked(packet) then Some(packet.seqNum) else None, |OffersOf(packet)|)
  }

  predicate IsUnpacked(packet: MediaPacket) {
    packet.payloadType == RED && Unpack(packet.payload, packet.timestamp).Ok?
  }

  function Carried(events: seq<Event>): seq<Option<U16>> {
    if events == [] then []
    else
      var last := events[|events| - 1];
      Carried(events[..|events| - 1]) + if last.Arrive? then CarriersOf(last.packet) else []
  }

  /** The turn that an offer would be for, by its number. */
  function TurnFor(offer: Offer, first: U16): nat {
    offer.turn + Dist(Seq16(first + offer.turn), offer.frame.seqNum)
  }

  /** The first offer for its turn, from a packet with a larger number: what the counter takes for a recovery. */
  predicate Recovers(log: seq<Offer>, offer: Offer, carrier: Option<U16>, first: U16) {
    && carrier.Some? && offer.frame.seqNum < carrier.value
    && IsFor(offer, first, TurnFor(offer, first)) && LatestAt(log, first, TurnFor(offer, first)) < 0
  }

  function Recoveries(log: seq<Offer>, carriers: seq<Option<U16>>, first: U16): nat
    requires |carriers| == |log|
  {
    if log == [] then 0
    else
      var n := |log| - 1;
      Recoveries(log[..n], carriers[..n], first) + if Recovers(log[..n], log[n], carriers[n], first) then 1 else 0
  }

  lemma RecoveriesOneMore(
      log: seq<Offer>, carriers: seq<Option<U16>>, offer: Offer, carrier: Option<U16>, first: U16)
    requires |carriers| == |log|
    ensures Recoveries(log + [offer], carriers + [carrier], first)
            == Recoveries(log, carriers, first) + if Recovers(log, offer, carrier, first) then 1 else 0
  {
    assert (log + [offer])[..|log|] == log && (carriers + [carrier])[..|log|] == carriers;
  }

  lemma BlockRecovers(r: Receiver, log: seq<Offer>, first: U16, n: nat, packet: MediaPacket, block: RedBlock)
    requires HoldsLatest(r, log, first, n)
    ensures var frame := FrameOf(packet, block);
            CountsAsRecovered(r, packet, frame.seqNum)
            <==> Recovers(log, Offer(frame, n), Some(packet.seqNum), first)
  {
    hide LatestAt, Seq16, SeqBefore, FrameOf;
    var k := FrameOf(packet, block).seqNum;
    var x := n + Dist(Seq16(first + n), k);
    AtThatTurn(first, n, k);
    TurnsAhead(first + n, first + x);
    if x <= n + 32768 {
      assert KeepsLatest(r.buffer, log, first, x);
    }
  }

  lemma {:induction false} BlocksRecover(
      r: Receiver, log: seq<Offer>, carriers: seq<Option<U16>>, first: U16, n: nat, packet: MediaPacket,
      blocks: seq<RedBlock>)
    requires HoldsLatest(r, log, first, n) && |carriers| == |log|
    ensures |AtTurn(FramesOf(packet, blocks), n)| == |blocks|
    ensures PushBlocks(r, packet, blocks).recovered - r.recovered
            == Recoveries(log + AtTurn(FramesOf(packet, blocks), n),
                          carriers + Repeat(Some(packet.seqNum), |blocks|), first)
               - Recoveries(log, carriers, first)
    decreases |blocks|
  {
    hide HoldsLatest, FrameOf, CountsAsRecovered, Recovers, Recoveries;
    var frames, carrier := FramesOf(packet, blocks), Some(packet.seqNum);
    if blocks == [] {
      assert log + AtTurn(frames, n) == log && carriers + Repeat(carrier, 0) == carriers;
    } else {
      var offer, rest := Offer(frames[0], n), Repeat(carrier, |blocks| - 1);
      BlockHolds(r, log, first, n, packet, blocks[0]);
      BlockRecovers(r, log, first, n, packet, blocks[0]);
      RecoveriesOneMore(log, carriers, offer, carrier, first);
      var r1 := PushBlock(r, packet, blocks[0]);
      BlocksRecover(r1, log + [offer], carriers + [carrier], first, n, packet, blocks[1..]);
      assert frames[1..] == FramesOf(packet, blocks[1..]);
      Assoc(log, [offer], AtTurn(frames[1..], n));
      Assoc(carriers, [carrier], rest);
    }
  }

  lemma PushRecovers(
      r: Receiver, log: seq<Offer>, carriers: seq<Option<U16>>, first: U16, n: nat, packet: MediaPacket)
    requires if r.initialized then HoldsLatest(r, log, first, n) else r.buffer == map[] && log == [] && n == 0
    requires |carriers| == |log|
    ensures var first' := if r.initialized then first else packet.seqNum;
            var log', carriers' := log + AtTurn(OffersOf(packet), n), carriers + CarriersOf(packet);
            && |carriers'| == |log'|
            && PushStep(r, packet).recovered - r.recovered
               == Recoveries(log', carriers', first') - Recoveries(log, carriers, first')
  {
    hide HoldsLatest, Unpack, Recoveries, Recovers, PushBlocks;
    var first' := if r.initialized then first else packet.seqNum;
    var r', offers := Admit(r, packet.seqNum), OffersOf(packet);
    AdmitHolds(r, log, first, n, packet.seqNum);
    if IsUnpacked(packet) {
      var blocks := Unpack(packet.payload, packet.timestamp).value;
      BlocksRecover(r', log, carriers, first', n, packet, blocks);
      FramesCount(packet, blocks);
    } else if offers == [] {
      assert log + AtTurn(offers, n) == log && carriers + CarriersOf(packet) == carriers;
    } else {
      var offer := Offer(offers[0], n);
      assert AtTurn(offers, n) == [offer] && CarriersOf(packet) == [None];
      RecoveriesOneMore(log, carriers, offer, None, first');
      NoCarrier(log, offer, first');
    }
  }

  lemma {:induction false} FramesCount(packet: MediaPacket, blocks: seq<RedBlock>)
    ensures |FramesOf(packet, blocks)| == |blocks|
  {
    if blocks == [] {
    } else {
      FramesCount(packet, blocks[1..]);
    }
  }

  lemma NoCarrier(log: seq<Offer>, offer: Offer, first: U16)
    ensures !Recovers(log, offer, None, first)
  {
  }

  lemma PopKeepsRecovered(r: Receiver, force: bool)
    ensures PopStep(r, force).0.recovered == r.recovered
  {
  }

  /**
   * The recovery counter, exactly, over every interleaving of arbitrary packets and requests: it counts
   * the blocks of RED packets that were the first offer for their turn, in time for it, and whose number
   * is smaller than their packet's.
   */
  lemma {:induction false} CounterExactly(maxBufferSize: int, events: seq<Event>)
    ensures var run, log, carriers := RunEvents(maxBufferSize, events), Offered(maxBufferSize, events), Carried(events);
            |carriers| == |log| && run.receiver.recovered == Recoveries(log, carriers, run.first)
  {
    hide HoldsLatest, PushStep, PopStep, Sound, OffersOf, CarriersOf, Recovers, SaysLatest;
    if events == [] {
    } else {
      var front, last := events[..|events| - 1], events[|events| - 1];
      CounterExactly(maxBufferSize, front);
      OutputIsLatest(maxBufferSize, front);
      var run, log, carriers := RunEvents(maxBufferSize, front), Offered(maxBufferSize, front), Carried(front);
      match last
      case Arrive(packet) =>
        PushRecovers(run.receiver, log, carriers, run.first, |run.out|, packet);
      case Ask(force) =>
        PopKeepsRecovered(run.receiver, force);
        assert log + [] == log && carriers + [] == carriers;
    }
  }
}
