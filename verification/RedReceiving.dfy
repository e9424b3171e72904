/** The jitter and recovery buffer: RedReceiver of red.go. */
module RedReceiving {
  import opened Basics
  import opened RedCodec

  // ---------------------------------------------------------------- specification

  datatype Receiver = Receiver(
    buffer: map<U16, MediaPacket>,
    nextSeq: U16,
    initialized: bool,
    maxBufferSize: int,
    received: nat,
    lost: nat,
    recovered: nat)

  /** The three results of PopNext: nothing to hand out, a frame, or notice of a lost frame. */
  datatype PopResult = Nothing | Played(packet: MediaPacket) | Skipped(seqNum: U16)

  function NewReceiver(maxBufferSize: int): Receiver {
    Receiver(map[], 0, false, maxBufferSize, 0, 0, 0)
  }

  /** Keeps a frame unless its turn is over; an entry already there is overwritten. */
  function InsertStep(r: Receiver, packet: MediaPacket): Receiver {
    if r.initialized && SeqBefore(packet.seqNum, r.nextSeq) then r
    else r.(buffer := r.buffer[packet.seqNum := packet])
  }

  /** The frame that a block of a RED packet stands for, found from its timestamp. */
  function FrameOf(packet: MediaPacket, block: RedBlock): MediaPacket {
    var seqOffset := Sub32(packet.timestamp, block.timestamp) / FRAME_SAMPLES % 0x1_0000;
    MediaPacket(Dist(seqOffset, packet.seqNum), block.timestamp, OPUS, block.payload)
  }

  /** The counter's own notion of a recovered frame, with its plain comparison of numbers. */
  predicate CountsAsRecovered(r: Receiver, packet: MediaPacket, seqNum: U16) {
    && seqNum < packet.seqNum
    && (!r.initialized || !SeqBefore(seqNum, r.nextSeq))
    && seqNum !in r.buffer
  }

  function PushBlock(r: Receiver, packet: MediaPacket, block: RedBlock): Receiver {
    var frame := FrameOf(packet, block);
    InsertStep(if CountsAsRecovered(r, packet, frame.seqNum) then r.(recovered := r.recovered + 1) else r, frame)
  }

  function PushBlocks(r: Receiver, packet: MediaPacket, blocks: seq<RedBlock>): Receiver
    decreases |blocks|
  {
    if blocks == [] then r else PushBlocks(PushBlock(r, packet, blocks[0]), packet, blocks[1..])
  }

  /** The first packet ever seen decides where the output starts. */
  function Admit(r: Receiver, seqNum: U16): Receiver {
    r.(received := r.received + 1,
       nextSeq := if r.initialized then r.nextSeq else seqNum,
       initialized := true)
  }

  function PushStep(r: Receiver, packet: MediaPacket): Receiver {
    var r := Admit(r, packet.seqNum);
    if packet.payloadType == OPUS then InsertStep(r, packet)
    else if packet.payloadType == RED then
      match Unpack(packet.payload, packet.timestamp)
      case Err(_) => InsertStep(r, packet.(payloadType := OPUS))
      case Ok(blocks) => PushBlocks(r, packet, blocks)
    else r
  }

  function Advance(r: Receiver): Receiver {
    r.(nextSeq := (r.nextSeq + 1) % 0x1_0000)
  }

  function PopStep(r: Receiver, force: bool): (Receiver, PopResult) {
    if !r.initialized then (r, Nothing)
    else if r.nextSeq in r.buffer then
      (Advance(r.(buffer := r.buffer - {r.nextSeq})), Played(r.buffer[r.nextSeq]))
    else if (force || |r.buffer| >= r.maxBufferSize) && |r.buffer| > 0 then
      (Advance(r.(lost := r.lost + 1)), Skipped(r.nextSeq))
    else (r, Nothing)
  }

  // ---------------------------------------------------------------- the object

  class RedReceiver {
    var buffer: map<U16, MediaPacket>
    var nextSeq: U16
    var initialized: bool
    var maxBufferSize: int
    var packetsReceived: nat
    var packetsLost: nat
    var packetsRecovered: nat

    ghost function State(): Receiver
      reads this
    {
      Receiver(buffer, nextSeq, initialized, maxBufferSize, packetsReceived, packetsLost, packetsRecovered)
    }

    constructor (maxBufferSize: int)
      ensures State() == NewReceiver(maxBufferSize)
    {
      buffer := map[];
      nextSeq, initialized := 0, false;
      this.maxBufferSize := maxBufferSize;
      packetsReceived, packetsLost, packetsRecovered := 0, 0, 0;
    }

    method Insert(packet: MediaPacket)
      modifies this
      ensures State() == InsertStep(old(State()), packet)
    {
      if initialized && SeqBefore(packet.seqNum, nextSeq) {
        return;
      }
      buffer := buffer[packet.seqNum := packet];
    }

    method Push(packet: MediaPacket)
      modifies this
      ensures State() == PushStep(old(State()), packet)
    {
      packetsReceived := packetsReceived + 1;
      if !initialized {
        nextSeq := packet.seqNum;
        initialized := true;
      }
      if packet.payloadType == OPUS {
        Insert(packet);
        return;
      }
      if packet.payloadType == RED {
        var unpacked := UnpackRED(packet.payload, packet.timestamp);
        if unpacked.Err? {
          Insert(packet.(payloadType := OPUS));
          return;
        }
        InsertBlocks(packet, unpacked.value);
      }
    }

    /** red.go:289-314. */
    method InsertBlocks(packet: MediaPacket, blocks: seq<RedBlock>)
      modifies this
      ensures State() == PushBlocks(old(State()), packet, blocks)
    {
      for i := 0 to |blocks|
        invariant PushBlocks(State(), packet, blocks[i..]) == PushBlocks(old(State()), packet, blocks)
      {
        var block := blocks[i];
        var offsetSamples := Sub32(packet.timestamp, block.timestamp);
        var blockSeq := Dist(offsetSamples / FRAME_SAMPLES % 0x1_0000, packet.seqNum);
        assert blocks[i..][1..] == blocks[i + 1..];
        if blockSeq < packet.seqNum {
          if !initialized || !SeqBefore(blockSeq, nextSeq) {
            if blockSeq !in buffer {
              packetsRecovered := packetsRecovered + 1;
            }
          }
        }
        Insert(MediaPacket(blockSeq, block.timestamp, OPUS, block.payload));
      }
    }

    method PopNext(force: bool) returns (result: PopResult)
      modifies this
      ensures (State(), result) == PopStep(old(State()), force)
    {
      if !initialized {
        return Nothing;
      }
      if nextSeq in buffer {
        result := Played(buffer[nextSeq]);
        buffer := buffer - {nextSeq};
        nextSeq := (nextSeq + 1) % 0x1_0000;
        return;
      }
      if force || |buffer| >= maxBufferSize {
        var found, _ := FindOldest(buffer, nextSeq);
        if found {
          var lostSeq := nextSeq;
          packetsLost := packetsLost + 1;
          nextSeq := (nextSeq + 1) % 0x1_0000;
          return Skipped(lostSeq);
        }
      }
      return Nothing;
    }

    method Reset()
      modifies this
      ensures State() == NewReceiver(old(maxBufferSize))
    {
      buffer := map[];
      initialized, nextSeq := false, 0;
      packetsReceived, packetsLost, packetsRecovered := 0, 0, 0;
    }
  }

  // ---------------------------------------------------------------- the window

  /** Every buffered frame is due within half the sequence space, and is what its key says. */
  ghost predicate Sound(r: Receiver) {
    && (!r.initialized ==> r.buffer == map[])
    && (forall k <- r.buffer ::
          Dist(r.nextSeq, k) <= 32768 && r.buffer[k].seqNum == k && r.buffer[k].payloadType == OPUS)
  }

  lemma {:induction false} PushBlocksSound(r: Receiver, packet: MediaPacket, blocks: seq<RedBlock>)
    requires Sound(r) && r.initialized
    ensures Sound(PushBlocks(r, packet, blocks)) && PushBlocks(r, packet, blocks).initialized
    decreases |blocks|
  {
    if blocks == [] {
    } else {
      PushBlocksSound(PushBlock(r, packet, blocks[0]), packet, blocks[1..]);
    }
  }

  /** Arbitrary packets, well-formed or not, cannot break the window. */
  lemma PushSound(r: Receiver, packet: MediaPacket)
    requires Sound(r)
    ensures Sound(PushStep(r, packet))
  {
    if packet.payloadType == RED && Unpack(packet.payload, packet.timestamp).Ok? {
      PushBlocksSound(Admit(r, packet.seqNum), packet, Unpack(packet.payload, packet.timestamp).value);
    }
  }

  lemma PopSound(r: Receiver, force: bool)
    requires Sound(r)
    ensures Sound(PopStep(r, force).0)
  {
  }

  /**
   * On the buffer of a sound receiver the circular comparison is the order of arrival turns for
   * every pair of keys, if and only if it does not hold both the due frame and the one half a
   * sequence space later.
   */
  lemma OrderIsTotal(r: Receiver)
    requires Sound(r)
    ensures (forall a, b | a in r.buffer && b in r.buffer ::
               SeqBefore(a, b) <==> Dist(r.nextSeq, a) < Dist(r.nextSeq, b))
            <==> !(r.nextSeq in r.buffer && Dist(32768, r.nextSeq) in r.buffer)
  {
    if r.nextSeq in r.buffer && Dist(32768, r.nextSeq) in r.buffer {
      assert !SeqBefore(r.nextSeq, Dist(32768, r.nextSeq));
    }
  }

  /**
   * red.go:348-356, for any iteration order of the map. While the due frame is missing from a sound
   * buffer the loop ends on the frame with the nearest turn, the same one in every order.
   */
  method FindOldest(buffer: map<U16, MediaPacket>, ghost nextSeq: U16) returns (found: bool, oldestSeq: U16)
    ensures found <==> |buffer| > 0
    ensures found ==> oldestSeq in buffer
    ensures found && nextSeq !in buffer && (forall k <- buffer :: Dist(nextSeq, k) <= 32768) ==>
              forall k <- buffer :: k == oldestSeq || Dist(nextSeq, oldestSeq) < Dist(nextSeq, k)
  {
    oldestSeq, found := 0, false;
    var unvisited := buffer.Keys;
    while unvisited != {}
      invariant unvisited <= buffer.Keys
      invariant !found <==> unvisited == buffer.Keys
      invariant found ==> oldestSeq in buffer
      invariant found && nextSeq !in buffer && (forall k <- buffer :: Dist(nextSeq, k) <= 32768) ==>
                  forall k <- buffer.Keys - unvisited ::
                    k == oldestSeq || Dist(nextSeq, oldestSeq) < Dist(nextSeq, k)
      decreases unvisited
    {
      var seqNum :| seqNum in unvisited;
      unvisited := unvisited - {seqNum};
      if !found || SeqBefore(seqNum, oldestSeq) {
        oldestSeq := seqNum;
        found := true;
      }
    }
    assert |buffer| == |buffer.Keys|;
  }
}
