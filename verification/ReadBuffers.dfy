/**
 * The reading workers' buffers (rtp.go:130-151). A bare packet's payload, and that of a RED packet
 * that does not unpack, is not copied: while it waits it is a stretch of the buffer it was read into,
 * and the next datagram read into that buffer writes over it. Blocks of a RED packet are copies.
 */
module ReadBuffers {
  import opened Basics
  import opened RedCodec
  import opened RedReceiving
  import opened RedOutput
  import opened Wire
  import opened Feedback
  import opened RtpIngest

  /** How many workers read from the socket, each into a buffer of its own. */
  const READERS := 4

  /** A stretch of one reader's buffer. */
  datatype Slice = Slice(reader: nat, at: nat, len: nat)

  /**
   * The adapter, the contents of the read buffers, and for every waiting frame that was not copied
   * the stretch its payload is. The adapter's own state keeps the payload as it was received, for
   * reference: nothing but the decoder ever looks into a waiting payload.
   */
  datatype Shared = Shared(adapter: Adapter, refs: map<U16, Slice>, memory: seq<Bytes>)

  /** What reaches the decoder for one result: some bytes, or the order to conceal a loss. */
  datatype Heard = Decoded(bytes: Bytes) | Concealed

  /** A datagram, the worker that reads it, and the time. */
  datatype Arrival = Arrival(reader: nat, data: Bytes, nowMs: int)

  predicate MemoryFits(memory: seq<Bytes>) {
    |memory| == READERS && forall w :: 0 <= w < READERS ==> |memory[w]| == READ_BUFFER
  }

  predicate SliceFits(s: Slice) {
    s.reader < READERS && s.at + s.len <= READ_BUFFER
  }

  /** References are to waiting frames, and of the right length. */
  predicate RefsFit(refs: map<U16, Slice>, buffer: map<U16, MediaPacket>) {
    forall k <- refs :: SliceFits(refs[k]) && k in buffer && refs[k].len == |buffer[k].payload|
  }

  ghost predicate Valid(s: Shared) {
    Sane(s.adapter.engine) && MemoryFits(s.memory) && RefsFit(s.refs, s.adapter.receiver.buffer)
  }

  function Start(): Shared {
    Shared(Adapter(NewReceiver(8), NewEngine(0x1234_5678)), map[], seq(READERS, _ => seq(READ_BUFFER, _ => 0)))
  }

  // ---------------------------------------------------------------- reading a datagram

  /** A read fills the front of the buffer; what lies behind stays. */
  function Overwrite(buf: Bytes, data: Bytes): (buf': Bytes)
    requires |data| <= |buf|
    ensures |buf'| == |buf|
  {
    data + buf[|data|..]
  }

  function ReadInto(memory: seq<Bytes>, reader: nat, data: Bytes): (memory': seq<Bytes>)
    requires MemoryFits(memory) && reader < READERS && |data| <= READ_BUFFER
    ensures MemoryFits(memory')
  {
    memory[reader := Overwrite(memory[reader], data)]
  }

  function BytesAt(memory: seq<Bytes>, s: Slice): (bytes: Bytes)
    requires MemoryFits(memory) && SliceFits(s)
    ensures |bytes| == s.len
  {
    memory[s.reader][s.at..s.at + s.len]
  }

  /** insert, for a payload that is not copied: red.go:271, 280-285. */
  function Refer(refs: map<U16, Slice>, r: Receiver, seqNum: U16, s: Slice): map<U16, Slice> {
    if r.initialized && SeqBefore(seqNum, r.nextSeq) then refs else refs[seqNum := s]
  }

  /** The copied blocks of a packet take the place of references: red.go:308-313. */
  function ReferToCopies(refs: map<U16, Slice>, r: Receiver, m: MediaPacket, blocks: seq<RedBlock>): map<U16, Slice>
    decreases |blocks|
  {
    if blocks == [] then refs
    else
      var seqNum := FrameOf(m, blocks[0]).seqNum;
      var refs' := if r.initialized && SeqBefore(seqNum, r.nextSeq) then refs else refs - {seqNum};
      ReferToCopies(refs', PushBlock(r, m, blocks[0]), m, blocks[1..])
  }

  predicate IsCopied(m: MediaPacket) {
    m.payloadType == RED && Unpack(m.payload, m.timestamp).Ok?
  }

  function ReferAfterPush(refs: map<U16, Slice>, r: Receiver, m: MediaPacket, s: Slice): map<U16, Slice> {
    if !IsAudio(m) then refs
    else if IsCopied(m) then ReferToCopies(refs, Admit(r, m.seqNum), m, Unpack(m.payload, m.timestamp).value)
    else Refer(refs, Admit(r, m.seqNum), m.seqNum, s)
  }

  function Waiting(refs: map<U16, Slice>, buffer: map<U16, MediaPacket>): map<U16, Slice> {
    map k | k in refs && k in buffer :: refs[k]
  }

  function Hear(memory: seq<Bytes>, refs: map<U16, Slice>, result: PopResult): Heard
    requires MemoryFits(memory) && forall k <- refs :: SliceFits(refs[k])
  {
    match result
    case Played(packet) =>
      Decoded(if packet.seqNum in refs then BytesAt(memory, refs[packet.seqNum]) else packet.payload)
    case _ => Concealed
  }

  function HearAll(memory: seq<Bytes>, refs: map<U16, Slice>, out: seq<PopResult>): (heard: seq<Heard>)
    requires MemoryFits(memory) && forall k <- refs :: SliceFits(refs[k])
    ensures |heard| == |out|
    ensures forall k :: 0 <= k < |out| ==> heard[k] == Hear(memory, refs, out[k])
  {
    if out == [] then [] else [Hear(memory, refs, out[0])] + HearAll(memory, refs, out[1..])
  }

  /** Where the payload of an accepted datagram lies. */
  lemma PayloadIsTheEnd(data: Bytes)
    requires ParseRtp(data).Some?
    ensures var payload := ParseRtp(data).value.payload;
            0 < |payload| <= |data| - 12 && data[|data| - |payload|..] == payload
  {
  }

  /**
   * One turn of a reading worker as one step: the read, the adapter's work, and what the decoder gets to
   * hear. (Workers takes this step apart.)
   */
  function Read(s: Shared, a: Arrival): (Shared, seq<Heard>)
    requires Valid(s) && a.reader < READERS
  {
    var data := Datagram(a.data);
    var memory := ReadInto(s.memory, a.reader, data);
    match ParseRtp(data)
    case None => (s.(memory := memory), [])
    case Some(m) =>
      PayloadIsTheEnd(data);
      var outcome := Process(s.adapter, data, a.nowMs);
      var slice := Slice(a.reader, |data| - |m.payload|, |m.payload|);
      var refs := ReferAfterPush(s.refs, s.adapter.receiver, m, slice);
      ReferencesFit(s, m, slice);
      (Shared(outcome.adapter, Waiting(refs, outcome.adapter.receiver.buffer), memory),
       HearAll(memory, refs, outcome.out))
  }

  lemma {:induction false} ReferencesToCopiesFit(
      refs: map<U16, Slice>, r: Receiver, m: MediaPacket, blocks: seq<RedBlock>)
    requires RefsFit(refs, r.buffer)
    ensures RefsFit(ReferToCopies(refs, r, m, blocks), PushBlocks(r, m, blocks).buffer)
    decreases |blocks|
  {
    hide FrameOf, SeqBefore, SliceFits;
    if blocks == [] {
    } else {
      var seqNum := FrameOf(m, blocks[0]).seqNum;
      var refs' := if r.initialized && SeqBefore(seqNum, r.nextSeq) then refs else refs - {seqNum};
      ReferencesToCopiesFit(refs', PushBlock(r, m, blocks[0]), m, blocks[1..]);
    }
  }

  lemma ReferencesFit(s: Shared, m: MediaPacket, slice: Slice)
    requires Valid(s) && SliceFits(slice) && slice.len == |m.payload|
    ensures RefsFit(ReferAfterPush(s.refs, s.adapter.receiver, m, slice),
                    if IsAudio(m) then PushStep(s.adapter.receiver, m).buffer else s.adapter.receiver.buffer)
  {
    hide SeqBefore, SliceFits;
    if IsCopied(m) {
      ReferencesToCopiesFit(s.refs, Admit(s.adapter.receiver, m.seqNum), m, Unpack(m.payload, m.timestamp).value);
    }
  }

  /** Handing out frames leaves the references to the others in order. */
  lemma WaitingFits(refs: map<U16, Slice>, r: Receiver)
    requires RefsFit(refs, r.buffer)
    ensures RefsFit(Waiting(refs, Drain(r, false).0.buffer), Drain(r, false).0.buffer)
  {
    hide SliceFits, Drain;
    DrainLeavesLater(r, false);
  }

  lemma NoneLost(refs: map<U16, Slice>, buffer: map<U16, MediaPacket>)
    requires RefsFit(refs, buffer)
    ensures Waiting(refs, buffer) == refs
  {
  }

  lemma ReadIsValid(s: Shared, a: Arrival)
    requires Valid(s) && a.reader < READERS
    ensures Valid(Read(s, a).0)
    ensures Read(s, a).0.adapter == Process(s.adapter, Datagram(a.data), a.nowMs).adapter
  {
    hide RefsFit, Drain, PushStep, ReferAfterPush, ParseRtp, MemoryFits;
    var data := Datagram(a.data);
    ProcessIsSane(s.adapter, data, a.nowMs);
    if ParseRtp(data).Some? {
      var m := ParseRtp(data).value;
      PayloadIsTheEnd(data);
      var slice := Slice(a.reader, |data| - |m.payload|, |m.payload|);
      ReferencesFit(s, m, slice);
      var refs := ReferAfterPush(s.refs, s.adapter.receiver, m, slice);
      if IsAudio(m) {
        WaitingFits(refs, PushStep(s.adapter.receiver, m));
      } else {
        NoneLost(refs, s.adapter.receiver.buffer);
      }
    }
  }

  predicate ReadersKnown(arrivals: seq<Arrival>) {
    forall k :: 0 <= k < |arrivals| ==> arrivals[k].reader < READERS
  }

  /** Everything that happened from the start, and all that reached the decoder. */
  function ReadAll(arrivals: seq<Arrival>): (run: (Shared, seq<Heard>))
    requires ReadersKnown(arrivals)
    ensures Valid(run.0)
  {
    if arrivals == [] then (Start(), [])
    else
      var (s, heard) := ReadAll(arrivals[..|arrivals| - 1]);
      ReadIsValid(s, arrivals[|arrivals| - 1]);
      var (s', more) := Read(s, arrivals[|arrivals| - 1]);
      (s', heard + more)
  }

  /** What reached the decoder in the call for the last arrival. */
  function LastHeard(arrivals: seq<Arrival>): seq<Heard>
    requires ReadersKnown(arrivals) && arrivals != []
  {
    Read(ReadAll(arrivals[..|arrivals| - 1]).0, arrivals[|arrivals| - 1]).1
  }

  // ---------------------------------------------------------------- what a read does to a waiting frame

  /**
   * When a stretch survives a read, exactly: it belongs to another reader, or the datagram writes the
   * same bytes over it, as far as it reaches.
   */
  lemma StretchSurvivesExactly(memory: seq<Bytes>, reader: nat, data: Bytes, s: Slice)
    requires MemoryFits(memory) && reader < READERS && |data| <= READ_BUFFER && SliceFits(s)
    ensures BytesAt(ReadInto(memory, reader, data), s) == BytesAt(memory, s)
            <==> s.reader != reader
                 || forall x :: s.at <= x < s.at + s.len && x < |data| ==> data[x] == memory[reader][x]
  {
    var a, b := BytesAt(ReadInto(memory, reader, data), s), BytesAt(memory, s);
    if s.reader == reader {
      forall x | s.at <= x < s.at + s.len
        ensures a[x - s.at] == if x < |data| then data[x] else b[x - s.at]
      {
      }
      assert forall x :: s.at <= x < s.at + s.len ==> b[x - s.at] == memory[reader][x];
      if a == b {
        forall x | s.at <= x < s.at + s.len && x < |data|
          ensures data[x] == memory[reader][x]
        {
          assert a[x - s.at] == b[x - s.at];
        }
      }
    }
  }

  /** What has just been read is in place. */
  lemma JustRead(memory: seq<Bytes>, reader: nat, data: Bytes, at: nat)
    requires MemoryFits(memory) && reader < READERS && at <= |data| <= READ_BUFFER
    ensures BytesAt(ReadInto(memory, reader, data), Slice(reader, at, |data| - at)) == data[at..]
  {
    assert Overwrite(memory[reader], data)[at..|data|] == data[at..];
  }

  /** What is heard of a result whose payload is a copy. */
  function HeardOf(result: PopResult): Heard {
    if result.Played? then Decoded(result.packet.payload) else Concealed
  }

  /** What would be heard if every payload were a copy. */
  function HeardAs(out: seq<PopResult>): (heard: seq<Heard>)
    ensures |heard| == |out|
    ensures forall k :: 0 <= k < |out| ==> heard[k] == HeardOf(out[k])
  {
    if out == [] then [] else [HeardOf(out[0])] + HeardAs(out[1..])
  }

  lemma {:induction false} CopiesMakeNoReferences(r: Receiver, m: MediaPacket, blocks: seq<RedBlock>)
    ensures ReferToCopies(map[], r, m, blocks) == map[]
    decreases |blocks|
  {
    if blocks == [] {
    } else {
      var none: map<U16, Slice> := map[];
      assert none - {FrameOf(m, blocks[0]).seqNum} == none;
      CopiesMakeNoReferences(PushBlock(r, m, blocks[0]), m, blocks[1..]);
    }
  }

  /**
   * As long as only RED packets that unpack come in, buffers do not matter, whichever worker makes each
   * call, one call after another.
   */
  lemma CopiesAreHeardAsSent(s: Shared, a: Arrival)
    requires Valid(s) && a.reader < READERS && s.refs == map[]
    requires var parsed := ParseRtp(Datagram(a.data)); parsed.Some? && IsAudio(parsed.value) ==> IsCopied(parsed.value)
    ensures Read(s, a).0.refs == map[]
    ensures Read(s, a).1 == HeardAs(Process(s.adapter, Datagram(a.data), a.nowMs).out)
  {
    hide Drain, PushStep, IsCopied, ParseRtp;
    var parsed := ParseRtp(Datagram(a.data));
    if parsed.Some? {
      PayloadIsTheEnd(Datagram(a.data));
      var m := parsed.value;
      if IsAudio(m) {
        CopiesMakeNoReferences(Admit(s.adapter.receiver, m.seqNum), m, CopiedBlocks(m));
      }
    }
  }

  function CopiedBlocks(m: MediaPacket): seq<RedBlock>
    requires IsCopied(m)
  {
    Unpack(m.payload, m.timestamp).value
  }
}
