/**
 * What the decoder gets to hear, for any datagrams whatsoever, read by any workers one call after
 * another: for each turn the last frame offered for it, as the copy that was made of it or as what
 * lies by now in the buffer it was read into.
 */
module HeardExactly {
  import opened Basics
  import opened RedCodec
  import opened RedReceiving
  import opened RedOutput
  import opened ExactOutput
  import opened Wire
  import opened Feedback
  import opened RtpIngest
  import opened ReadBuffers

  // ---------------------------------------------------------------- the arrivals alone

  /** Where the payloads of the offered frames lie: blocks of a RED packet are copies. */
  function SlicesOf(m: MediaPacket, slice: Slice): (slices: seq<Option<Slice>>)
    ensures forall s <- slices :: s == None || s == Some(slice)
  {
    if !IsAudio(m) then []
    else if IsCopied(m) then Repeat(None, |CopiedBlocks(m)|)
    else [Some(slice)]
  }

  /** The last frame offered for turn x, from its copy or from the read buffers as they are now. */
  function Sounds(log: seq<Offer>, slices: seq<Option<Slice>>, first: U16, x: nat, memory: seq<Bytes>): Heard
    requires |slices| == |log| && MemoryFits(memory)
    requires forall s <- slices :: s.Some? ==> SliceFits(s.value)
  {
    var i := LatestAt(log, first, x);
    if i < 0 then Concealed
    else if slices[i].None? then Decoded(log[i].frame.payload)
    else Decoded(BytesAt(memory, slices[i].value))
  }

  /** The packet in a datagram, if it is one of the two audio types. */
  function AudioIn(a: Arrival): Option<MediaPacket> {
    var parsed := ParseRtp(Datagram(a.data));
    if parsed.Some? && IsAudio(parsed.value) then parsed else None
  }

  /** Where its payload lies once its datagram has been read. */
  function PayloadSlice(a: Arrival): (s: Slice)
    requires AudioIn(a).Some?
    ensures a.reader < READERS ==> SliceFits(s)
  {
    PayloadIsTheEnd(Datagram(a.data));
    var size := |AudioIn(a).value.payload|;
    Slice(a.reader, |Datagram(a.data)| - size, size)
  }

  /** All frames offered by these arrivals, each with the number of results that were out by then. */
  function OffersIn(arrivals: seq<Arrival>): seq<Offer>
    requires ReadersKnown(arrivals)
  {
    if arrivals == [] then []
    else
      var front, last := arrivals[..|arrivals| - 1], AudioIn(arrivals[|arrivals| - 1]);
      OffersIn(front) + if last.Some? then AtTurn(OffersOf(last.value), |ReadAll(front).1|) else []
  }

  function SlicesIn(arrivals: seq<Arrival>): seq<Option<Slice>> {
    if arrivals == [] then []
    else
      var front, last := arrivals[..|arrivals| - 1], arrivals[|arrivals| - 1];
      SlicesIn(front) + if AudioIn(last).Some? then SlicesOf(AudioIn(last).value, PayloadSlice(last)) else []
  }

  /** The number of the first audio packet. */
  function FirstIn(arrivals: seq<Arrival>): Option<U16> {
    if arrivals == [] then None
    else
      var before, last := FirstIn(arrivals[..|arrivals| - 1]), AudioIn(arrivals[|arrivals| - 1]);
      if before.Some? || last.None? then before else Some(last.value.seqNum)
  }

  /** The read buffers after these arrivals. */
  function MemoryAfter(arrivals: seq<Arrival>): (memory: seq<Bytes>)
    requires ReadersKnown(arrivals)
    ensures MemoryFits(memory)
  {
    if arrivals == [] then Start().memory
    else
      var last := arrivals[|arrivals| - 1];
      ReadInto(MemoryAfter(arrivals[..|arrivals| - 1]), last.reader, Datagram(last.data))
  }

  // ---------------------------------------------------------------- references and offers

  /** The frame waiting for turn x refers to the stretch of the last offer, if that was not a copy. */
  predicate RefersLatest(refs: map<U16, Slice>, log: seq<Offer>, slices: seq<Option<Slice>>, first: U16, x: nat)
    requires |slices| == |log|
  {
    var k, i := Seq16(first + x), LatestAt(log, first, x);
    if k in refs then i >= 0 && slices[i] == Some(refs[k]) else i < 0 || slices[i].None?
  }

  ghost predicate AllRefer(refs: map<U16, Slice>, log: seq<Offer>, slices: seq<Option<Slice>>, first: U16, n: nat) {
    && |slices| == |log|
    && (forall s <- slices :: s.Some? ==> SliceFits(s.value))
    && forall x: nat :: n <= x <= n + 32768 ==> RefersLatest(refs, log, slices, first, x)
  }

  /** What a stored frame does to the references: its own stretch, or none for a copy. */
  function Referring(refs: map<U16, Slice>, r: Receiver, seqNum: U16, s: Option<Slice>): map<U16, Slice> {
    if r.initialized && SeqBefore(seqNum, r.nextSeq) then refs
    else if s.Some? then refs[seqNum := s.value]
    else refs - {seqNum}
  }

  lemma OfferRefers(
      refs: map<U16, Slice>, r: Receiver, log: seq<Offer>, slices: seq<Option<Slice>>, first: U16, n: nat,
      frame: MediaPacket, s: Option<Slice>)
    requires AllRefer(refs, log, slices, first, n) && r.initialized && r.nextSeq == Seq16(first + n)
    requires s.Some? ==> SliceFits(s.value)
    ensures AllRefer(Referring(refs, r, frame.seqNum, s), log + [Offer(frame, n)], slices + [s], first, n)
  {
    hide Seq16, LatestAt, SeqBefore, SliceFits;
    var refs' := Referring(refs, r, frame.seqNum, s);
    forall x: nat | n <= x <= n + 32768
      ensures RefersLatest(refs', log + [Offer(frame, n)], slices + [s], first, x)
    {
      assert RefersLatest(refs, log, slices, first, x);
      LatestOneMore(log, Offer(frame, n), first, x);
      TurnsAhead(first + n, first + x);
    }
  }

  lemma {:induction false} BlocksRefer(
      refs: map<U16, Slice>, r: Receiver, log: seq<Offer>, slices: seq<Option<Slice>>, first: U16, n: nat,
      m: MediaPacket, blocks: seq<RedBlock>)
    requires AllRefer(refs, log, slices, first, n) && r.initialized && r.nextSeq == Seq16(first + n)
    ensures AllRefer(ReferToCopies(refs, r, m, blocks), log + AtTurn(FramesOf(m, blocks), n),
                     slices + Repeat<Option<Slice>>(None, |blocks|), first, n)
    decreases |blocks|
  {
    hide AllRefer, FrameOf, Seq16, SeqBefore, CountsAsRecovered;
    var frames := FramesOf(m, blocks);
    if blocks == [] {
      assert log + AtTurn(frames, n) == log && slices + Repeat<Option<Slice>>(None, 0) == slices;
    } else {
      var offer := Offer(frames[0], n);
      OfferRefers(refs, r, log, slices, first, n, frames[0], None);
      var refs' := Referring(refs, r, frames[0].seqNum, None);
      BlocksRefer(refs', PushBlock(r, m, blocks[0]), log + [offer], slices + [None], first, n, m, blocks[1..]);
      assert frames[1..] == FramesOf(m, blocks[1..]);
      Assoc(log, [offer], AtTurn(frames[1..], n));
      Assoc(slices, [None], Repeat<Option<Slice>>(None, |blocks| - 1));
    }
  }

  lemma PushRefers(
      refs: map<U16, Slice>, r: Receiver, log: seq<Offer>, slices: seq<Option<Slice>>, first: U16, n: nat,
      m: MediaPacket, slice: Slice)
    requires IsAudio(m) && SliceFits(slice) && AllRefer(refs, log, slices, first, n)
    requires Admit(r, m.seqNum).nextSeq == Seq16(first + n)
    ensures AllRefer(ReferAfterPush(refs, r, m, slice), log + AtTurn(OffersOf(m), n), slices + SlicesOf(m, slice),
                     first, n)
  {
    hide AllRefer, Seq16, SeqBefore, Unpack, SliceFits;
    var r' := Admit(r, m.seqNum);
    if IsCopied(m) {
      BlocksRefer(refs, r', log, slices, first, n, m, CopiedBlocks(m));
    } else {
      var frame := m.(payloadType := OPUS);
      OfferRefers(refs, r', log, slices, first, n, frame, Some(slice));
      assert AtTurn([frame], n) == [Offer(frame, n)];
    }
  }

  // ---------------------------------------------------------------- handing out

  lemma {:induction false} DrainHolds(r: Receiver, log: seq<Offer>, first: U16, n: nat)
    requires HoldsLatest(r, log, first, n) && Sound(r)
    ensures var (r', out) := Drain(r, false);
            && Sound(r') && HoldsLatest(r', log, first, n + |out|)
            && forall i :: 0 <= i < |out| ==> SaysLatest(out[i], log, first, n + i)
    decreases Span(r)
  {
    hide HoldsLatest, Sound, PopStep, SaysLatest;
    var (r1, result) := PopStep(r, false);
    PopHolds(r, log, first, n, false);
    PopSound(r, false);
    if !result.Nothing? {
      PopShrinksSpan(r, false);
      DrainHolds(r1, log, first, n + 1);
      var (r2, rest) := Drain(r1, false);
      forall i | 0 < i < |rest| + 1
        ensures SaysLatest(([result] + rest)[i], log, first, n + i)
      {
        assert SaysLatest(rest[i - 1], log, first, n + 1 + (i - 1));
      }
    }
  }

  lemma WaitingRefers(
      refs: map<U16, Slice>, buffer': map<U16, MediaPacket>, log: seq<Offer>, slices: seq<Option<Slice>>, first: U16,
      n: nat, n': nat)
    requires AllRefer(refs, log, slices, first, n) && n <= n'
    requires forall offer <- log :: offer.turn <= n
    requires forall x: nat :: n' <= x <= n' + 32768 ==> KeepsLatest(buffer', log, first, x)
    ensures AllRefer(Waiting(refs, buffer'), log, slices, first, n')
  {
    hide Seq16, LatestAt, SliceFits;
    forall x: nat | n' <= x <= n' + 32768
      ensures RefersLatest(Waiting(refs, buffer'), log, slices, first, x)
    {
      assert KeepsLatest(buffer', log, first, x);
      if x <= n + 32768 {
        assert RefersLatest(refs, log, slices, first, x);
      } else {
        TooEarly(log, first, n, x);
      }
    }
  }

  lemma {:induction false} LatestIsFor(log: seq<Offer>, first: U16, x: nat)
    ensures LatestAt(log, first, x) >= 0 ==> IsFor(log[LatestAt(log, first, x)], first, x)
  {
    if log == [] {
    } else {
      LatestIsFor(log[..|log| - 1], first, x);
    }
  }

  lemma ResultSounds(
      result: PopResult, refs: map<U16, Slice>, log: seq<Offer>, slices: seq<Option<Slice>>, first: U16, x: nat,
      memory: seq<Bytes>)
    requires |slices| == |log| && MemoryFits(memory)
    requires (forall s <- slices :: s.Some? ==> SliceFits(s.value)) && forall k <- refs :: SliceFits(refs[k])
    requires SaysLatest(result, log, first, x) && RefersLatest(refs, log, slices, first, x)
    ensures Hear(memory, refs, result) == Sounds(log, slices, first, x, memory)
  {
    hide LatestAt, SliceFits;
    LatestIsFor(log, first, x);
  }

  // ---------------------------------------------------------------- one call

  ghost predicate Told(s: Shared, log: seq<Offer>, slices: seq<Option<Slice>>, first: Option<U16>, n: nat) {
    && Valid(s) && Sound(s.adapter.receiver)
    && (if s.adapter.receiver.initialized then
          && first.Some? && HoldsLatest(s.adapter.receiver, log, first.value, n)
          && AllRefer(s.refs, log, slices, first.value, n)
        else s.adapter.receiver.buffer == map[] && log == [] && slices == [] && first == None && n == 0)
  }

  lemma NothingRefers(refs: map<U16, Slice>, first: U16)
    requires RefsFit(refs, map[])
    ensures AllRefer(refs, [], [], first, 0)
  {
  }

  /** An audio packet's part of a call, up to the results it makes ready. */
  lemma PushTold(s: Shared, log: seq<Offer>, slices: seq<Option<Slice>>, first: Option<U16>, n: nat,
                 m: MediaPacket, slice: Slice)
    requires Told(s, log, slices, first, n) && IsAudio(m) && SliceFits(slice)
    ensures var r, first' := s.adapter.receiver, if first.Some? then first.value else m.seqNum;
            && Sound(PushStep(r, m))
            && HoldsLatest(PushStep(r, m), log + AtTurn(OffersOf(m), n), first', n)
            && AllRefer(ReferAfterPush(s.refs, r, m, slice), log + AtTurn(OffersOf(m), n),
                        slices + SlicesOf(m, slice), first', n)
  {
    hide OffersOf, SlicesOf, PushStep, ReferAfterPush, RefersLatest, KeepsLatest, IsAudio, SliceFits, Sane, MemoryFits;
    var r := s.adapter.receiver;
    PushSound(r, m);
    if r.initialized {
      PushHolds(r, log, first.value, n, m);
      PushRefers(s.refs, r, log, slices, first.value, n, m, slice);
    } else {
      PushHolds(r, log, 0, n, m);
      NothingRefers(s.refs, m.seqNum);
      PushRefers(s.refs, r, log, slices, m.seqNum, n, m, slice);
    }
  }

  /** A call that brings an audio packet, as far as the receiver goes: push, then drain. */
  lemma AudioCall(s: Shared, a: Arrival)
    requires Valid(s) && a.reader < READERS && AudioIn(a).Some?
    ensures var m, slice := AudioIn(a).value, PayloadSlice(a);
            var (r', out) := Drain(PushStep(s.adapter.receiver, m), false);
            var refs := ReferAfterPush(s.refs, s.adapter.receiver, m, slice);
            var memory := ReadInto(s.memory, a.reader, Datagram(a.data));
            && (forall k <- refs :: SliceFits(refs[k]))
            && Read(s, a).0.adapter.receiver == r' && Read(s, a).0.memory == memory
            && Read(s, a).0.refs == Waiting(refs, r'.buffer)
            && Read(s, a).1 == HearAll(memory, refs, out)
  {
    hide Drain, PushStep, ReferAfterPush, ParseRtp, Waiting, SliceFits, MemoryFits, Sane, ArrivalStep, AfterReport;
    PayloadIsTheEnd(Datagram(a.data));
    ReferencesFit(s, AudioIn(a).value, PayloadSlice(a));
  }

  lemma OtherCall(s: Shared, a: Arrival)
    requires Valid(s) && a.reader < READERS && AudioIn(a).None?
    ensures Read(s, a).0.adapter == s.adapter && Read(s, a).0.refs == s.refs && Read(s, a).1 == []
    ensures Read(s, a).0.memory == ReadInto(s.memory, a.reader, Datagram(a.data))
  {
    hide ParseRtp, SliceFits, MemoryFits, Sane;
    NoneLost(s.refs, s.adapter.receiver.buffer);
  }

  lemma HeardSounds(
      memory: seq<Bytes>, refs: map<U16, Slice>, out: seq<PopResult>, log: seq<Offer>, slices: seq<Option<Slice>>,
      first: U16, n: nat)
    requires MemoryFits(memory) && (forall k <- refs :: SliceFits(refs[k]))
    requires AllRefer(refs, log, slices, first, n) && |out| <= 32769
    requires forall i :: 0 <= i < |out| ==> SaysLatest(out[i], log, first, n + i)
    ensures forall i :: 0 <= i < |out| ==> HearAll(memory, refs, out)[i] == Sounds(log, slices, first, n + i, memory)
  {
    hide SaysLatest, RefersLatest, Hear, Sounds, SliceFits, MemoryFits;
    forall i | 0 <= i < |out|
      ensures HearAll(memory, refs, out)[i] == Sounds(log, slices, first, n + i, memory)
    {
      assert RefersLatest(refs, log, slices, first, n + i);
      ResultSounds(out[i], refs, log, slices, first, n + i, memory);
    }
  }

  lemma CallTold(s: Shared, a: Arrival, log: seq<Offer>, slices: seq<Option<Slice>>, first: Option<U16>, n: nat)
    requires Told(s, log, slices, first, n) && a.reader < READERS && AudioIn(a).Some?
    ensures var m, (s', heard) := AudioIn(a).value, Read(s, a);
            var log', slices' := log + AtTurn(OffersOf(m), n), slices + SlicesOf(m, PayloadSlice(a));
            var first' := if first.Some? then first.value else m.seqNum;
            && Told(s', log', slices', Some(first'), n + |heard|)
            && |slices'| == |log'| && MemoryFits(s'.memory)
            && (forall slice <- slices' :: slice.Some? ==> SliceFits(slice.value))
            && forall i :: 0 <= i < |heard| ==> heard[i] == Sounds(log', slices', first', n + i, s'.memory)
  {
    hide AudioIn, PayloadSlice, PushStep, Drain, Read, ReferAfterPush, OffersOf, SlicesOf, HearAll, Sounds, SliceFits,
         RefersLatest, SaysLatest, KeepsLatest, Sound;
    var m, slice := AudioIn(a).value, PayloadSlice(a);
    var log', slices' := log + AtTurn(OffersOf(m), n), slices + SlicesOf(m, slice);
    var first' := if first.Some? then first.value else m.seqNum;
    assert IsAudio(m) by { AudioMeans(a); }
    var r := PushStep(s.adapter.receiver, m);
    var refs := ReferAfterPush(s.refs, s.adapter.receiver, m, slice);
    var (r', out) := Drain(r, false);
    PushTold(s, log, slices, first, n, m, slice);
    AudioCall(s, a);
    ReadIsValid(s, a);
    DrainHolds(r, log', first', n);
    DrainStops(r);
    HeardSounds(Read(s, a).0.memory, refs, out, log', slices', first', n);
    WaitingRefers(refs, r'.buffer, log', slices', first', n, n + |out|);
  }

  lemma AudioMeans(a: Arrival)
    requires AudioIn(a).Some?
    ensures IsAudio(AudioIn(a).value)
  {
  }

  // ---------------------------------------------------------------- every call

  lemma OtherTold(s: Shared, a: Arrival, log: seq<Offer>, slices: seq<Option<Slice>>, first: Option<U16>, n: nat)
    requires Told(s, log, slices, first, n) && a.reader < READERS && AudioIn(a).None?
    ensures Told(Read(s, a).0, log, slices, first, n) && Read(s, a).1 == []
    ensures Read(s, a).0.memory == ReadInto(s.memory, a.reader, Datagram(a.data))
  {
    hide HoldsLatest, AllRefer, RefsFit, AudioIn, Read, ReadInto, Sound;
    OtherCall(s, a);
    ReadIsValid(s, a);
  }

  lemma CallMemory(s: Shared, a: Arrival)
    requires Valid(s) && a.reader < READERS
    ensures Read(s, a).0.memory == ReadInto(s.memory, a.reader, Datagram(a.data))
  {
    hide ParseRtp, Process, ReadInto, HearAll, Waiting;
  }

  lemma {:induction false} AllTold(arrivals: seq<Arrival>)
    requires ReadersKnown(arrivals)
    ensures var (s, heard) := ReadAll(arrivals);
            && Told(s, OffersIn(arrivals), SlicesIn(arrivals), FirstIn(arrivals), |heard|)
            && s.memory == MemoryAfter(arrivals)
  {
    hide Told, Read, ReadInto, Valid, AudioIn, PayloadSlice, OffersOf, SlicesOf, AtTurn, Sounds;
    if arrivals == [] {
      StartTold();
    } else {
      var front, last := arrivals[..|arrivals| - 1], arrivals[|arrivals| - 1];
      AllTold(front);
      var (s, heard) := ReadAll(front);
      CallMemory(s, last);
      if AudioIn(last).Some? {
        CallTold(s, last, OffersIn(front), SlicesIn(front), FirstIn(front), |heard|);
      } else {
        OtherTold(s, last, OffersIn(front), SlicesIn(front), FirstIn(front), |heard|);
        assert OffersIn(front) + [] == OffersIn(front) && SlicesIn(front) + [] == SlicesIn(front);
      }
    }
  }

  lemma StartTold()
    ensures Told(Start(), [], [], None, 0)
  {
  }

  lemma SlicesMatch(arrivals: seq<Arrival>)
    requires ReadersKnown(arrivals)
    ensures |SlicesIn(arrivals)| == |OffersIn(arrivals)|
    ensures forall s <- SlicesIn(arrivals) :: s.Some? ==> SliceFits(s.value)
    ensures ReadAll(arrivals).0.adapter.receiver.initialized <==> FirstIn(arrivals).Some?
  {
    hide HoldsLatest, Valid, Sound, ReadAll, SlicesIn, OffersIn, FirstIn;
    AllTold(arrivals);
  }

  /**
   * What is heard, exactly, for any datagrams, any payload types and sizes, and any reading workers, one
   * call after another. The result that a call hands to the decoder for turn x is that of the last frame
   * offered for turn x so far: its payload as received if it was a block of a RED packet, otherwise
   * whatever lies by now where it was read; and concealment if there was no offer.
   */
  lemma CallIsHeardExactly(arrivals: seq<Arrival>)
    requires ReadersKnown(arrivals) && arrivals != []
    ensures |SlicesIn(arrivals)| == |OffersIn(arrivals)|
    ensures forall s <- SlicesIn(arrivals) :: s.Some? ==> SliceFits(s.value)
    ensures LastHeard(arrivals) != [] ==> FirstIn(arrivals).Some?
    ensures var before, log, slices := |ReadAll(arrivals[..|arrivals| - 1]).1|, OffersIn(arrivals), SlicesIn(arrivals);
            forall i :: 0 <= i < |LastHeard(arrivals)| ==>
              LastHeard(arrivals)[i]
              == Sounds(log, slices, FirstIn(arrivals).value, before + i, MemoryAfter(arrivals))
  {
    hide Told, Read, ReadInto, Valid, AudioIn, PayloadSlice, OffersOf, SlicesOf, AtTurn, Sounds, SliceFits;
    var front, last := arrivals[..|arrivals| - 1], arrivals[|arrivals| - 1];
    AllTold(front);
    SlicesMatch(arrivals);
    var (s, heard) := ReadAll(front);
    assert Valid(s);
    CallMemory(s, last);
    if AudioIn(last).Some? {
      CallTold(s, last, OffersIn(front), SlicesIn(front), FirstIn(front), |heard|);
    } else {
      OtherTold(s, last, OffersIn(front), SlicesIn(front), FirstIn(front), |heard|);
    }
  }
}
