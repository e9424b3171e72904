/**
 * The media pipeline: chunks of any size are resampled, cut into frames of 960 samples, encoded and
 * packed (internal/pipeline/pipeline.go). The Opus encoder and the resampler are parameters.
 */
module Framing {
  import opened Basics
  import opened RedCodec
  import opened RedPacketizer

  type Sample = x: int | -0x8000 <= x < 0x8000

  datatype Chunk = Chunk(pcm: seq<Sample>, sampleRate: int)

  const SAMPLE_RATE := 48000

  /** An encoder: from its state and a frame to its next state and the encoded frame, or a failure. */
  type Encoder<!S> = (S, seq<Sample>) -> (S, Option<Bytes>)

  type Resampler = (seq<Sample>, int) -> seq<Sample>

  /** PolyphaseResampler.Resample at equal rates is a copy (polyphase.go:28-32). */
  ghost predicate CopiesAtEqualRates(resample: Resampler) {
    forall pcm :: resample(pcm, SAMPLE_RATE) == pcm
  }

  // ---------------------------------------------------------------- specification

  datatype Pipe<S> = Pipe(
    pcmBuf: seq<Sample>,
    encoder: S,
    packer: Packer,
    published: seq<MediaPacket>,
    samplesIngested: nat,
    framesEncoded: nat)

  function NewPipe<S>(encoder: S, redDepth: nat): Pipe<S> {
    Pipe([], encoder, NewPacker(redDepth), [], 0, 0)
  }

  /** Takes one frame off the buffer; a frame that fails to encode is gone. */
  function OneFrame<S>(encode: Encoder<S>, p: Pipe<S>): Pipe<S>
    requires |p.pcmBuf| >= FRAME_SAMPLES
  {
    var (encoder, coded) := encode(p.encoder, p.pcmBuf[..FRAME_SAMPLES]);
    var rest := p.(pcmBuf := p.pcmBuf[FRAME_SAMPLES..], encoder := encoder);
    match coded
    case None => rest
    case Some(data) =>
      rest.(packer := AfterPack(p.packer, data),
            published := p.published + [PackedPacket(p.packer, data)],
            framesEncoded := p.framesEncoded + 1)
  }

  function AllFrames<S>(encode: Encoder<S>, p: Pipe<S>): Pipe<S>
    decreases |p.pcmBuf|
  {
    if |p.pcmBuf| < FRAME_SAMPLES then p else AllFrames(encode, OneFrame(encode, p))
  }

  lemma FrameAfterFrame<S>(encode: Encoder<S>, p: Pipe<S>)
    requires |p.pcmBuf| >= FRAME_SAMPLES
    ensures AllFrames(encode, p) == AllFrames(encode, OneFrame(encode, p))
  {
  }

  function Feed<S>(p: Pipe<S>, samples: seq<Sample>): Pipe<S> {
    p.(pcmBuf := p.pcmBuf + samples)
  }

  function ChunkStep<S>(encode: Encoder<S>, resample: Resampler, p: Pipe<S>, chunk: Chunk): Pipe<S> {
    var counted := p.(samplesIngested := p.samplesIngested + |chunk.pcm|);
    AllFrames(encode, Feed(counted, resample(chunk.pcm, chunk.sampleRate)))
  }

  function ProcessChunks<S>(encode: Encoder<S>, resample: Resampler, p: Pipe<S>, chunks: seq<Chunk>): Pipe<S> {
    if chunks == [] then p
    else
      ChunkStep(encode, resample, ProcessChunks(encode, resample, p, chunks[..|chunks| - 1]), chunks[|chunks| - 1])
  }

  // ---------------------------------------------------------------- the object

  class Pipeline<S> {
    const encode: Encoder<S>
    const resample: Resampler
    const packer: RedPacker
    var encoder: S
    var pcmBuf: seq<Sample>
    var published: seq<MediaPacket>
    var samplesIngested: nat
    var framesEncoded: nat

    ghost predicate Valid()
      reads this, packer
    {
      packer.Valid()
    }

    ghost function State(): Pipe<S>
      reads this, packer
      requires Valid()
    {
      Pipe(pcmBuf, encoder, packer.State(), published, samplesIngested, framesEncoded)
    }

    constructor (encode: Encoder<S>, resample: Resampler, encoder: S, redDepth: nat)
      ensures Valid() && fresh(packer)
      ensures State() == NewPipe(encoder, redDepth)
      ensures this.encode == encode && this.resample == resample
    {
      this.encode, this.resample, this.encoder := encode, resample, encoder;
      packer := new RedPacker(redDepth);
      pcmBuf, published, samplesIngested, framesEncoded := [], [], 0, 0;
    }

    method ProcessChunk(chunk: Chunk)
      requires Valid()
      modifies this, packer
      ensures Valid() && State() == ChunkStep(encode, resample, old(State()), chunk)
    {
      hide AllFrames, AfterPack, PackedPacket;
      samplesIngested := samplesIngested + |chunk.pcm|;
      var resampled := resample(chunk.pcm, chunk.sampleRate);
      pcmBuf := pcmBuf + resampled;
      while |pcmBuf| >= FRAME_SAMPLES
        invariant Valid()
        invariant AllFrames(encode, State()) == ChunkStep(encode, resample, old(State()), chunk)
        decreases |pcmBuf|
      {
        ghost var before := State();
        FrameAfterFrame(encode, before);
        var frame := pcmBuf[..FRAME_SAMPLES];
        var (encoder', coded) := encode(encoder, frame);
        encoder := encoder';
        if coded.None? {
          pcmBuf := pcmBuf[FRAME_SAMPLES..];
          assert State() == OneFrame(encode, before);
          continue;
        }
        var packet := packer.Pack(coded.value);
        published := published + [packet];
        framesEncoded := framesEncoded + 1;
        pcmBuf := pcmBuf[FRAME_SAMPLES..];
        assert State() == OneFrame(encode, before);
      }
      NothingToFrame(encode, State());
    }
  }

  // ---------------------------------------------------------------- what framing means

  /** The whole frames of a stretch of samples, and what is left over. */
  function Frames(samples: seq<Sample>): seq<seq<Sample>> {
    if |samples| < FRAME_SAMPLES then [] else [samples[..FRAME_SAMPLES]] + Frames(samples[FRAME_SAMPLES..])
  }

  function Leftover(samples: seq<Sample>): seq<Sample> {
    if |samples| < FRAME_SAMPLES then samples else Leftover(samples[FRAME_SAMPLES..])
  }

  function Flatten(frames: seq<seq<Sample>>): seq<Sample> {
    if frames == [] then [] else frames[0] + Flatten(frames[1..])
  }

  /** The encoder run over frames: the encodings that succeeded, in order, and its last state. */
  function EncodeAll<S>(encode: Encoder<S>, encoder: S, frames: seq<seq<Sample>>): (S, seq<Bytes>) {
    if frames == [] then (encoder, [])
    else
      var (e1, coded) := encode(encoder, frames[0]);
      var (e2, rest) := EncodeAll(encode, e1, frames[1..]);
      (e2, (if coded.Some? then [coded.value] else []) + rest)
  }

  /** The packer run over payloads: the packets, in order, and its last state. */
  function PackPayloads(packer: Packer, payloads: seq<Bytes>): (Packer, seq<MediaPacket>)
    decreases |payloads|
  {
    if payloads == [] then (packer, [])
    else
      var (p2, rest) := PackPayloads(AfterPack(packer, payloads[0]), payloads[1..]);
      (p2, [PackedPacket(packer, payloads[0])] + rest)
  }

  /** Cutting keeps every sample: the frames and the leftover are the input, in order. */
  lemma {:induction false} FramingConserves(samples: seq<Sample>)
    ensures Flatten(Frames(samples)) + Leftover(samples) == samples
    ensures |Leftover(samples)| < FRAME_SAMPLES
    ensures forall f <- Frames(samples) :: |f| == FRAME_SAMPLES
  {
    if |samples| < FRAME_SAMPLES {
    } else {
      var rest := samples[FRAME_SAMPLES..];
      FramingConserves(rest);
      assert Frames(samples)[1..] == Frames(rest);
      Assoc(samples[..FRAME_SAMPLES], Flatten(Frames(rest)), Leftover(rest));
      assert samples[..FRAME_SAMPLES] + rest == samples;
    }
  }

  /** What a pipeline does with the samples in its buffer, stage by stage. */
  ghost predicate Outcome<S>(encode: Encoder<S>, p: Pipe<S>, samples: seq<Sample>, p': Pipe<S>) {
    var (encoder, payloads) := EncodeAll(encode, p.encoder, Frames(samples));
    var (packer, packets) := PackPayloads(p.packer, payloads);
    && p'.pcmBuf == Leftover(samples)
    && p'.encoder == encoder
    && p'.packer == packer
    && p'.published == p.published + packets
    && p'.framesEncoded == p.framesEncoded + |payloads|
  }

  lemma {:induction false} AllFramesMeans<S>(encode: Encoder<S>, p: Pipe<S>)
    ensures Outcome(encode, p, p.pcmBuf, AllFrames(encode, p))
    ensures AllFrames(encode, p).samplesIngested == p.samplesIngested
    decreases |p.pcmBuf|
  {
    hide AfterPack, PackedPacket;
    if |p.pcmBuf| < FRAME_SAMPLES {
    } else {
      var p1 := OneFrame(encode, p);
      AllFramesMeans(encode, p1);
      OneFrameMeans(encode, p, AllFrames(encode, p1));
    }
  }

  lemma OneFrameMeans<S>(encode: Encoder<S>, p: Pipe<S>, p': Pipe<S>)
    requires |p.pcmBuf| >= FRAME_SAMPLES
    requires Outcome(encode, OneFrame(encode, p), OneFrame(encode, p).pcmBuf, p')
    ensures Outcome(encode, p, p.pcmBuf, p')
  {
    hide AfterPack, PackedPacket;
    var (e1, coded) := encode(p.encoder, p.pcmBuf[..FRAME_SAMPLES]);
    var rest := Frames(p.pcmBuf[FRAME_SAMPLES..]);
    assert Frames(p.pcmBuf) == [p.pcmBuf[..FRAME_SAMPLES]] + rest;
    assert ([p.pcmBuf[..FRAME_SAMPLES]] + rest)[1..] == rest;
    var (e2, payloads) := EncodeAll(encode, e1, rest);
    if coded.Some? {
      assert ([coded.value] + payloads)[1..] == payloads;
      Assoc(p.published, [PackedPacket(p.packer, coded.value)],
            PackPayloads(AfterPack(p.packer, coded.value), payloads).1);
    } else {
      assert [] + payloads == payloads;
    }
  }

  // ---------------------------------------------------------------- chunking does not matter

  /** Framing what is there and the rest later is framing it all at once. */
  lemma {:induction false} FeedLater<S>(encode: Encoder<S>, p: Pipe<S>, more: seq<Sample>)
    ensures AllFrames(encode, Feed(AllFrames(encode, p), more)) == AllFrames(encode, Feed(p, more))
    decreases |p.pcmBuf|
  {
    hide AfterPack, PackedPacket;
    if |p.pcmBuf| < FRAME_SAMPLES {
    } else {
      FeedLater(encode, OneFrame(encode, p), more);
      FrameFirst(encode, p, more);
    }
  }

  lemma FrameFirst<S>(encode: Encoder<S>, p: Pipe<S>, more: seq<Sample>)
    requires |p.pcmBuf| >= FRAME_SAMPLES
    ensures OneFrame(encode, Feed(p, more)) == Feed(OneFrame(encode, p), more)
  {
    hide AfterPack, PackedPacket;
    assert (p.pcmBuf + more)[..FRAME_SAMPLES] == p.pcmBuf[..FRAME_SAMPLES];
    assert (p.pcmBuf + more)[FRAME_SAMPLES..] == p.pcmBuf[FRAME_SAMPLES..] + more;
  }

  function Resampled(resample: Resampler, chunks: seq<Chunk>): seq<Sample> {
    if chunks == [] then []
    else
      var last := chunks[|chunks| - 1];
      Resampled(resample, chunks[..|chunks| - 1]) + resample(last.pcm, last.sampleRate)
  }

  function Ingested(chunks: seq<Chunk>): nat {
    if chunks == [] then 0 else Ingested(chunks[..|chunks| - 1]) + |chunks[|chunks| - 1].pcm|
  }

  lemma AllFramesIgnoresCount<S>(encode: Encoder<S>, p: Pipe<S>, n: nat)
    ensures AllFrames(encode, p.(samplesIngested := n)) == AllFrames(encode, p).(samplesIngested := n)
    decreases |p.pcmBuf|
  {
    hide AfterPack, PackedPacket;
    if |p.pcmBuf| >= FRAME_SAMPLES {
      AllFramesIgnoresCount(encode, OneFrame(encode, p), n);
      assert OneFrame(encode, p.(samplesIngested := n)) == OneFrame(encode, p).(samplesIngested := n);
    }
  }

  /** Chunk by chunk or all at once: the pipeline's state is that of framing the concatenation. */
  lemma {:induction false} ChunksAreConcatenation<S>(
      encode: Encoder<S>, resample: Resampler, p: Pipe<S>, chunks: seq<Chunk>)
    requires |p.pcmBuf| < FRAME_SAMPLES
    ensures ProcessChunks(encode, resample, p, chunks)
            == AllFrames(encode, Feed(p, Resampled(resample, chunks)))
               .(samplesIngested := p.samplesIngested + Ingested(chunks))
  {
    hide OneFrame, AllFrames;
    if chunks == [] {
      assert p.pcmBuf + [] == p.pcmBuf;
      NothingToFrame(encode, p);
    } else {
      var front, last := chunks[..|chunks| - 1], chunks[|chunks| - 1];
      ChunksAreConcatenation(encode, resample, p, front);
      var whole := Feed(p, Resampled(resample, front));
      var more := resample(last.pcm, last.sampleRate);
      AllFramesIgnoresCount(encode, Feed(AllFrames(encode, whole), more), p.samplesIngested + Ingested(chunks));
      FeedLater(encode, whole, more);
      Assoc(p.pcmBuf, Resampled(resample, front), more);
    }
  }

  lemma NothingToFrame<S>(encode: Encoder<S>, p: Pipe<S>)
    requires |p.pcmBuf| < FRAME_SAMPLES
    ensures AllFrames(encode, p) == p
  {
  }

  /**
   * Framing, over any run of chunks: all resampled samples end up, in order, in whole frames and a
   * rest of fewer than 960; each frame was either encoded, packed and published, in order, or its
   * encoding failed and the frame was left out.
   */
  lemma FramingIsLossAware<S>(encode: Encoder<S>, resample: Resampler, encoder: S, redDepth: nat, chunks: seq<Chunk>)
    ensures var p := ProcessChunks(encode, resample, NewPipe(encoder, redDepth), chunks);
            var samples := Resampled(resample, chunks);
            && Flatten(Frames(samples)) + p.pcmBuf == samples && |p.pcmBuf| < FRAME_SAMPLES
            && Outcome(encode, NewPipe(encoder, redDepth), samples, p)
            && p.samplesIngested == Ingested(chunks)
  {
    hide OneFrame, AllFrames, PackPayloads, EncodeAll;
    var start, samples := NewPipe(encoder, redDepth), Resampled(resample, chunks);
    ChunksAreConcatenation(encode, resample, start, chunks);
    assert [] + samples == samples;
    AllFramesMeans(encode, Feed(start, samples));
    FramingConserves(samples);
  }

  function Concatenated(chunks: seq<Chunk>): seq<Sample> {
    if chunks == [] then [] else Concatenated(chunks[..|chunks| - 1]) + chunks[|chunks| - 1].pcm
  }

  lemma {:induction false} NativeRateIsCopied(resample: Resampler, chunks: seq<Chunk>)
    requires CopiesAtEqualRates(resample) && forall k :: 0 <= k < |chunks| ==> chunks[k].sampleRate == SAMPLE_RATE
    ensures Resampled(resample, chunks) == Concatenated(chunks)
    ensures Ingested(chunks) == |Concatenated(chunks)|
  {
    if chunks == [] {
    } else {
      NativeRateIsCopied(resample, chunks[..|chunks| - 1]);
    }
  }

  /** At 48 kHz only the samples matter, not how they were cut into chunks. */
  lemma ChunkingDoesNotMatter<S>(
      encode: Encoder<S>, resample: Resampler, p: Pipe<S>, a: seq<Chunk>, b: seq<Chunk>)
    requires |p.pcmBuf| < FRAME_SAMPLES && CopiesAtEqualRates(resample)
    requires forall k :: 0 <= k < |a| ==> a[k].sampleRate == SAMPLE_RATE
    requires forall k :: 0 <= k < |b| ==> b[k].sampleRate == SAMPLE_RATE
    requires Concatenated(a) == Concatenated(b)
    ensures ProcessChunks(encode, resample, p, a) == ProcessChunks(encode, resample, p, b)
  {
    hide OneFrame, AllFrames;
    ChunksAreConcatenation(encode, resample, p, a);
    ChunksAreConcatenation(encode, resample, p, b);
    NativeRateIsCopied(resample, a);
    NativeRateIsCopied(resample, b);
  }

  // ---------------------------------------------------------------- numbering

  /** Published packets are numbered and timed consecutively, across both wraps. */
  lemma {:induction false} PackedConsecutively(packer: Packer, payloads: seq<Bytes>, n: nat)
    requires packer.nextSeq == Seq16(n) && packer.nextTime == Time32(n)
    ensures var packets := PackPayloads(packer, payloads).1;
            && |packets| == |payloads|
            && forall k :: 0 <= k < |packets| ==>
                 packets[k].seqNum == Seq16(n + k) && packets[k].timestamp == Time32(n + k)
    decreases |payloads|
  {
    hide EncodeRed, LastN;
    if payloads == [] {
    } else {
      var next := AfterPack(packer, payloads[0]);
      NextSeq(n);
      NextTime(n);
      hide Seq16, Time32;
      PackedConsecutively(next, payloads[1..], n + 1);
      var rest := PackPayloads(next, payloads[1..]).1;
      var packets := [PackedPacket(packer, payloads[0])] + rest;
      forall k | 0 <= k < |packets|
        ensures packets[k].seqNum == Seq16(n + k) && packets[k].timestamp == Time32(n + k)
      {
        if k > 0 {
          assert packets[k] == rest[k - 1] && n + k == n + 1 + (k - 1);
        }
      }
    }
  }

  /**
   * The numbering of a session's output: after any chunks, cut in any way, the k-th packet published
   * carries the number of frame k and its time, across both wraps, whatever frames failed to encode.
   */
  lemma PublishedConsecutively<S>(
      encode: Encoder<S>, resample: Resampler, encoder: S, redDepth: nat, chunks: seq<Chunk>)
    ensures var p := ProcessChunks(encode, resample, NewPipe(encoder, redDepth), chunks);
            && |p.published| == p.framesEncoded
            && forall k :: 0 <= k < |p.published| ==>
                 p.published[k].seqNum == Seq16(k) && p.published[k].timestamp == Time32(k)
  {
    hide ProcessChunks, EncodeAll, PackPayloads, Frames, Seq16, Time32;
    var start, samples := NewPipe(encoder, redDepth), Resampled(resample, chunks);
    FramingIsLossAware(encode, resample, encoder, redDepth, chunks);
    var payloads := EncodeAll(encode, encoder, Frames(samples)).1;
    StartsAtZero(redDepth);
    PackedConsecutively(NewPacker(redDepth), payloads, 0);
    assert [] + PackPayloads(NewPacker(redDepth), payloads).1 == PackPayloads(NewPacker(redDepth), payloads).1;
  }

  lemma StartsAtZero(redDepth: nat)
    ensures NewPacker(redDepth).nextSeq == Seq16(0) && NewPacker(redDepth).nextTime == Time32(0)
  {
  }
}
