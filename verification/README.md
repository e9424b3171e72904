# Voice ingestion: RED loss recovery and what surrounds it

This project models the loss-recovery protocol of the voice ingestion worker and proves what it
guarantees. A sender packs Opus frames into RED packets (section 3 of RFC 2198) that repeat the last
few frames, wraps them in RTP (section 5.1 of RFC 3550) and follows the redundancy depth that the far
end recommends. The network loses, repeats, delays and reorders packets and reports. The adapter at the
far end parses RTP, counts network losses, pushes packets into a recovery buffer keyed by 16-bit
sequence numbers, and hands out frames in order, announcing the ones it gave up on.

How it is built:

- State that the Go code changes in place is a class with the same fields (`RedPacker`, `RedReceiver`,
  `RTCPFeedbackEngine`, `RtpAdapter`, `Pipeline`, `SessionWorker`, `SessionRouter`). Each method is
  proved equal to a function on the state's value, and the theorems are about those functions and their
  runs. Loops of the source are loops here, with invariants.
- Frames have unwrapped indices; sequence numbers are indices modulo 2^16 and timestamps 960 times the
  index modulo 2^32. Theorems hold across both wraps unless they say otherwise.
- Bytes are integers below 256. `Bits` defines the bit operators bit by bit. RED headers are written and
  read with the source's own shifts and masks; RTP headers with divisions and remainders, which
  `Wire.HeaderBitFields` shows to be the same.
- Inside the adapter's state a payload is the value that was received. `ReadBuffers` adds what the
  source does with bytes: copies for the blocks of a RED packet, stretches of a reused read buffer for
  all other payloads. `HeardExactly` says what the decoder gets to hear of any datagrams when the workers'
  calls follow one another, `HeardFrames` (RED) and `BareFrames` (no redundancy) what that means for a
  stream, `Workers` what it hears when calls overlap.
- The Opus encoder, the polyphase resampler and the clock are parameters.

Modules, bottom up: `Basics` and `Bits` (words, circular order, bit operators), `RedCodec` and
`RedLaws` (RED bytes), `RedPacketizer` and `DepthHistory` (packer, and what it repeats while the depth
changes), `RedReceiving`, `RedOutput` and `ExactOutput` (buffer, draining, output for arbitrary packets),
`Recovery` (any network, no wrong payload), `AnyOrderRecovery` and `InOrderRecovery` (exact recovery),
`Wire`, `Feedback`, `LossAccounting`, `RtpIngest` (adapter), `Outages` (bounds a caller can check),
`ClosedLoop` and `FeedbackLoop` (the whole system: safety, what it recovers, what the sender does),
`ReadBuffers`, `HeardExactly`, `HeardFrames`, `BareFrames` and `Workers` (read buffers, decoder input,
overlapping workers), and the neighbours `Framing`, `SessionRouting`, `SlowQueue`, `WavScan`, `Resampling`.

What turned out to be worth knowing:

- A frame out of place is taken for another one if and only if its distance to the due turn, modulo
  2^16, is at most 32768 and it is not one of the next 65536 frames: for example one that comes 32768 to
  65536 turns late, or exactly a wrap early. A packet leaves the buffer right, and everything drained
  from it right, if and only if none of its frames is of that kind (`Recovery.PushIsSafeExactly`,
  `Recovery.OutputIsRightExactly`; up to 1023 wraps away, after which timestamps repeat too). A receiver
  gets there: `Recovery.WrongFrameIsPlayed`. Other stale frames, and those more than 32768 turns early,
  are merely thrown away.
- `insert` overwrites an entry that is already there; the comment above the call says otherwise. The
  model follows the code.
- Without redundancy a frame that has to wait is played with the bytes of a later datagram: its payload
  is a stretch of the read buffer, which is used again. A stream read by one worker is heard right if and
  only if fewer than eight packets arrive behind the first one missing (`BareFrames.BareStreamIsRightExactly`);
  with packets 0 and 2 to 9 delivered, turn 2 plays frame 9 (`BareFrames.FrameIsOverwritten`). With RED
  packets this cannot happen (`HeardFrames.HeardAtConstantDepth`). What is heard of any other datagrams
  follows from where each was read (`HeardExactly.CallIsHeardExactly`).
- Nothing makes the four workers push packets in the order they read them, or decode results in the order
  they pop them. For RED packets each result is still decoded exactly once, with its own frame's bytes, and
  is a frame exactly if a packet carrying it was pushed in time (`Workers.EveryResultIsHeardOnce`); but a
  packet that is overtaken at the start is never played (`Workers.FrameIsOvertaken`), and two frames can be
  heard in the wrong order (`Workers.FramesAreSwapped`), unless no worker pops while another one still has a
  result in hand (`Workers.DecodedInOrder`).
- The recovery counter compares plain numbers, so it misses recoveries of frames from before a wrap.
  How many follows from the arrivals alone (`LossAccounting.MissedExactly`), and it is none if and only
  if every arrival behind a wrap repeats nothing new from before it (`LossAccounting.NothingMissed`).
  `Outages.RecoveryUncounted` is a run with one recovery and a counter of zero.
- The feedback engine takes number 0 for "nothing received yet", so it misses a gap directly behind a
  packet numbered 0 (`Feedback.EngineCountsExactly`). When packets are reordered it counts what each step
  forward jumps over and takes nothing back (`Feedback.EngineCountsJumps`), so that the order 1, 3, 2, 4
  counts two losses (`Feedback.MiscountedLosses`).
- The engine compares transit times across the wrap of the RTP timestamp: a stream that arrives in perfect
  pace shows a change of at least 89478485 ms there, a sixteenth of which becomes jitter
  (`Feedback.PacedTransit`, `Feedback.PacedStreamExactly`).
- The drop-oldest queue may drop a message although there is room, if the consumer takes one between
  finding the queue full and dropping (`SlowQueue.DroppedNeedlessly`); which one is dropped follows from
  how many were taken (`SlowQueue.DropsExactly`).
- The adapter reads at most 2048 bytes of a datagram. At depth 3 frames of up to 505 bytes fit; 506 do not
  (`ClosedLoop.FrameBoundIsTight`).
- A WAV file with the bytes "data" at offset 36 inside some other chunk is misread, and on all other
  well-formed files the whole result is right (`WavScan.ParsedExactly`). `WavScan.AccidentalData` are
  stereo files at 44.1 kHz, with any audio, that are accepted as mono at 48 kHz with the audio at offset 44.

## Model

| member | source | states |
|---|---|---|
| Basics.SeqBeforeExactness | internal/pipeline/red.go:396-399 | for indices less than a wrap apart, seqBefore agrees with the unwrapped order if and only if i lies in [n-32767, n+32768] |
| RedCodec.WriterBitFields | internal/pipeline/red.go:107-118 | the writer's shifts and masks, defined bit by bit, are divisions and remainders of type, offset and length, whatever their size |
| RedCodec.ParserBitFields | internal/pipeline/red.go:155-182 | so are the parser's, F bit, type, offset and length |
| RedCodec.HeaderBytes | internal/pipeline/red.go:107-113 | the four header bytes are read back by the parser's fields as type, offset and length reduced to 7, 14 and 10 bits |
| Wire.HeaderBitFields | internal/ingestion/rtp.go:160-167 | version, CSRC count, extension bit and payload type are the shifts and masks of the header bytes |
| RedCodec.ReadHeaders | internal/pipeline/red.go:151-191 | the index-driven header loop never reads out of bounds and computes the recursive reading of the headers, errors included |
| RedCodec.SumLengths | internal/pipeline/red.go:193-199 | the uint16 accumulator ends as the exact sum of redundant lengths modulo 65536 |
| RedCodec.WrappedSumIsSafe | internal/pipeline/red.go:201-208 | however often the sum wrapped, the blocks fit under the wrapped primary length if and only if the exact sum fits, and then that length is right |
| RedCodec.CutLoop | internal/pipeline/red.go:210-230 | the cutting loop fails exactly when the lengths exceed the bytes left, and otherwise yields consecutive pieces |
| RedCodec.UnpackRED | internal/pipeline/red.go:145-231 | the parser with its wrapping uint16 sum computes the meaning defined with exact sums, each error in its place, on all inputs |
| RedLaws.UnpackSoundness | internal/pipeline/red.go:145-231 | on arbitrary bytes, accepted blocks spell out a prefix of the bytes after the headers, and all of them if and only if the primary length survives its cast to uint16 |
| RedLaws.UnpackKeepsEveryByte | internal/pipeline/red.go:145-231 | no accepted payload below 64 KiB loses a byte |
| RedLaws.ScanRefuses | internal/pipeline/red.go:156-178 | headers are refused exactly if every fourth byte marks a redundant block: as ending after a header, or inside one |
| RedLaws.AcceptedExactly | internal/pipeline/red.go:145-213 | a payload is accepted if and only if it starts with redundant headers and a primary one and the blocks they announce, summed exactly, fit behind them |
| RedLaws.UnpackedBlocks | internal/pipeline/red.go:180-231 | block k of an accepted payload, byte for byte: the type of header k, the timestamp its offset back, and the bytes behind those of the blocks before it |
| RedLaws.UnpackEncoded | internal/pipeline/red.go:99-126 | what the writer wrote always unpacks, with every header field reduced to its width |
| RedLaws.RoundTripExactly | internal/pipeline/red.go:99-126 | unpacking a written packet gives back all blocks, types and timestamps if and only if each redundant block fits 7, 14 and 10 bits and the primary fits a uint16 |
| RedPacketizer.RedPacker.constructor | internal/pipeline/red.go:33-39 | a new packer is empty at its depth |
| RedPacketizer.RedPacker.SetDepth | internal/pipeline/red.go:41-49 | the new depth, and the last depth many history entries |
| RedPacketizer.RedPacker.Pack | internal/pipeline/red.go:51-134 | counters advance modulo 2^16 and 2^32, the history slides, and the packet is bare at depth 0 and otherwise the history in front of the frame |
| RedPacketizer.RedPacker.Reset | internal/pipeline/red.go:136-143 | counters and history restart, the depth stays |
| RedPacketizer.RecentBlocks | internal/pipeline/red.go:75-80 | the look-back loop that prepends block after block yields the last depth many entries, oldest first |
| RedPacketizer.WriteRed | internal/pipeline/red.go:88-126 | the byte-filling loops leave exactly headers, primary type, older payloads and primary payload |
| RedPacketizer.HistoryInvariant | internal/pipeline/red.go:41-143 | after any run of Pack, SetDepth and Reset the history is the most recent consecutive frames, at most depth many, and the counters are the frame count |
| RedPacketizer.HistoryNumbering | internal/pipeline/red.go:41-143 | the i-th history entry from the end is i numbers and 960 i samples back, with that frame's payload |
| RedPacketizer.PackedPacketCarries | internal/pipeline/red.go:51-134 | the next packet unpacks to exactly history and frame if and only if it repeats at most 17 frames of at most 1023 bytes each |
| RedPacketizer.RunSendsWell | internal/pipeline/red.go:41-143 | along every run with depths up to 17 and frames up to 1023 bytes every packet sent unpacks to the frames it should carry, and the repeated window never moves back |
| DepthHistory.HistoryIsWhatIsHeld | internal/pipeline/red.go:41-143 | after any run of Pack, SetDepth and Reset the depth is the last one set and the history holds exactly the frames that always lay within the depth in force since they were packed |
| DepthHistory.PacketRepeatsExactly | internal/pipeline/red.go:51-86 | the next packet repeats exactly those frames |
| DepthHistory.DepthKeptRepeats | internal/pipeline/red.go:41-86 | if the depth was at least d ever since frame j - d was packed, with no reset, packet j repeats the frames from j - d on, whatever was set in between |
| RedReceiving.RedReceiver.constructor | internal/pipeline/red.go:248-254 | a new receiver is empty and uninitialized |
| RedReceiving.RedReceiver.Push | internal/pipeline/red.go:256-316 | pushing a bare, RED, malformed or foreign packet changes the state as the push function says |
| RedReceiving.RedReceiver.InsertBlocks | internal/pipeline/red.go:289-314 | block by block: number from the timestamp, recovery counted, frame inserted |
| RedReceiving.RedReceiver.Insert | internal/pipeline/red.go:318-324 | a frame whose turn is over is dropped, any other one stored, overwriting |
| RedReceiving.RedReceiver.PopNext | internal/pipeline/red.go:326-375 | the due frame, a notice of its loss, or nothing, with the matching new state |
| RedReceiving.RedReceiver.Reset | internal/pipeline/red.go:377-387 | everything but the buffer size restarts |
| RedReceiving.FindOldest | internal/pipeline/red.go:347-356 | for every iteration order of the map, the search ends on the one key nearest to the missing due frame |
| RedReceiving.PushSound | internal/pipeline/red.go:256-324 | no packet, however malformed, puts a key more than 32768 turns ahead or a frame under a wrong key |
| RedReceiving.PopSound | internal/pipeline/red.go:326-375 | popping keeps that window |
| RedReceiving.OrderIsTotal | internal/pipeline/red.go:351-356 | seqBefore orders the buffered keys by their turns if and only if not both the due key and the one 32768 later are present |
| RedOutput.GapFreeOutput | internal/pipeline/red.go:256-375 | over every interleaving of arbitrary packets and requests: the m-th result is numbered first + m, the counters of packets and losses are the numbers of arrivals and skips, and new keys are exactly frames played plus frames waiting |
| ExactOutput.OutputIsLatest | internal/pipeline/red.go:256-375 | over every interleaving of arbitrary packets, well-formed or not, and requests: the result for turn x is the last frame offered with its number while the turn was not over and at most 32768 away, and a notice if there was none; the same for what waits |
| ExactOutput.AnsweredExactly | internal/pipeline/red.go:326-375 | over such runs a request is answered with a frame if and only if one was offered for the due turn, with a notice if and only if none was but frames were for later turns, and the request is forced or they are at least maxBufferSize; otherwise with nothing |
| ExactOutput.CounterExactly | internal/pipeline/red.go:297-305 | over such runs the recovery counter is the number of RED blocks that were the first offer for their turn, in time for it, and numbered below their packet |
| RedOutput.PopShrinksSpan | internal/pipeline/red.go:326-375 | every result uses up one turn of the distance to the last buffered frame, so popping ends |
| RedOutput.DrainReadsInOrder | internal/ingestion/rtp.go:210-215 | popping until nothing comes yields, turn by turn, what the buffer held or lacked at the start, and leaves the later part |
| RedOutput.DrainStops | internal/ingestion/rtp.go:210-215 | the loop ends with the due frame missing and fewer than maxBufferSize frames (or none) held, after at most 32769 results |
| RedOutput.ForcedDrainSorts | internal/pipeline/red.go:344-371 | forced popping hands out every buffered frame once at its circular place, announces each missing turn before the last frame, and empties the buffer |
| Recovery.InsertIsSafeExactly | internal/pipeline/red.go:318-324 | less than 1023 wraps from its turn, taking in frame i keeps the buffer right if and only if it is one of the next 65536 frames or its number counts as past |
| Recovery.BlockIsItsFrame | internal/pipeline/red.go:291-295 | the number worked out from a block's timestamp is its frame's, across both wraps |
| Recovery.PushEffect | internal/pipeline/red.go:256-324 | a packet none of whose frames is taken for another adds exactly the frames it carries whose turn is to come within 32768 turns |
| Recovery.PushIsSafeExactly | internal/pipeline/red.go:256-324 | a delivered packet keeps the buffer right if and only if each frame it carries is safe on its own |
| Recovery.DrainIsTruthful | internal/ingestion/rtp.go:210-215 | draining plays exactly the frames that are there, each with its own number, timestamp and payload |
| Recovery.OutputIsRightExactly | internal/pipeline/red.go:256-375 | after such a delivery a forced drain plays every turn's own frame if and only if each carried frame was safe; otherwise some turn plays another turn's frame |
| Recovery.WrongFrameIsPlayed | internal/pipeline/red.go:256-375 | packet 0 played, 1 to 32768 lost, 32769 played by force, then packet 1 again: its frame comes out at turn 65537 |
| Recovery.NoWrongPayload | internal/pipeline/red.go:256-375 | for any loss, duplication, delay and reordering of one stream's packets in which no delivered frame is taken for another, every result is frame first + m itself or a notice with its number |
| AnyOrderRecovery.RecoveredExactly | internal/pipeline/red.go:256-375 | on any such network, the result for turn i is frame i if and only if, before its turn was over and at most 32768 turns ahead, a packet carrying it was delivered |
| AnyOrderRecovery.DrainIsRequests | internal/ingestion/rtp.go:210-215 | the adapter's pop loop is a run of unforced requests on that network; the closed loop is derived from this |
| InOrderRecovery.RecoveryExactly | internal/pipeline/red.go:256-375 | for any subset of packets in order, popped after each until nothing is ready: a frame, as received, is handed out if and only if some arrived packet carries it, and exactly the carried later frames wait |
| InOrderRecovery.CoveredAtConstantDepth | internal/pipeline/red.go:75-86 | at constant depth d frame i is carried by the packets i to i + d |
| InOrderRecovery.RepairedRunsLoseNothing | internal/pipeline/red.go:256-375 | if each arrival repeats everything lost since the one before, all frames are handed out at once, none skipped, for every buffer size |
| Outages.ShortOutagesAreNear | internal/pipeline/red.go:344-371 | gaps between arrivals of at most gap with maxBufferSize * gap <= 32768 keep every arrival inside the recovery window |
| Outages.RecoveryAtConstantDepth | internal/pipeline/red.go:256-375 | for payloads packed at one depth up to 17 and such gaps: frame i, as received, is handed out if and only if one of the packets i to i + depth arrived |
| Outages.AdapterBooksBalance | internal/ingestion/rtp.go:193-236 | after in-order arrivals with outages below 4096 packets the adapter's network loss count equals its recovered, announced and undecided frames plus the recoveries across a wrap; without these if and only if there are none |
| Outages.RecoveryUncounted | internal/pipeline/red.go:297-305 | at depth 1, with packet 65535 lost and 65536 received, all frames are played, one packet counts as lost, and the recovery counter stays at zero |
| Wire.Parse | internal/ingestion/rtp.go:154-191 | the header walk never indexes out of bounds and computes the declarative parse |
| Wire.ParseEncoded | internal/ingestion/rtp.go:154-191 | for any CSRC count and extension length, the encoded fields and non-empty payload are extracted, and an empty payload refused |
| Wire.ParseExactly | internal/ingestion/rtp.go:154-191 | bytes are accepted with these fields if and only if they are the encoding of a version-2 RTP packet with these fields and a payload |
| Wire.MakeRtpPacket | cmd/sender/main.go:220-230 | the sender's packet is the encoding of a bare RTP packet |
| Wire.SenderRoundTrip | cmd/sender/main.go:220-230 | the adapter reads back what the sender sent, under the sender's payload type |
| Feedback.RTCPFeedbackEngine.constructor | internal/rtcp/rtcp.go:33-40 | nothing counted, depth 2 recommended |
| Feedback.RTCPFeedbackEngine.RecordArrival | internal/rtcp/rtcp.go:42-68 | one arrival updates counts, jitter and last number as the arrival function says |
| Feedback.RTCPFeedbackEngine.GenerateReport | internal/rtcp/rtcp.go:77-110 | the report shows the state, and only the recommendation changes |
| Feedback.ArrivalIsSane | internal/rtcp/rtcp.go:42-68 | jitter moves a sixteenth of the way to the latest deviation and stays non-negative; losses are only counted after an arrival, so the loss fraction stays below 1 |
| Feedback.JitterFollows | internal/rtcp/rtcp.go:43-56 | over any run of arrivals, from packet indices and clock alone: jitter is zero after the first, then moves a sixteenth of the way to the change of transit times, unless the transit time before was exactly zero |
| Feedback.NoJitterExactly | internal/rtcp/rtcp.go:48-56 | there is no jitter if and only if each transit time that is not zero is followed by the same |
| Feedback.PacedTransit | internal/rtcp/rtcp.go:48-49 | twenty milliseconds and one packet later the transit time is the same, or at least 89478485 ms more if the timestamp wrapped |
| Feedback.PacedStreamExactly | internal/rtcp/rtcp.go:48-56 | a stream in perfect pace has no jitter if and only if no timestamp wraps on the way, except behind a transit time of zero |
| Feedback.SerializeReport | internal/ingestion/rtp.go:364-371 | the 24 bytes of the private report layout |
| Feedback.ReportRoundTrip | cmd/sender/main.go:111-117 | the sender reads every field of the report back as it was written |
| Feedback.ReadExactly | cmd/sender/main.go:111-117 | bytes are read as a report with these fields if and only if they start with the 21 bytes of these fields |
| Feedback.ReportTells | internal/rtcp/rtcp.go:78-110 | what the sender reads: the share of losses in 256ths and the jitter, both rounded down, the losses modulo 2^32, the last number, and the depth that the counts call for |
| Feedback.DepthThresholds | internal/rtcp/rtcp.go:82-98 | depth 3 exactly above 15 losses in 100, depth 1 exactly below 5 in 100 or with no packets, never outside 1 to 3 |
| Feedback.FeedbackArrives | internal/rtcp/rtcp.go:77-110 | the depth the sender reads is the engine's, from 1 to 3, and never smaller for a larger loss fraction |
| Feedback.EngineCountsExactly | internal/rtcp/rtcp.go:58-67 | over in-order arrivals the engine never counts more than the missing packets, and all of them if and only if every gap is below 30000 and none follows a packet numbered 0 |
| Feedback.EngineCountsAlways | internal/rtcp/rtcp.go:58-67 | over any arrivals whatsoever the count is the sum, over neighbouring arrivals, of the distance forward modulo 2^16 less one where that distance is from 2 to 29999 and the first number is not 0 |
| Feedback.EngineCountsJumps | internal/rtcp/rtcp.go:58-67 | in any order, with repeats and steps of up to 35536 back, the count is the sum of what the steps forward jump over |
| Feedback.MiscountedLosses | internal/rtcp/rtcp.go:58-67 | arrivals 1, 3, 2, 4 count two losses, arrivals 65536, 65538 none |
| LossAccounting.PushCounts | internal/pipeline/red.go:289-314 | a new packet adds itself, the frames counted as recovered and those the counter misses across a wrap |
| LossAccounting.MissedExactly | internal/pipeline/red.go:297-305 | over in-order arrivals the counter misses exactly the frames that each arrival recovers from before the wrap it has crossed |
| LossAccounting.LossConservation | internal/rtcp/rtcp.go:58-67 | network losses equal frames recovered, recoveries across a wrap as worked out from the arrivals, announced losses and undecided frames; so announced losses never exceed network losses |
| LossAccounting.CountersBalanceExactly | internal/rtcp/rtcp.go:58-67 | network losses equal recovered, announced and undecided frames if and only if that holds |
| LossAccounting.NothingMissed | internal/pipeline/red.go:297-305 | it misses nothing if and only if each arrival's number is at least its reach, or all it repeats from before the wrap lies up to the arrival before |
| RtpIngest.RtpAdapter.constructor | internal/ingestion/rtp.go:43-61 | a buffer of 8 and a fresh engine |
| RtpIngest.RtpAdapter.PopReady | internal/ingestion/rtp.go:210-215 | the pop loop terminates and hands out the drained results |
| RtpIngest.RtpAdapter.SendRtcpReport | internal/ingestion/rtp.go:353-374 | the report's bytes, with only the recommendation changed |
| RtpIngest.RtpAdapter.ProcessPacket | internal/ingestion/rtp.go:153-236 | one datagram: refused, or recorded, reported on every fiftieth number, pushed and drained |
| RtpIngest.AtMostSevenWait | internal/ingestion/rtp.go:193-236 | whatever datagrams arrive, between two of them the due frame is missing and at most seven frames wait |
| ClosedLoop.PacketFits | cmd/sender/main.go:191-201 | a packet of at most four frames of 505 bytes, labelled 112, is a RED packet that fits the read buffer whole |
| ClosedLoop.FrameBoundIsTight | internal/ingestion/rtp.go:132-148 | four frames of 506 bytes do not fit |
| ClosedLoop.HearKeeps | cmd/sender/main.go:103-127 | hearing any report ever sent keeps the sender's depth between 1 and 3 and its history right |
| ClosedLoop.LoopIsFaithful | internal/ingestion/rtp.go:153-236 | at every moment of every run of sender, two-way lossy network and adapter: depth 1 to 3, every packet readable and right, every report sound, every result the right frame or a truthful notice |
| ClosedLoop.LoopRecoversExactly | internal/ingestion/rtp.go:153-236 | at every moment of every run of the whole loop, depth changes included, the result for turn i is frame i if and only if, before its turn was over and at most 32768 turns ahead, a datagram arrived whose packet carries it |
| FeedbackLoop.LoopFollows | internal/ingestion/rtp.go:193-201 | at every moment of every run: the engine has recorded exactly the arrivals so far, a report was made from it at each number divisible by 50 and at no other, and packetizer and packets are those of packing the frames and taking up the depths heard |
| FeedbackLoop.SenderFollows | cmd/sender/main.go:98-124 | at every moment of every run the sender's depth is 2 if no report was heard; otherwise 3, 2 or 1 as more than 15, at least 5 or fewer than 5 in 100 packets were lost when the report heard last was made |
| FeedbackLoop.ReportedWhen | internal/ingestion/rtp.go:193-201 | the counts behind report k are those of the arrivals up to the packet that triggered it |
| FeedbackLoop.LoopRepeatsExactly | internal/pipeline/red.go:41-86 | in every run each packet repeats exactly the frames that always lay within the depth in force since they were packed |
| FeedbackLoop.EveryPacketRepeats | cmd/sender/main.go:103-127 | in every run, whatever reports are heard, every packet but the first repeats at least the frame before |
| ReadBuffers.StretchSurvivesExactly | internal/ingestion/rtp.go:132-148 | a waiting payload survives the next read if and only if another reader does it or it writes the same bytes there, as far as it reaches |
| ReadBuffers.CopiesAreHeardAsSent | internal/pipeline/red.go:210-227 | as long as only RED packets that unpack are read, whichever worker makes each call, one call after another, nothing refers to a read buffer and the decoder gets every payload as received |
| HeardExactly.CallIsHeardExactly | internal/ingestion/rtp.go:130-234 | for any datagrams, types and sizes and any reading workers, one call after another: what is decoded for turn x is the last frame offered for it, as received if it was a block of a RED packet, otherwise what lies by now where it was read |
| HeardFrames.DecoderHearsTheReceiver | internal/ingestion/rtp.go:203-234 | over a stream of RED packets, one call after another, the decoder gets, in order, exactly what the receiver hands out |
| HeardFrames.HeardAtConstantDepth | internal/ingestion/rtp.go:203-234 | at a depth from 1 to 17, packets in order with gaps up to 4096, whichever worker makes each call, one call after another: the decoder gets frame i if one of the packets i to i + depth arrived, and otherwise conceals it |
| HeardFrames.LoopIsHeardAsSent | internal/ingestion/rtp.go:203-234 | at every moment of every run of the closed loop, whichever worker makes each call, one call after another, nothing refers to a read buffer and all results so far have reached the decoder byte for byte |
| BareFrames.BareFramesAreOverwritten | internal/pipeline/red.go:270-273 | with one worker and bare packets of one size, every frame handed out in a call is heard as the payload just read |
| BareFrames.BareStreamIsHeard | internal/ingestion/rtp.go:130-151 | for such a stream in order: each turn that the arrival of packet j completes is heard as frame j if the due frame had arrived, and concealed otherwise |
| BareFrames.EighthIsHeardInstead | internal/ingestion/rtp.go:130-151 | the eighth packet behind the first missing one makes the missing turns concealed and the longest waiting frame heard as that packet |
| BareFrames.BareStreamIsRightExactly | internal/ingestion/rtp.go:130-151 | for different frames of one size, in order, gaps up to 4096, one worker: all that is heard is right if and only if fewer than eight packets arrived behind the first one missing |
| BareFrames.FrameIsOverwritten | internal/ingestion/rtp.go:130-151 | with packets 0 and 2 to 9 delivered, turn 2 is heard as frame 9 |
| Workers.EveryResultIsHeardOnce | internal/ingestion/rtp.go:130-234 | with read, push, pop and decode of four workers interleaved at will over RED packets: each popped result is decoded at most once, at most four are outstanding and none when all are idle, and what is heard for turn i is frame i if and only if a packet carrying it was pushed in time |
| Workers.NothingIsLeft | internal/ingestion/rtp.go:210-234 | whenever no worker is in its pop loop, however their steps overlapped: the due frame is missing, fewer than eight wait, and every result has been decoded |
| Workers.FrameIsOvertaken | internal/ingestion/rtp.go:98-102 | packet 1 pushed before packet 0, read first: the output starts at turn 1 |
| Workers.FramesAreSwapped | internal/ingestion/rtp.go:210-227 | two workers pop in turn and decode the other way round: frame 1 is heard before frame 0 |
| Workers.DecodedInOrder | internal/ingestion/rtp.go:210-227 | while no worker pops before the result in another's hand is decoded, results are decoded in order |
| Framing.Pipeline.constructor | internal/pipeline/pipeline.go:41-57 | an empty pipeline |
| Framing.Pipeline.ProcessChunk | internal/pipeline/pipeline.go:120-158 | the accumulator loop computes the framing of what was buffered and what came in |
| Framing.FramingConserves | internal/pipeline/pipeline.go:133-157 | frames of 960 samples and a rest of fewer are the input, in order |
| Framing.AllFramesMeans | internal/pipeline/pipeline.go:133-157 | the interleaved loop equals cutting all frames, encoding them in order, and packing the successes in order |
| Framing.ChunksAreConcatenation | internal/pipeline/pipeline.go:120-158 | chunk by chunk equals all at once on the concatenated resampled samples |
| Framing.FramingIsLossAware | internal/pipeline/pipeline.go:120-158 | after any chunks, all resampled samples are in frames or the rest, and each frame was published in order or failed to encode |
| Framing.ChunkingDoesNotMatter | internal/pipeline/pipeline.go:120-158 | at 48 kHz the state depends only on the concatenated samples |
| Framing.PackedConsecutively | internal/pipeline/pipeline.go:145-153 | published packets are numbered and timed consecutively across wraps |
| Framing.PublishedConsecutively | internal/pipeline/pipeline.go:120-158 | after any chunks the k-th published packet carries number and time of frame k, and as many are published as frames encoded |
| SessionRouting.SessionRouter.RouteChunk | internal/router/router.go:47-68 | finds the session's worker or makes one with objects of its own, and enqueues, or reports that it could not be made; all other sessions' objects are untouched |
| SessionRouting.SessionRouter.AddWorker | internal/router/router.go:50-62 | a new session's worker, pipeline and packetizer are shared with no other session |
| SessionRouting.SessionRouter.Work | internal/pipeline/pipeline.go:104-118 | one round of one session's goroutine changes that session's objects as the specification says and no others |
| SessionRouting.SessionWorker.constructor | internal/pipeline/pipeline.go:41-57 | an empty queue and a fresh pipeline |
| SessionRouting.SessionWorker.PushPCM | internal/pipeline/pipeline.go:59-71 | a non-empty chunk joins the queue unless that is full |
| SessionRouting.SessionWorker.Round | internal/pipeline/pipeline.go:104-118 | the oldest queued chunk is processed |
| SessionRouting.SessionsAreIndependent | internal/router/router.go:47-68 | in any interleaving, overflows included, a session's queue, packets and drops are those of a router serving it alone |
| SessionRouting.AcceptedIsKept | internal/pipeline/pipeline.go:59-71 | a chunk once accepted stays accepted in its place; only the newest chunk is dropped, and only for a full queue |
| SessionRouting.SessionsKeepOrder | internal/pipeline/pipeline.go:59-71 | chunks done and queued are a subsequence of those offered, in order, and all of them without overflow; with the dropped ones they are as many as were offered; its packets are those of the chunks done |
| SessionRouting.RoundsWorkOff | internal/pipeline/pipeline.go:104-118 | while no chunk arrives for a session, k rounds of its goroutine, with other sessions' events between, take the k oldest chunks off its queue, or all, in order |
| SessionRouting.EnoughRoundsPublishAll | internal/pipeline/pipeline.go:104-118 | after as many rounds as chunks waited the queue is empty and published is what the pipeline publishes for all chunks accepted |
| SlowQueue.QueueInvariant | cmd/worker/main.go:566-602 | in every interleaving: the limit holds, the retry always finds room, and removed, queued and pending messages are the offered ones in order |
| SlowQueue.DropOldestIsLossAware | cmd/worker/main.go:566-602 | taken messages are a subsequence of offered ones; at rest offered = taken + queued + dropped |
| SlowQueue.QueueIsTheTail | cmd/worker/main.go:584-599 | at rest the queue holds the newest offered messages |
| SlowQueue.DropsNeedOffers | cmd/worker/main.go:584-599 | n counted drops take at least n messages more than the queue holds |
| SlowQueue.DropsExactly | cmd/worker/main.go:588-593 | in every interleaving: a producer that found the queue full drops the message offered limit places before the one in hand, less one place for each message taken meanwhile, and none if all were taken |
| SlowQueue.DroppedNeedlessly | cmd/worker/main.go:588-593 | with limit 2 and one message taken in between, a message is dropped although there is room |
| SlowQueue.WithoutConsumer | cmd/worker/main.go:584-599 | with nobody taking, at rest the queue holds the newest messages up to its limit and all others were dropped |
| SlowQueue.UndisturbedIsWindow | cmd/worker/main.go:566-599 | if producer and consumer take turns, the three-step enqueue is a sliding window over the messages |
| WavScan.ParseWavHeader | internal/ingestion/replay.go:198-276 | the cursor loop terminates and computes the chunk scan |
| WavScan.ScannerIsExact | internal/ingestion/replay.go:223-273 | on every pad-free file whose bytes 36 to 39 are not "data", the data chunk's offset and size and the last format chunk's format are found |
| WavScan.FormatIsFromAChunk | internal/ingestion/replay.go:247-254 | with a format chunk present nothing of the initial guess remains |
| WavScan.OffsetExactly | internal/ingestion/replay.go:217-273 | the reported offset is the data chunk's if and only if bytes 36 to 39 spell "data" only where that chunk is |
| WavScan.ParsedExactly | internal/ingestion/replay.go:198-276 | the whole result is the true format, offset and size if and only if bytes 36 to 39 spell "data" only where the data chunk is |
| WavScan.WithoutData | internal/ingestion/replay.go:213-273 | with no data chunk, and after an unfinished last one, the format seen last is reported, offset 44, and as the size whatever lies at offset 40 |
| WavScan.AcceptedExactly | internal/ingestion/replay.go:198-207 | accepted is exactly what has 44 bytes or more and starts like a RIFF WAVE file of some size |
| WavScan.WrittenFormatIsReported | internal/ingestion/replay.go:214-273 | on a file whose last format chunk was written from given fields, channels, rate, sample size, offset and size come back if and only if bytes 36 to 39 spell "data" only where the data chunk is |
| WavScan.CanonicalIsExact | cmd/sender/main.go:232-286 | on the canonical 44-byte layout the fast path reports the true format, offset and size |
| WavScan.AccidentalData | internal/ingestion/replay.go:217-223 | for any audio and declared size, a stereo file at 44.1 kHz whose comment spells "data" at offset 36 is accepted as mono at 48 kHz with its audio at offset 44 |
| Resampling.ResampleMonoPCM | internal/pipeline/resampler.go:5-35 | copies at equal rates, and otherwise fills each sample by interpolation without leaving the input |
| Resampling.LowInBounds | internal/pipeline/resampler.go:24-31 | every input index used is in range |
| Resampling.OnTheLine | internal/pipeline/resampler.go:24-34 | output sample i is, to within less than one step, the value at i * inRate / outRate of the line through the two input samples around that place |
| Resampling.LengthExactly | internal/pipeline/resampler.go:16-18 | the output length is the input length times the ratio of the rates, rounded down |
| Resampling.BlendIsBetween | internal/pipeline/resampler.go:33-34 | an interpolated sample lies between its neighbours, truncation included |
| Resampling.MultipleRate | internal/pipeline/resampler.go:16-35 | at k times the input rate every k-th output sample is the input sample |
| Resampling.ResamplingIsMonotone | internal/pipeline/resampler.go:24-35 | rising input gives rising output |

## Left out

- RedPacketizer.RedPacker.SetDepth: depths are non-negative; with a negative one the source slices out of range and panics.
- RedReceiving.RedReceiver.Push: payloads are values, as received; that bare packets and RED packets that do not unpack point into a reused read buffer is added by ReadBuffers.Read.
- Recovery.NoWrongPayload: about payloads as received; whether their bytes are still there when played is HeardFrames.HeardAtConstantDepth, HeardFrames.LoopIsHeardAsSent and BareFrames.BareStreamIsHeard.
- InOrderRecovery.RecoveryExactly: about payloads as received, in the same sense.
- InOrderRecovery.RepairedRunsLoseNothing: about payloads as received, in the same sense.
- Outages.RecoveryAtConstantDepth: about payloads as received, in the same sense; at depth 0 the decoder may get other bytes.
- ReadBuffers.CopiesAreHeardAsSent: the calls of the workers follow one another; overlapping ones are in Workers.
- HeardFrames.DecoderHearsTheReceiver: the calls of the workers follow one another, in the same sense.
- HeardFrames.HeardAtConstantDepth: the calls of the workers follow one another, in the same sense; overlapping ones can lose a frame or swap two (Workers.FrameIsOvertaken, Workers.FramesAreSwapped).
- HeardFrames.LoopIsHeardAsSent: the calls of the workers follow one another, in the same sense.
- Workers.EveryResultIsHeardOnce: RED packets that unpack, none of whose frames is taken for another; recording arrivals and sending reports, which share nothing with these steps, are left out.
- BareFrames.BareStreamIsHeard: frames of one size and one reading worker; HeardExactly.CallIsHeardExactly is about all other datagrams.
- HeardExactly.CallIsHeardExactly: the calls of the workers follow one another, in the same sense.
- RtpIngest.RtpAdapter.ProcessPacket: the results handed out stand for the decoder calls; Opus decoding, the WAV recording and the raw PCM payload types 96 and 97 are not modelled.
- RtpIngest.RtpAdapter.SendRtcpReport: the client address is known, as the read loop sets it before every packet; without one the source sends nothing.
- ClosedLoop.LoopIsFaithful: one datagram is processed after another; overlapping workers are in Workers.
- Feedback.RTCPFeedbackEngine.GenerateReport: fractions and jitter are exact reals, so float rounding at the thresholds is not captured, and a jitter beyond 32 bits is reduced modulo 2^32.
- Feedback.RTCPFeedbackEngine.RecordArrival: jitter is an exact real; counters do not overflow 64 bits; RecordLoss, which only a unit test calls, is not modelled.
- Resampling.ResampleMonoPCM: positive rates and exact rationals; with a rate of zero the source divides floats by zero.
- SessionRouting.SessionRouter.RouteChunk: one call is one step, although the source unlocks the router before it pushes; Close is not modelled.
- Framing.Pipeline.ProcessChunk: the encoder is a deterministic state machine that may fail, and the resampler a function of one chunk.
- WavScan.ScannerIsExact: chunk bodies are not padded to even length, as the scanner assumes; seeking in the file never fails.
- Wire.ParseExactly: the padding bit is carried along but padding is not stripped, as in the source.
- SlowQueue.QueueInvariant: one start of the slow consumer; stopping and restarting it is not modelled.
- RTCP packets of MarshalPack (internal/rtcp/rtcp.go:112-125): written but read by nobody.
- Polyphase filtering quality, Opus coding, NATS, sockets, HTTP, the dashboard and latency statistics: libraries and I/O.

Nothing was executed.
