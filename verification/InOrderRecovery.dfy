/**
 * Packets arriving in order with any of them lost, the buffer drained after each: exactly which
 * frames are recovered, and how the receiver's counters account for the network's losses.
 */
module InOrderRecovery {
  import opened Basics
  import opened RedCodec
  import opened RedPacketizer
  import opened RedReceiving
  import opened RedOutput
  import opened Recovery

  // ---------------------------------------------------------------- delivery with draining

  /** One arrival at the adapter: push the packet, then hand out what is ready (rtp.go:203-234). */
  function Receive(s: Session, packet: MediaPacket, j: nat): Session {
    var (r', out) := Drain(PushStep(s.receiver, packet), false);
    Session(r', s.out + out, if s.receiver.initialized then s.first else j)
  }

  /** These are indices of packets of the stream. */
  predicate Known(stream: Stream, js: seq<nat>) {
    |stream.reach| == |stream.packets| && forall k :: 0 <= k < |js| ==> js[k] < |stream.packets|
  }

  /** The packets with these indices arrive one after the other. */
  function ReceiveAll(stream: Stream, maxBufferSize: int, js: seq<nat>): Session
    requires Known(stream, js)
  {
    if js == [] then NewSession(maxBufferSize)
    else
      var last := |js| - 1;
      Receive(ReceiveAll(stream, maxBufferSize, js[..last]), stream.packets[js[last]], js[last])
  }

  predicate Increasing(js: seq<nat>) {
    forall a, b :: 0 <= a < b < |js| ==> js[a] < js[b]
  }

  /** Deliverable in order: indices of packets of the stream, in increasing order. */
  predicate InOrder(stream: Stream, js: seq<nat>) {
    && Known(stream, js)
    && Increasing(js)
  }

  /** Some delivered packet carries frame i. */
  ghost predicate Covered(stream: Stream, js: seq<nat>, i: int)
    requires Known(stream, js)
  {
    exists k :: 0 <= k < |js| && Oldest(stream, js[k]) <= i <= js[k]
  }

  /** No packet arrives more than 32768 turns ahead of the output. */
  ghost predicate NeverFarAhead(stream: Stream, maxBufferSize: int, js: seq<nat>)
    requires Known(stream, js)
  {
    forall k :: 0 < k < |js| ==> js[k] <= Next(ReceiveAll(stream, maxBufferSize, js[..k])) + 32768
  }

  // ---------------------------------------------------------------- the invariant

  /** Up to the last arrival, a frame is played or held if some arrival carried it; nothing else is. */
  ghost predicate Settled(stream: Stream, js: seq<nat>, s: Session)
    requires WellSent(stream) && InOrder(stream, js) && js != []
  {
    var last := js[|js| - 1];
    && s.first == js[0]
    && Linked(s.receiver, stream.frames, Next(s))
    && Next(s) <= last + 1 <= Next(s) + 0x1_0000
    && Holds(stream, js, s.receiver, Next(s), last)
    && forall m :: 0 <= m < |s.out| ==>
         Truthful(s.out[m], stream.frames, s.first + m)
         && (s.out[m].Played? <==> Covered(stream, js, s.first + m))
  }

  /** From turn n on, r holds exactly the covered frames up to index last. */
  ghost predicate Holds(stream: Stream, js: seq<nat>, r: Receiver, n: nat, last: nat)
    requires WellSent(stream) && Known(stream, js)
  {
    forall x {:trigger Has(r, x)} :: n <= x < n + 0x1_0000 ==> (Has(r, x) <==> x <= last && Covered(stream, js, x))
  }

  /** A later arrival repeats no frame of the past that the one before it did not repeat. */
  lemma CoveredIsStable(stream: Stream, js: seq<nat>, i: int)
    requires WellSent(stream) && InOrder(stream, js) && js != []
    ensures var front, j := js[..|js| - 1], js[|js| - 1];
            && (Covered(stream, js, i) <==> Covered(stream, front, i) || Oldest(stream, j) <= i <= j)
            && (front != [] && i <= front[|front| - 1] ==> (Covered(stream, js, i) <==> Covered(stream, front, i)))
  {
    hide CarriesAt;
    var front, j := js[..|js| - 1], js[|js| - 1];
    if Covered(stream, front, i) {
      var k :| 0 <= k < |front| && Oldest(stream, front[k]) <= i <= front[k];
      assert js[k] == front[k];
    }
    if front != [] {
      assert Oldest(stream, js[|js| - 2]) <= Oldest(stream, j);
    }
  }

  /** Pushing the next packet leaves exactly the covered frames waiting. */
  lemma PushSettles(stream: Stream, js: seq<nat>, s: Session)
    requires WellSent(stream) && InOrder(stream, js) && |js| > 1
    requires Settled(stream, js[..|js| - 1], s)
    requires js[|js| - 1] <= Next(s) + 32768
    ensures var j := js[|js| - 1];
            var r := PushStep(s.receiver, stream.packets[j]);
            Linked(r, stream.frames, Next(s)) && Holds(stream, js, r, Next(s), j)
  {
    hide Truthful, Linked, Covered, Seq16;
    var n, front, j := Next(s), js[..|js| - 1], js[|js| - 1];
    var last, r := front[|front| - 1], PushStep(s.receiver, stream.packets[j]);
    PushKeepsWindow(stream, s, j);
    forall x {:trigger Has(r, x)} | n <= x < n + 0x1_0000
      ensures Has(r, x) <==> x <= j && Covered(stream, js, x)
    {
      assert Has(s.receiver, x) <==> x <= last && Covered(stream, front, x);
      CoveredIsStable(stream, js, x);
      if x > last {
        NotCoveredYet(stream, front, x);
      }
    }
  }

  lemma PushKeepsWindow(stream: Stream, s: Session, j: nat)
    requires WellSent(stream) && j < |stream.packets|
    requires Linked(s.receiver, stream.frames, Next(s))
    requires Next(s) <= j <= Next(s) + 32768
    ensures var r := PushStep(s.receiver, stream.packets[j]);
            && Linked(r, stream.frames, Next(s))
            && Gains(s.receiver, r, Next(s), Oldest(stream, j), j)
  {
    assert s.receiver.initialized;
    hide Linked, PushStep, Gains, SafeAt;
    assert CarriesAt(stream, j);
    NearIsSafe(Next(s), Oldest(stream, j), j);
    PushEffect(s.receiver, stream.packets[j], stream.frames, Next(s), Oldest(stream, j), j);
  }

  lemma NotCoveredYet(stream: Stream, js: seq<nat>, x: int)
    requires WellSent(stream) && InOrder(stream, js) && js != []
    requires x > js[|js| - 1]
    ensures !Covered(stream, js, x)
  {
  }

  /** The first packet: everything before it is over, it alone is waiting. */
  lemma FirstPushSettles(stream: Stream, maxBufferSize: int, j: nat)
    requires WellSent(stream) && j < |stream.packets|
    ensures var r := PushStep(NewReceiver(maxBufferSize), stream.packets[j]);
            Linked(r, stream.frames, j) && Holds(stream, [j], r, j, j)
  {
    var r := PushStep(NewReceiver(maxBufferSize), stream.packets[j]);
    assert CarriesAt(stream, j);
    NearIsSafe(j, Oldest(stream, j), j);
    PushEffect(NewReceiver(maxBufferSize), stream.packets[j], stream.frames, 0, Oldest(stream, j), j);
    forall x {:trigger Has(r, x)} | j <= x < j + 0x1_0000
      ensures Has(r, x) <==> x <= j && Covered(stream, [j], x)
    {
      assert [j][0] == j;
    }
  }

  /** No turn beyond the last arrival is ever taken. */
  lemma DrainStaysBehind(stream: Stream, js: seq<nat>, r: Receiver, n: nat, last: nat)
    requires WellSent(stream) && Known(stream, js)
    requires Linked(r, stream.frames, n) && Holds(stream, js, r, n, last)
    requires n <= last + 1
    ensures n + |Drain(r, false).1| <= last + 1
  {
    hide PopStep, Covered, FramePacket;
    DrainLeavesLater(r, false);
    if Span(r) > 0 {
      AtIndex(n, Span(r) - 1);
      assert Has(r, n + Span(r) - 1);
    }
  }

  lemma DrainSettles(stream: Stream, js: seq<nat>, s: Session, r: Receiver, first: nat)
    requires WellSent(stream) && InOrder(stream, js) && js != [] && first == js[0]
    requires var n, last := first + |s.out|, js[|js| - 1];
             && Linked(r, stream.frames, n) && Holds(stream, js, r, n, last)
             && n <= last + 1 <= n + 0x1_0000
    requires forall m :: 0 <= m < |s.out| ==>
               Truthful(s.out[m], stream.frames, first + m)
               && (s.out[m].Played? <==> Covered(stream, js, first + m))
    ensures var (r', out) := Drain(r, false); Settled(stream, js, Session(r', s.out + out, first))
  {
    hide Truthful, Linked, Covered, Seq16;
    var n, last := first + |s.out|, js[|js| - 1];
    var (r', out) := Drain(r, false);
    DrainIsTruthful(r, stream.frames, n, false);
    DrainStaysBehind(stream, js, r, n, last);
    TruthfulAppend(s.out, out, stream.frames, first);
    forall m | 0 <= m < |s.out + out|
      ensures (s.out + out)[m].Played? <==> Covered(stream, js, first + m)
    {
      if m >= |s.out| {
        assert out[m - |s.out|].Played? <==> Has(r, n + (m - |s.out|));
      }
    }
    var n' := n + |out|;
    forall x {:trigger Has(r', x)} | n' <= x < n' + 0x1_0000
      ensures Has(r', x) <==> x <= last && Covered(stream, js, x)
    {
      if x < n + 0x1_0000 {
        DrainKeepsLater(r, stream.frames, n, false, x);
      } else {
        NothingBeyond(r, stream.frames, n, x);
      }
    }
  }

  /** A drained buffer holds nothing that was more than a wrap ahead before. */
  lemma NothingBeyond(r: Receiver, frames: seq<Bytes>, n: nat, x: int)
    requires Linked(r, frames, n)
    requires n + 0x1_0000 <= x < n + |Drain(r, false).1| + 0x1_0000
    ensures !Has(Drain(r, false).0, x)
  {
    hide Seq16, Time32, Dist, PopStep;
    DrainLeavesLater(r, false);
    OneWrap(x - 0x1_0000);
    TurnsAhead(n, x - 0x1_0000);
  }

  /** The arrivals but for the last. */
  function Before(js: seq<nat>): seq<nat>
    requires js != []
  {
    js[..|js| - 1]
  }

  lemma FrontIsNear(stream: Stream, maxBufferSize: int, js: seq<nat>)
    requires Known(stream, js) && js != [] && NeverFarAhead(stream, maxBufferSize, js)
    ensures NeverFarAhead(stream, maxBufferSize, Before(js))
  {
    hide ReceiveAll;
    assert forall k :: 0 < k < |js| - 1 ==> Before(js)[..k] == js[..k];
  }

  lemma FirstSettled(stream: Stream, maxBufferSize: int, js: seq<nat>)
    requires WellSent(stream) && InOrder(stream, js) && |js| == 1
    ensures Settled(stream, js, ReceiveAll(stream, maxBufferSize, js))
  {
    hide Settled;
    assert js == [js[0]];
    FirstPushSettles(stream, maxBufferSize, js[0]);
    DrainSettles(stream, js, NewSession(maxBufferSize),
                 PushStep(NewReceiver(maxBufferSize), stream.packets[js[0]]), js[0]);
  }

  lemma NextSettled(stream: Stream, maxBufferSize: int, js: seq<nat>)
    requires WellSent(stream) && InOrder(stream, js) && |js| > 1
    requires Settled(stream, Before(js), ReceiveAll(stream, maxBufferSize, Before(js)))
    requires js[|js| - 1] <= Next(ReceiveAll(stream, maxBufferSize, Before(js))) + 32768
    ensures Settled(stream, js, ReceiveAll(stream, maxBufferSize, js))
  {
    hide Linked, Truthful, Covered, Holds, PushStep;
    var s, j := ReceiveAll(stream, maxBufferSize, Before(js)), js[|js| - 1];
    PushSettles(stream, js, s);
    OutputStays(stream, js, s);
    assert s.receiver.initialized by { InitializedWhenSettled(stream, Before(js), s); }
    DrainSettles(stream, js, s, PushStep(s.receiver, stream.packets[j]), s.first);
  }

  lemma InitializedWhenSettled(stream: Stream, js: seq<nat>, s: Session)
    requires WellSent(stream) && InOrder(stream, js) && js != [] && Settled(stream, js, s)
    ensures s.receiver.initialized
  {
  }

  /** The invariant holds after every in-order arrival. */
  lemma {:induction false} AlwaysSettled(stream: Stream, maxBufferSize: int, js: seq<nat>)
    requires WellSent(stream) && InOrder(stream, js) && js != []
    requires NeverFarAhead(stream, maxBufferSize, js)
    ensures Settled(stream, js, ReceiveAll(stream, maxBufferSize, js))
  {
    hide Settled, WellSent;
    if |js| == 1 {
      FirstSettled(stream, maxBufferSize, js);
    } else {
      FrontIsNear(stream, maxBufferSize, js);
      AlwaysSettled(stream, maxBufferSize, Before(js));
      NextSettled(stream, maxBufferSize, js);
    }
  }

  lemma OutputStays(stream: Stream, js: seq<nat>, s: Session)
    requires WellSent(stream) && InOrder(stream, js) && |js| > 1
    requires Settled(stream, Before(js), s)
    ensures forall m :: 0 <= m < |s.out| ==>
              Truthful(s.out[m], stream.frames, s.first + m)
              && (s.out[m].Played? <==> Covered(stream, js, s.first + m))
  {
    hide Linked, Truthful, Covered, Holds;
    forall m | 0 <= m < |s.out|
      ensures s.out[m].Played? <==> Covered(stream, js, s.first + m)
    {
      CoveredIsStable(stream, js, s.first + m);
    }
  }

  // ---------------------------------------------------------------- exact recovery

  /**
   * The exact recovery condition. Any subset of the packets of a stream arrives in order, none of
   * them more than 32768 turns ahead of the output. Then turn after turn from the first arrival on,
   * the frame is played, with its own number, timestamp and payload, if and only if some arrived
   * packet carries it; otherwise its loss is announced. And exactly the carried frames that are still
   * to come are waiting in the buffer.
   */
  lemma RecoveryExactly(stream: Stream, maxBufferSize: int, js: seq<nat>)
    requires WellSent(stream) && InOrder(stream, js) && js != []
    requires NeverFarAhead(stream, maxBufferSize, js)
    ensures var s := ReceiveAll(stream, maxBufferSize, js);
            && s.first == js[0] && Next(s) <= js[|js| - 1] + 1
            && (forall m :: 0 <= m < |s.out| ==>
                  Says(s.out[m], stream.frames, js[0] + m, Covered(stream, js, js[0] + m)))
            && (forall i :: Next(s) <= i <= js[|js| - 1] ==>
                  (Covered(stream, js, i) <==> Seq16(i) in s.receiver.buffer))
  {
    hide Settled, Covered, CarriesAt, ReceiveAll;
    AlwaysSettled(stream, maxBufferSize, js);
    SettledMeans(stream, js, ReceiveAll(stream, maxBufferSize, js));
  }

  lemma SettledMeans(stream: Stream, js: seq<nat>, s: Session)
    requires WellSent(stream) && InOrder(stream, js) && js != []
    requires Settled(stream, js, s)
    ensures s.first == js[0] && Next(s) <= js[|js| - 1] + 1
    ensures forall m :: 0 <= m < |s.out| ==>
              Says(s.out[m], stream.frames, js[0] + m, Covered(stream, js, js[0] + m))
    ensures forall i :: Next(s) <= i <= js[|js| - 1] ==>
              (Covered(stream, js, i) <==> Seq16(i) in s.receiver.buffer)
  {
    hide CarriesAt, Increasing, Covered, Seq16, Linked, Truthful, Says;
    forall m | 0 <= m < |s.out|
      ensures Says(s.out[m], stream.frames, js[0] + m, Covered(stream, js, js[0] + m))
    {
      TruthfulSays(s.out[m], stream.frames, js[0] + m);
    }
    forall i | Next(s) <= i <= js[|js| - 1]
      ensures Covered(stream, js, i) <==> Seq16(i) in s.receiver.buffer
    {
      assert Has(s.receiver, i) <==> i <= js[|js| - 1] && Covered(stream, js, i);
    }
  }

  /** One of the packets i to i + depth arrived. */
  ghost predicate ArrivedWithin(js: seq<nat>, i: nat, depth: nat) {
    exists k :: 0 <= k < |js| && i <= js[k] <= i + depth
  }

  /** At constant depth d, frame i is carried by the packets i to i + d. */
  lemma CoveredAtConstantDepth(stream: Stream, js: seq<nat>, d: nat, i: nat)
    requires WellSent(stream) && InOrder(stream, js)
    requires forall j :: 0 <= j < |stream.reach| ==> stream.reach[j] == if j < d then j else d
    ensures Covered(stream, js, i) <==> ArrivedWithin(js, i, d)
  {
    if Covered(stream, js, i) {
      var k :| 0 <= k < |js| && Oldest(stream, js[k]) <= i <= js[k];
      assert i <= js[k] <= i + d;
    }
    if ArrivedWithin(js, i, d) {
      var k :| 0 <= k < |js| && i <= js[k] <= i + d;
      assert Oldest(stream, js[k]) <= i <= js[k];
    }
  }

  /** Each arrival repeats everything lost since the one before. */
  ghost predicate RunsAreRepaired(stream: Stream, js: seq<nat>)
    requires Known(stream, js)
  {
    forall k :: 0 < k < |js| ==> Oldest(stream, js[k]) <= js[k - 1] + 1
  }

  lemma {:induction false} RepairedRunIsCovered(stream: Stream, js: seq<nat>, i: int)
    requires WellSent(stream) && InOrder(stream, js) && js != []
    requires RunsAreRepaired(stream, js) && js[0] <= i <= js[|js| - 1]
    ensures Covered(stream, js, i)
  {
    hide CarriesAt, Covered;
    CoveredIsStable(stream, js, i);
    if |js| > 1 && i <= js[|js| - 2] {
      RepairedRunIsCovered(stream, Before(js), i);
    } else if |js| > 1 {
      assert Oldest(stream, js[|js| - 1]) <= js[|js| - 2] + 1;
    }
  }

  /** A settled buffer without holes drains completely. */
  lemma NothingWaits(stream: Stream, js: seq<nat>, s: Session)
    requires WellSent(stream) && InOrder(stream, js) && js != []
    requires Settled(stream, js, s) && RunsAreRepaired(stream, js)
    requires PopStep(s.receiver, false).1.Nothing?
    ensures Next(s) == js[|js| - 1] + 1
    ensures forall m :: 0 <= m < |s.out| ==> s.out[m].Played?
  {
    assert !Has(s.receiver, Next(s));
    hide Linked, Truthful, Covered, Seq16, PopStep;
    if Next(s) <= js[|js| - 1] {
      RepairedRunIsCovered(stream, js, Next(s));
    }
    forall m | 0 <= m < |s.out|
      ensures s.out[m].Played?
    {
      RepairedRunIsCovered(stream, js, s.first + m);
    }
  }

  lemma StillNear(stream: Stream, maxBufferSize: int, js: seq<nat>)
    requires WellSent(stream) && InOrder(stream, js) && |js| > 1
    requires RunsAreRepaired(stream, js) && NeverFarAhead(stream, maxBufferSize, Before(js))
    requires Next(ReceiveAll(stream, maxBufferSize, Before(js))) == js[|js| - 2] + 1
    ensures NeverFarAhead(stream, maxBufferSize, js)
  {
    hide Carries, ReceiveAll;
    var front, j := Before(js), js[|js| - 1];
    assert CarriesAt(stream, j) && Oldest(stream, js[|js| - 1]) <= js[|js| - 2] + 1;
    forall k | 0 < k < |js|
      ensures js[k] <= Next(ReceiveAll(stream, maxBufferSize, js[..k])) + 32768
    {
      if k < |front| {
        assert front[..k] == js[..k];
      }
    }
  }

  lemma NothingIsReady(stream: Stream, maxBufferSize: int, js: seq<nat>)
    requires Known(stream, js) && js != []
    ensures PopStep(ReceiveAll(stream, maxBufferSize, js).receiver, false).1.Nothing?
  {
    hide PopStep, PushStep, TurnsLater;
    DrainLeavesLater(
      PushStep(ReceiveAll(stream, maxBufferSize, Before(js)).receiver, stream.packets[js[|js| - 1]]), false);
  }

  lemma FirstOut(stream: Stream, js: seq<nat>, s: Session)
    requires WellSent(stream) && InOrder(stream, js) && js != [] && Settled(stream, js, s)
    ensures s.first == js[0]
  {
  }

  /** Repairable runs keep the output up with the arrivals. */
  lemma {:induction false} RepairedRunsKeepUp(stream: Stream, maxBufferSize: int, js: seq<nat>)
    requires WellSent(stream) && InOrder(stream, js) && js != []
    requires RunsAreRepaired(stream, js)
    ensures NeverFarAhead(stream, maxBufferSize, js)
    ensures var s := ReceiveAll(stream, maxBufferSize, js);
            && s.first == js[0] && Next(s) == js[|js| - 1] + 1
            && forall m :: 0 <= m < |s.out| ==> s.out[m].Played?
  {
    hide CarriesAt, ReceiveAll, Settled, PopStep;
    if |js| <= 1 {
    } else {
      RepairedRunsKeepUp(stream, maxBufferSize, Before(js));
      StillNear(stream, maxBufferSize, js);
    }
    AlwaysSettled(stream, maxBufferSize, js);
    NothingIsReady(stream, maxBufferSize, js);
    NothingWaits(stream, js, ReceiveAll(stream, maxBufferSize, js));
    FirstOut(stream, js, ReceiveAll(stream, maxBufferSize, js));
  }

  /**
   * Loss runs no longer than the repetition window go unnoticed, whatever the buffer size: every
   * frame from the first arrival to the last is played at once, none is skipped, none waits.
   */
  lemma RepairedRunsLoseNothing(stream: Stream, maxBufferSize: int, js: seq<nat>)
    requires WellSent(stream) && InOrder(stream, js) && js != []
    requires RunsAreRepaired(stream, js)
    ensures var s := ReceiveAll(stream, maxBufferSize, js);
            && |s.out| == js[|js| - 1] + 1 - js[0]
            && forall m :: 0 <= m < |s.out| ==> Says(s.out[m], stream.frames, js[0] + m, true)
  {
    hide CarriesAt, ReceiveAll, RunsAreRepaired, NeverFarAhead, Covered, FramePacket, Seq16;
    RepairedRunsKeepUp(stream, maxBufferSize, js);
    RecoveryExactly(stream, maxBufferSize, js);
    var s := ReceiveAll(stream, maxBufferSize, js);
    forall m | 0 <= m < |s.out|
      ensures Says(s.out[m], stream.frames, js[0] + m, true)
    {
      assert s.out[m].Played?;
    }
  }
}
