/**
 * Which frames are recovered when packets arrive in any order, repeatedly, late, and frames are
 * requested at any time, with or without force.
 */
module AnyOrderRecovery {
  import opened Basics
  import opened RedPacketizer
  import opened RedReceiving
  import opened RedOutput
  import opened Recovery

  // ---------------------------------------------------------------- what came in time

  /** A delivery: frames lo..j are brought while it is this turn. */
  datatype Delivery = Delivery(turn: nat, lo: int, j: nat)

  /** The delivery brings frame x, its turn not over and at most 32768 turns away. */
  predicate InTime(d: Delivery, x: int) {
    d.lo <= x <= d.j && d.turn <= x <= d.turn + 32768
  }

  /** One of these deliveries brought frame x in time. */
  predicate Got(log: seq<Delivery>, x: int) {
    exists k :: 0 <= k < |log| && InTime(log[k], x)
  }

  lemma GotOneMore(log: seq<Delivery>, d: Delivery, x: int)
    ensures Got(log + [d], x) <==> Got(log, x) || InTime(d, x)
  {
    hide InTime;
    if k :| 0 <= k < |log| && InTime(log[k], x) {
      assert (log + [d])[k] == log[k];
    }
    assert (log + [d])[|log|] == d;
  }

  /** Packet j delivered to a session; the first packet sets the turn. */
  function DeliveryOf(stream: Stream, s: Session, j: nat): Delivery
    requires j < |stream.reach|
  {
    Delivery(if s.receiver.initialized then Next(s) else j, Oldest(stream, j), j)
  }

  /** Exactly the frames brought in time are waiting or were played. */
  ghost predicate Matches(s: Session, log: seq<Delivery>) {
    && (!s.receiver.initialized ==> log == [])
    && (s.receiver.initialized ==>
          (forall x {:trigger Has(s.receiver, x)} :: Next(s) <= x < Next(s) + 0x1_0000 ==>
             (Has(s.receiver, x) <==> Got(log, x)))
          && (forall x :: x > Next(s) + 32768 ==> !Got(log, x)))
    && forall m :: 0 <= m < |s.out| ==> (s.out[m].Played? <==> Got(log, s.first + m))
  }

  lemma DeliverMatches(stream: Stream, s: Session, j: nat, log: seq<Delivery>)
    requires |stream.reach| == |stream.packets| == |stream.frames| && j < |stream.reach| && CarriesAt(stream, j)
    requires Faithful(stream.frames, s) && Enabled(stream, s, Deliver(j)) && Matches(s, log)
    ensures Matches(NetStep(stream, s, Deliver(j)), log + [DeliveryOf(stream, s, j)])
  {
    hide Got, Linked, Truthful, Carries, PushStep, Seq16, SafeAt;
    var s', d := NetStep(stream, s, Deliver(j)), DeliveryOf(stream, s, j);
    var log' := log + [d];
    NearIsSafe(j, Oldest(stream, j), j);
    PushEffect(s.receiver, stream.packets[j], stream.frames, Next(s), Oldest(stream, j), j);
    LinkedIsInitialized(s'.receiver, stream.frames, d.turn);
    forall x
      ensures Got(log', x) <==> Got(log, x) || InTime(d, x)
    {
      GotOneMore(log, d, x);
    }
    NothingGot();
    forall x {:trigger Has(s'.receiver, x)} | d.turn <= x < d.turn + 0x1_0000
      ensures Has(s'.receiver, x) <==> Got(log', x)
    {
      assert s.receiver.initialized ==> (Has(s.receiver, x) <==> Got(log, x));
    }
  }

  lemma NothingGot()
    ensures forall x :: !Got([], x)
  {
  }

  /** One turn changes what is held only for the frame whose turn it was. */
  lemma PopKeepsOthers(r: Receiver, frames: seq<Bytes>, n: nat, force: bool)
    requires Linked(r, frames, n) && !PopStep(r, force).1.Nothing?
    ensures PopStep(r, force).1.Played? <==> Has(r, n)
    ensures var r' := PopStep(r, force).0;
            && r'.initialized
            && !Has(r', n + 0x1_0000)
            && forall x {:trigger Has(r', x)} :: n < x < n + 0x1_0000 ==> (Has(r', x) <==> Has(r, x))
  {
    var r' := PopStep(r, force).0;
    OneWrap(n);
    forall x {:trigger Has(r', x)} | n < x < n + 0x1_0000
      ensures Has(r', x) <==> Has(r, x)
    {
      TurnsAhead(n, x);
    }
  }

  lemma RequestMatches(stream: Stream, s: Session, force: bool, log: seq<Delivery>)
    requires Faithful(stream.frames, s) && Matches(s, log)
    ensures Matches(NetStep(stream, s, Request(force)), log)
  {
    hide Got, Linked, Truthful, Seq16;
    var s', n := NetStep(stream, s, Request(force)), Next(s);
    var (r', result) := PopStep(s.receiver, force);
    if result.Nothing? {
      assert s' == s;
    } else {
      PopKeepsOthers(s.receiver, stream.frames, n, force);
      assert Has(s.receiver, n) <==> Got(log, n);
      forall m | 0 <= m < |s'.out|
        ensures s'.out[m].Played? <==> Got(log, s'.first + m)
      {
        assert s'.out[m] == if m < |s.out| then s.out[m] else result;
      }
      forall x {:trigger Has(r', x)} | n + 1 <= x < n + 1 + 0x1_0000
        ensures Has(r', x) <==> Got(log, x)
      {
        if x < n + 0x1_0000 {
          assert Has(s.receiver, x) <==> Got(log, x);
        }
      }
    }
  }

  // ---------------------------------------------------------------- every run

  /** The deliveries among the first t events. */
  function Log(stream: Stream, run: seq<Session>, events: seq<NetEvent>, t: nat): seq<Delivery>
    requires t <= |events| && |run| == |events| + 1
    requires forall k :: 0 <= k < |events| && events[k].Deliver? ==> events[k].j < |stream.reach|
  {
    if t == 0 then []
    else if events[t - 1].Deliver? then
      Log(stream, run, events, t - 1) + [DeliveryOf(stream, run[t - 1], events[t - 1].j)]
    else Log(stream, run, events, t - 1)
  }

  lemma {:induction false} AlwaysMatches(stream: Stream, run: seq<Session>, events: seq<NetEvent>, t: nat)
    requires WellSent(stream) && IsNetRun(stream, run, events) && t <= |events|
    ensures Matches(run[t], Log(stream, run, events, t))
  {
    hide Matches, Faithful, CarriesAt;
    if t == 0 {
      assert run[0].receiver == NewReceiver(run[0].receiver.maxBufferSize) && run[0].out == [];
      NothingMatches(run[0]);
    } else {
      AlwaysMatches(stream, run, events, t - 1);
      NoWrongPayload(stream, run, events);
      assert Faithful(stream.frames, run[t - 1]);
      match events[t - 1]
      case Deliver(j) =>
        assert CarriesAt(stream, j);
        DeliverMatches(stream, run[t - 1], j, Log(stream, run, events, t - 1));
      case Request(force) => RequestMatches(stream, run[t - 1], force, Log(stream, run, events, t - 1));
    }
  }

  lemma NothingMatches(s: Session)
    requires !s.receiver.initialized && s.out == []
    ensures Matches(s, [])
  {
  }

  /** What was played and what was announced, as the deliveries say. */
  ghost predicate SaysAll(s: Session, frames: seq<Bytes>, log: seq<Delivery>) {
    forall m :: 0 <= m < |s.out| ==> Says(s.out[m], frames, s.first + m, Got(log, s.first + m))
  }

  lemma MatchesSays(s: Session, frames: seq<Bytes>, log: seq<Delivery>)
    requires Faithful(frames, s) && Matches(s, log)
    ensures SaysAll(s, frames, log)
  {
    hide Got, Says, Truthful, Right;
    forall m | 0 <= m < |s.out|
      ensures Says(s.out[m], frames, s.first + m, Got(log, s.first + m))
    {
      TruthfulSays(s.out[m], frames, s.first + m);
    }
  }

  /**
   * The exact recovery condition on any network. Packets of one stream are lost, repeated, delayed
   * and reordered at will, frames requested at will, and no delivered frame is taken for another one.
   * Then the result for turn i is frame i with its own number, timestamp and payload if and only if,
   * before that turn was over and at most 32768 turns ahead of it, some packet that carries frame i
   * was delivered; otherwise it is a notice with the number of frame i.
   */
  lemma RecoveredExactly(stream: Stream, run: seq<Session>, events: seq<NetEvent>)
    requires WellSent(stream) && IsNetRun(stream, run, events)
    ensures SaysAll(run[|events|], stream.frames, Log(stream, run, events, |events|))
  {
    hide CarriesAt, Matches, Faithful;
    AlwaysMatches(stream, run, events, |events|);
    NoWrongPayload(stream, run, events);
    MatchesSays(run[|events|], stream.frames, Log(stream, run, events, |events|));
  }

  // ---------------------------------------------------------------- draining is requesting

  /** k unforced requests in a row. */
  function Requests(stream: Stream, s: Session, k: nat): Session
    decreases k
  {
    if k == 0 then s else Requests(stream, NetStep(stream, s, Request(false)), k - 1)
  }

  /** The adapter's loop is a run of unforced requests, so all this holds for a drained receiver too. */
  lemma {:induction false} DrainIsRequests(stream: Stream, s: Session)
    ensures var (r', out) := Drain(s.receiver, false);
            Requests(stream, s, |out|) == Session(r', s.out + out, s.first)
    decreases Span(s.receiver)
  {
    hide PopStep, Span;
    var (r1, result) := PopStep(s.receiver, false);
    if result.Nothing? {
      assert s.out + [] == s.out;
    } else {
      PopShrinksSpan(s.receiver, false);
      DrainIsRequests(stream, NetStep(stream, s, Request(false)));
      Assoc(s.out, [result], Drain(r1, false).1);
    }
  }

  lemma {:induction false} RequestsKeep(stream: Stream, s: Session, k: nat, log: seq<Delivery>)
    requires Faithful(stream.frames, s) && Matches(s, log)
    ensures Faithful(stream.frames, Requests(stream, s, k)) && Matches(Requests(stream, s, k), log)
    decreases k
  {
    hide Faithful, Matches, NetStep;
    if k == 0 {
    } else {
      RequestIsFaithful(stream, s, false);
      RequestMatches(stream, s, false, log);
      RequestsKeep(stream, NetStep(stream, s, Request(false)), k - 1, log);
    }
  }

  /** One arrival at the adapter, packet pushed and buffer drained, keeps results right and complete. */
  lemma ArrivalKeeps(stream: Stream, s: Session, j: nat, log: seq<Delivery>)
    requires |stream.reach| == |stream.packets| == |stream.frames| && j < |stream.reach| && CarriesAt(stream, j)
    requires Faithful(stream.frames, s) && Enabled(stream, s, Deliver(j)) && Matches(s, log)
    ensures var s1 := NetStep(stream, s, Deliver(j));
            var (r', out) := Drain(s1.receiver, false);
            var s' := Session(r', s1.out + out, s1.first);
            Faithful(stream.frames, s') && Matches(s', log + [DeliveryOf(stream, s, j)])
  {
    hide CarriesAt, Faithful, Matches, Drain, Enabled, NetStep;
    DeliverIsFaithful(stream, s, j);
    DeliverMatches(stream, s, j, log);
    var s1 := NetStep(stream, s, Deliver(j));
    DrainIsRequests(stream, s1);
    RequestsKeep(stream, s1, |Drain(s1.receiver, false).1|, log + [DeliveryOf(stream, s, j)]);
  }
}
