/**
 * The slow consumer's drop-oldest queue of cmd/worker/main.go: a producer that never blocks and a
 * consumer that lags, each step of either of them atomic, in every interleaving.
 */
module SlowQueue {
  import opened Basics

  /** Where the producer stands: between messages, found the queue full, or about to retry. */
  datatype Producer<T> = Idle | FoundFull(msg: T) | MadeRoom(msg: T)

  /** How a message left the queue. */
  datatype Removal<T> = Taken(msg: T) | Dropped(msg: T)

  /** The channel and the counter, with the record of what was offered and what became of it. */
  datatype Slow<T> = Slow(
    limit: nat,
    queue: seq<T>,
    slowDropped: nat,
    producer: Producer<T>,
    offered: seq<T>,
    removed: seq<Removal<T>>,
    refused: seq<T>)

  datatype Step<T> = Offer(msg: T) | DropOldest | RetryPush | Take

  function NewQueue<T>(limit: nat): Slow<T> {
    Slow(limit, [], 0, Idle, [], [], [])
  }

  /** A receive from the channel, non-blocking: nothing happens when it is empty. */
  function RemoveHead<T>(s: Slow<T>, how: T -> Removal<T>): Slow<T> {
    if s.queue == [] then s
    else s.(queue := s.queue[1..], removed := s.removed + [how(s.queue[0])])
  }

  /** One atomic step; a step its process is not ready for changes nothing. */
  function Do<T>(s: Slow<T>, step: Step<T>): Slow<T> {
    match step
    case Offer(msg) =>
      if s.producer != Idle then s
      else if |s.queue| < s.limit then s.(queue := s.queue + [msg], offered := s.offered + [msg])
      else s.(producer := FoundFull(msg), offered := s.offered + [msg])
    case DropOldest =>
      if !s.producer.FoundFull? then s
      else
        var s' := RemoveHead(s, m => Dropped(m));
        s'.(producer := MadeRoom(s.producer.msg),
            slowDropped := s.slowDropped + if s.queue == [] then 0 else 1)
    case RetryPush =>
      if !s.producer.MadeRoom? then s
      else if |s.queue| < s.limit then s.(producer := Idle, queue := s.queue + [s.producer.msg])
      else s.(producer := Idle, refused := s.refused + [s.producer.msg])
    case Take => RemoveHead(s, m => Taken(m))
  }

  function Run<T>(limit: nat, steps: seq<Step<T>>): Slow<T> {
    if steps == [] then NewQueue(limit) else Do(Run(limit, steps[..|steps| - 1]), steps[|steps| - 1])
  }

  // ---------------------------------------------------------------- what is in flight

  function Messages<T>(removed: seq<Removal<T>>): seq<T> {
    if removed == [] then [] else Messages(removed[..|removed| - 1]) + [removed[|removed| - 1].msg]
  }

  function TakenOf<T>(removed: seq<Removal<T>>): seq<T> {
    if removed == [] then []
    else
      var last := removed[|removed| - 1];
      TakenOf(removed[..|removed| - 1]) + if last.Taken? then [last.msg] else []
  }

  function Pending<T>(p: Producer<T>): seq<T> {
    if p.Idle? then [] else [p.msg]
  }

  /** a comes out of b by leaving elements out. */
  ghost predicate Subsequence<T>(a: seq<T>, b: seq<T>) {
    if a == [] then true
    else b != [] &&
         (Subsequence(a, b[..|b| - 1])
          || (a[|a| - 1] == b[|b| - 1] && Subsequence(a[..|a| - 1], b[..|b| - 1])))
  }

  /**
   * The queue never exceeds its limit, the producer's retry always finds room, and the messages
   * offered are, in order, those removed, those queued and the one in the producer's hands.
   */
  ghost predicate Invariant<T>(s: Slow<T>) {
    && |s.queue| <= s.limit
    && (s.producer.MadeRoom? ==> |s.queue| < s.limit)
    && s.refused == []
    && s.offered == Messages(s.removed) + s.queue + Pending(s.producer)
    && |s.removed| == |TakenOf(s.removed)| + s.slowDropped
  }

  lemma RemovalKeepsOrder<T>(s: Slow<T>, how: T -> Removal<T>)
    requires Invariant(s) && s.queue != []
    requires forall m :: how(m).msg == m
    ensures var s' := RemoveHead(s, how);
            && s.offered == Messages(s'.removed) + s'.queue + Pending(s.producer)
            && TakenOf(s'.removed) == TakenOf(s.removed) + (if how(s.queue[0]).Taken? then [s.queue[0]] else [])
  {
    var removed' := s.removed + [how(s.queue[0])];
    assert removed'[..|removed'| - 1] == s.removed;
    assert s.queue == [s.queue[0]] + s.queue[1..];
  }

  lemma StepKeeps<T>(s: Slow<T>, step: Step<T>)
    requires s.limit >= 1 && Invariant(s)
    ensures Invariant(Do(s, step))
  {
    hide Messages, TakenOf;
    match step
    case Offer(msg) => OfferKeeps(s, msg);
    case DropOldest =>
      if s.producer.FoundFull? && s.queue != [] {
        RemovalKeepsOrder(s, m => Dropped(m));
      }
    case RetryPush => RetryKeeps(s);
    case Take =>
      if s.queue != [] {
        RemovalKeepsOrder(s, m => Taken(m));
      }
  }

  lemma OfferKeeps<T>(s: Slow<T>, msg: T)
    requires Invariant(s)
    ensures Invariant(Do(s, Offer(msg)))
  {
    hide Messages, TakenOf;
    assert s.producer.Idle? ==> s.offered + [msg] == Messages(s.removed) + (s.queue + [msg]) + [];
    assert s.producer.Idle? ==> s.offered + [msg] == Messages(s.removed) + s.queue + [msg];
  }

  lemma RetryKeeps<T>(s: Slow<T>)
    requires Invariant(s)
    ensures Invariant(Do(s, RetryPush))
  {
    hide Messages, TakenOf;
    if s.producer.MadeRoom? {
      var msg := s.producer.msg;
      assert s.offered == Messages(s.removed) + (s.queue + [msg]) + [];
    }
  }

  lemma {:induction false} TakenIsSubsequence<T>(removed: seq<Removal<T>>)
    ensures Subsequence(TakenOf(removed), Messages(removed))
  {
    if removed == [] {
    } else {
      var front := removed[..|removed| - 1];
      TakenIsSubsequence(front);
      var taken, all := TakenOf(removed), Messages(removed);
      assert all[..|all| - 1] == Messages(front);
      if removed[|removed| - 1].Taken? {
        assert taken[..|taken| - 1] == TakenOf(front);
      } else {
        assert taken == TakenOf(front);
      }
    }
  }

  lemma {:induction false} SubsequenceExtends<T>(a: seq<T>, b: seq<T>, more: seq<T>)
    requires Subsequence(a, b)
    ensures Subsequence(a, b + more)
    decreases |more|
  {
    if more == [] {
      assert b + more == b;
    } else {
      var front := more[..|more| - 1];
      SubsequenceExtends(a, b, front);
      assert (b + more)[..|b + more| - 1] == b + front;
    }
  }

  /** The invariant in every reachable state, for every interleaving of the two processes. */
  lemma {:induction false} QueueInvariant<T>(limit: nat, steps: seq<Step<T>>)
    requires limit >= 1
    ensures Invariant(Run(limit, steps)) && Run(limit, steps).limit == limit
  {
    if steps == [] {
    } else {
      QueueInvariant(limit, steps[..|steps| - 1]);
      StepKeeps(Run(limit, steps[..|steps| - 1]), steps[|steps| - 1]);
    }
  }

  /**
   * Nothing is lost unseen, in any interleaving: the consumer takes a subsequence of what was
   * offered, in order; no retry is refused; between messages of the producer the offered messages
   * are as many as those taken, queued and counted as dropped; and the queue never exceeds its limit.
   */
  lemma DropOldestIsLossAware<T>(limit: nat, steps: seq<Step<T>>)
    requires limit >= 1
    ensures var s := Run(limit, steps);
            && |s.queue| <= limit
            && s.refused == []
            && Subsequence(TakenOf(s.removed), s.offered)
            && (s.producer == Idle ==> |s.offered| == |TakenOf(s.removed)| + |s.queue| + s.slowDropped)
  {
    hide Subsequence, Messages, TakenOf, Run;
    var s := Run(limit, steps);
    QueueInvariant(limit, steps);
    TakenIsSubsequence(s.removed);
    SubsequenceExtends(TakenOf(s.removed), Messages(s.removed), s.queue);
    SubsequenceExtends(TakenOf(s.removed), Messages(s.removed) + s.queue, Pending(s.producer));
    MessagesCount(s.removed);
  }

  lemma {:induction false} MessagesCount<T>(removed: seq<Removal<T>>)
    ensures |Messages(removed)| == |removed|
  {
    if removed == [] {
    } else {
      MessagesCount(removed[..|removed| - 1]);
    }
  }

  /** The newest messages survive: what is still queued is the tail of what was offered. */
  lemma QueueIsTheTail<T>(limit: nat, steps: seq<Step<T>>)
    requires limit >= 1 && Run(limit, steps).producer == Idle
    ensures var s := Run(limit, steps);
            |s.queue| <= |s.offered| && s.queue == s.offered[|s.offered| - |s.queue|..]
  {
    QueueInvariant(limit, steps);
  }

  // ---------------------------------------------------------------- what is dropped, and when

  /** How many messages the consumer took since the producer was offered its latest one. */
  function TakenSince<T>(limit: nat, steps: seq<Step<T>>): nat {
    if steps == [] then 0
    else
      var front, last := steps[..|steps| - 1], steps[|steps| - 1];
      var s := Run(limit, front);
      match last
      case Offer(_) => if s.producer.Idle? then 0 else TakenSince(limit, front)
      case Take => TakenSince(limit, front) + if s.queue == [] then 0 else 1
      case _ => TakenSince(limit, front)
  }

  /** Each drop, and the one under way, stems from an offer of its own that was none of the first limit ones. */
  ghost predicate Overflows<T>(s: Slow<T>, takenSince: nat) {
    && (s.producer.FoundFull? ==>
          && |s.queue| + takenSince == s.limit
          && s.slowDropped + 1 + s.limit <= |s.offered|)
    && (s.slowDropped > 0 ==> s.slowDropped + s.limit <= |s.offered|)
  }

  lemma {:induction false} RunOverflows<T>(limit: nat, steps: seq<Step<T>>)
    requires limit >= 1
    ensures Overflows(Run(limit, steps), TakenSince(limit, steps))
  {
    hide Subsequence, Messages, TakenOf;
    if steps == [] {
    } else {
      var front := steps[..|steps| - 1];
      RunOverflows(limit, front);
      QueueInvariant(limit, front);
      OfferedCount(Run(limit, front));
    }
  }

  lemma OfferedCount<T>(s: Slow<T>)
    requires Invariant(s)
    ensures |s.offered| == |TakenOf(s.removed)| + s.slowDropped + |s.queue| + (if s.producer.Idle? then 0 else 1)
  {
    MessagesCount(s.removed);
  }

  /** A counted drop takes more offers than the queue holds: one more for each drop. */
  lemma DropsNeedOffers<T>(limit: nat, steps: seq<Step<T>>)
    requires limit >= 1 && Run(limit, steps).slowDropped > 0
    ensures Run(limit, steps).slowDropped + limit <= |Run(limit, steps).offered|
  {
    RunOverflows(limit, steps);
    QueueInvariant(limit, steps);
  }

  /**
   * What a producer drops that has found the queue full, exactly. The consumer may have taken messages
   * in the meantime. If it took all of them, nothing is dropped; otherwise the message goes that was
   * offered limit places before the one in hand, less one place for each message taken since.
   */
  lemma DropsExactly<T>(limit: nat, steps: seq<Step<T>>)
    requires limit >= 1 && Run(limit, steps).producer.FoundFull?
    ensures var s, s' := Run(limit, steps), Run(limit, steps + [DropOldest]);
            var since, last := TakenSince(limit, steps), |s.offered| - 1;
            && since <= limit <= last && s.offered[last] == s.producer.msg
            && s' == s.(producer := MadeRoom(s.producer.msg),
                        slowDropped := s.slowDropped + (if since < limit then 1 else 0),
                        queue := s'.queue, removed := s'.removed)
            && (since == limit ==> s'.removed == s.removed && s'.queue == s.queue == [])
            && (since < limit ==>
                  && s'.removed == s.removed + [Dropped(s.offered[last - (limit - since)])]
                  && s'.queue == s.queue[1..] == s.offered[last + 1 - (limit - since)..last])
  {
    hide Subsequence, TakenOf;
    var s := Run(limit, steps);
    RunOverflows(limit, steps);
    QueueInvariant(limit, steps);
    assert (steps + [DropOldest])[..|steps|] == steps;
    if s.queue != [] {
      QueuedAt(s);
    }
  }

  lemma QueuedAt<T>(s: Slow<T>)
    requires Invariant(s) && !s.producer.Idle? && s.queue != []
    ensures var n := |s.offered| - 1;
            && |s.queue| <= n && s.offered[n] == s.producer.msg && s.queue[0] == s.offered[n - |s.queue|]
            && s.queue[1..] == s.offered[n - |s.queue| + 1..n]
  {
    hide Messages, TakenOf;
    var m := Messages(s.removed);
    assert s.offered == m + s.queue + [s.producer.msg];
    assert |m| == |s.offered| - 1 - |s.queue|;
  }

  lemma OneStepMore<T>(limit: nat, steps: seq<Step<T>>, step: Step<T>)
    ensures Run(limit, steps + [step]) == Do(Run(limit, steps), step)
  {
    assert (steps + [step])[..|steps|] == steps;
  }

  /** A message can be dropped although there is room by then: the consumer took one in between. */
  lemma DroppedNeedlessly<T>(a: T, b: T, c: T)
    ensures var steps := [Offer(a), Offer(b), Offer(c), Take];
            && |Run(2, steps).queue| < 2
            && Run(2, steps + [DropOldest]).removed == [Taken(a), Dropped(b)]
  {
    hide Run;
    NothingYet<T>(2);
    OneStepMore(2, [], Offer(a));
    OneStepMore(2, [] + [Offer(a)], Offer(b));
    OneStepMore(2, [] + [Offer(a)] + [Offer(b)], Offer(c));
    OneStepMore(2, [] + [Offer(a)] + [Offer(b)] + [Offer(c)], Take);
    var steps := [] + [Offer(a)] + [Offer(b)] + [Offer(c)] + [Take];
    assert steps == [Offer(a), Offer(b), Offer(c), Take];
    OneStepMore(2, steps, DropOldest);
  }

  lemma NothingYet<T>(limit: nat)
    ensures Run<T>(limit, []) == NewQueue(limit) && HoldsNewest<T>(NewQueue(limit))
  {
  }

  // ---------------------------------------------------------------- undisturbed runs

  /** At rest, without the consumer, the newest messages are queued and all others were dropped. */
  ghost predicate HoldsNewest<T>(s: Slow<T>) {
    match s.producer
    case Idle => s.queue == LastN(s.offered, s.limit) && s.slowDropped + |s.queue| == |s.offered|
    case FoundFull(_) => |s.queue| == s.limit && s.slowDropped + s.limit + 1 == |s.offered|
    case MadeRoom(_) => |s.queue| + 1 == s.limit && s.slowDropped + s.limit == |s.offered|
  }

  lemma HoldsNewestStep<T>(s: Slow<T>, step: Step<T>)
    requires s.limit >= 1 && Invariant(s) && HoldsNewest(s) && !step.Take?
    ensures HoldsNewest(Do(s, step))
  {
    hide Messages, TakenOf;
    var m := Messages(s.removed);
    match step
    case Offer(msg) =>
      if s.producer.Idle? && |s.queue| < s.limit {
        assert s.queue == s.offered;
      }
    case DropOldest =>
    case RetryPush =>
      if s.producer.MadeRoom? {
        var msg := s.producer.msg;
        assert s.offered == m + (s.queue + [msg]);
      }
  }

  lemma {:induction false} WithoutConsumer<T>(limit: nat, steps: seq<Step<T>>)
    requires limit >= 1 && forall step <- steps :: !step.Take?
    ensures Run(limit, steps).limit == limit && HoldsNewest(Run(limit, steps))
  {
    hide Invariant, HoldsNewest, Do;
    if steps == [] {
      NothingYet<T>(limit);
    } else {
      var front := steps[..|steps| - 1];
      WithoutConsumer(limit, front);
      QueueInvariant(limit, front);
      QueueInvariant(limit, steps);
      HoldsNewestStep(Run(limit, front), steps[|steps| - 1]);
    }
  }

  /** A producer and a consumer whose turns do not overlap. */
  datatype Turn<T> = Put(msg: T) | Get

  function StepsOf<T>(turn: Turn<T>): seq<Step<T>> {
    match turn
    case Put(msg) => [Offer(msg), DropOldest, RetryPush]
    case Get => [Take]
  }

  function Expand<T>(turns: seq<Turn<T>>): seq<Step<T>> {
    if turns == [] then [] else Expand(turns[..|turns| - 1]) + StepsOf(turns[|turns| - 1])
  }

  /** A window over the newest messages: a put adds one behind and keeps the last limit, a get removes the first. */
  function Window<T>(limit: nat, turns: seq<Turn<T>>): seq<T> {
    if turns == [] then []
    else
      var before := Window(limit, turns[..|turns| - 1]);
      match turns[|turns| - 1]
      case Put(msg) => LastN(before + [msg], limit)
      case Get => if before == [] then [] else before[1..]
  }

  lemma PutSlides<T>(limit: nat, steps: seq<Step<T>>, msg: T)
    requires limit >= 1 && Run(limit, steps).producer == Idle
    ensures var s, s' := Run(limit, steps), Run(limit, steps + StepsOf(Put(msg)));
            && s'.producer == Idle && s'.queue == LastN(s.queue + [msg], limit)
            && s'.offered == s.offered + [msg] && TakenOf(s'.removed) == TakenOf(s.removed)
  {
    hide Run, Messages, Subsequence;
    QueueInvariant(limit, steps);
    OneStepMore(limit, steps, Offer(msg));
    OneStepMore(limit, steps + [Offer(msg)], DropOldest);
    OneStepMore(limit, steps + [Offer(msg)] + [DropOldest], RetryPush);
    assert steps + StepsOf(Put(msg)) == steps + [Offer(msg)] + [DropOldest] + [RetryPush];
    var s := Run(limit, steps);
    assert forall m: T :: (s.removed + [Dropped(m)])[..|s.removed|] == s.removed;
  }

  /** Undisturbed, the three-step enqueue is a window that slides over the messages. */
  lemma {:induction false} UndisturbedIsWindow<T>(limit: nat, turns: seq<Turn<T>>)
    requires limit >= 1
    ensures var s := Run(limit, Expand(turns));
            s.producer == Idle && s.queue == Window(limit, turns)
  {
    hide Run;
    if turns == [] {
      NothingYet<T>(limit);
    } else {
      var front, last := turns[..|turns| - 1], turns[|turns| - 1];
      UndisturbedIsWindow(limit, front);
      match last
      case Put(msg) => PutSlides(limit, Expand(front), msg);
      case Get => OneStepMore(limit, Expand(front), Take);
    }
  }
}
