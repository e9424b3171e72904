/**
 * The session router: one pipeline with its own bounded queue for each source
 * (internal/router/router.go), and pipelines working through their queues at their own pace.
 */
module SessionRouting {
  import opened Basics
  import opened RedPacketizer
  import opened Framing
  import SlowQueue

  type SessionId = string

  /** The input channel holds this many chunks; PushPCM drops a chunk when it is full. */
  const QUEUE_SIZE := 100

  /** A session's queue and pipeline, the chunks it has worked through, and how many were dropped. */
  datatype Worker<S> = Worker(queue: seq<Chunk>, pipe: Pipe<S>, done: seq<Chunk>, dropped: nat)

  /** What every session is made with: the encoder and its initial state, the resampler, the RED depth. */
  datatype Config<!S> = Config(encode: Encoder<S>, resample: Resampler, encoder: S, redDepth: nat)

  // ---------------------------------------------------------------- specification

  function NewWorker<S>(config: Config<S>): Worker<S> {
    Worker([], NewPipe(config.encoder, config.redDepth), [], 0)
  }

  /** PushPCM: empty chunks are ignored, and chunks for a full queue dropped. */
  function Enqueue<S>(w: Worker<S>, chunk: Chunk): Worker<S> {
    if |chunk.pcm| == 0 then w
    else if |w.queue| < QUEUE_SIZE then w.(queue := w.queue + [chunk])
    else w.(dropped := w.dropped + 1)
  }

  /** One round of a pipeline's own goroutine. */
  function WorkOne<S>(config: Config<S>, w: Worker<S>): Worker<S> {
    if w.queue == [] then w
    else w.(queue := w.queue[1..],
            pipe := ChunkStep(config.encode, config.resample, w.pipe, w.queue[0]),
            done := w.done + [w.queue[0]])
  }

  /**
   * A chunk is routed, or a session's goroutine does one round. A chunk for a new session carries
   * whether its pipeline could be created; if not, RouteChunk returns an error and does nothing.
   */
  datatype Event = Chunked(id: SessionId, chunk: Chunk, creatable: bool) | Worked(id: SessionId)

  function Handle<S>(config: Config<S>, workers: map<SessionId, Worker<S>>, e: Event): map<SessionId, Worker<S>> {
    match e
    case Chunked(id, chunk, creatable) =>
      if id in workers then workers[id := Enqueue(workers[id], chunk)]
      else if creatable then workers[id := Enqueue(NewWorker(config), chunk)]
      else workers
    case Worked(id) =>
      if id in workers then workers[id := WorkOne(config, workers[id])] else workers
  }

  function HandleAll<S>(config: Config<S>, events: seq<Event>): map<SessionId, Worker<S>> {
    if events == [] then map[]
    else Handle(config, HandleAll(config, events[..|events| - 1]), events[|events| - 1])
  }

  // ---------------------------------------------------------------- the objects

  /** A pipeline with its input channel; what it has worked through and dropped is recorded as ghosts. */
  class SessionWorker<S> {
    ghost const config: Config<S>
    const pipeline: Pipeline<S>
    var queue: seq<Chunk>
    ghost var done: seq<Chunk>
    ghost var dropped: nat

    ghost predicate Valid()
      reads this, pipeline, pipeline.packer
    {
      pipeline.Valid() && pipeline.encode == config.encode && pipeline.resample == config.resample
    }

    ghost function State(): Worker<S>
      reads this, pipeline, pipeline.packer
      requires Valid()
    {
      Worker(queue, pipeline.State(), done, dropped)
    }

    constructor (config: Config<S>)
      ensures Valid() && fresh(pipeline) && fresh(pipeline.packer)
      ensures this.config == config && State() == NewWorker(config)
    {
      this.config := config;
      pipeline := new Pipeline(config.encode, config.resample, config.encoder, config.redDepth);
      queue, done, dropped := [], [], 0;
    }

    /** pipeline.go:59-71, a send that never blocks. */
    method PushPCM(chunk: Chunk)
      requires Valid()
      modifies this
      ensures Valid() && State() == Enqueue(old(State()), chunk)
    {
      if |chunk.pcm| == 0 {
        return;
      }
      if |queue| < QUEUE_SIZE {
        queue := queue + [chunk];
      } else {
        dropped := dropped + 1;
      }
    }

    /** pipeline.go:104-118, one round of the loop: receive a chunk, if there is one, and process it. */
    method Round()
      requires Valid()
      modifies this, pipeline, pipeline.packer
      ensures Valid() && State() == WorkOne(config, old(State()))
    {
      if |queue| > 0 {
        var chunk := queue[0];
        queue := queue[1..];
        pipeline.ProcessChunk(chunk);
        done := done + [chunk];
      }
    }
  }

  class SessionRouter<S> {
    const config: Config<S>
    var workers: map<SessionId, SessionWorker<S>>

    ghost function Pipelines(): set<Pipeline<S>>
      reads this
    {
      set id | id in workers :: workers[id].pipeline
    }

    ghost function Packers(): set<RedPacker>
      reads this
    {
      set id | id in workers :: workers[id].pipeline.packer
    }

    /** No two sessions share a worker, a pipeline or a packetizer. */
    ghost predicate Separate()
      reads this
    {
      forall a, b :: a in workers && b in workers && a != b ==>
        && workers[a] != workers[b]
        && workers[a].pipeline != workers[b].pipeline
        && workers[a].pipeline.packer != workers[b].pipeline.packer
    }

    ghost predicate Valid()
      reads this, workers.Values, Pipelines(), Packers()
    {
      Separate() && forall id <- workers :: workers[id].Valid() && workers[id].config == config
    }

    ghost function View(): (view: map<SessionId, Worker<S>>)
      reads this, workers.Values, Pipelines(), Packers()
      requires Valid()
      ensures view.Keys == workers.Keys
    {
      map id | id in workers :: workers[id].State()
    }

    constructor (config: Config<S>)
      ensures this.config == config && Valid() && View() == map[] && workers == map[]
    {
      this.config := config;
      workers := map[];
    }

    /** A worker that no session has yet is taken in. */
    method Adopt(id: SessionId, worker: SessionWorker<S>)
      requires Valid() && id !in workers
      requires worker.Valid() && worker.config == config
      requires worker !in workers.Values && worker.pipeline !in Pipelines() && worker.pipeline.packer !in Packers()
      modifies `workers
      ensures Valid() && workers == old(workers)[id := worker]
      ensures View() == old(View())[id := worker.State()]
    {
      hide SessionWorker<S>.State, SessionWorker<S>.Valid;
      workers := workers[id := worker];
    }

    /** A new session gets a worker of its own. */
    method AddWorker(id: SessionId)
      requires Valid() && id !in workers
      modifies `workers
      ensures Valid() && id in workers && fresh(workers[id])
      ensures View() == old(View())[id := NewWorker(config)]
    {
      hide NewWorker, View, SessionWorker<S>.State, SessionWorker<S>.Valid;
      var worker := new SessionWorker(config);
      Adopt(id, worker);
    }

    /** The chunk joins the queue of its session, and nothing else changes. */
    method Push(id: SessionId, chunk: Chunk)
      requires Valid() && id in workers
      modifies workers[id]
      ensures Valid()
      ensures View() == old(View())[id := Enqueue(old(View())[id], chunk)]
    {
      hide Enqueue, SessionWorker<S>.State, SessionWorker<S>.Valid;
      workers[id].PushPCM(chunk);
    }

    /** Returns false where the source returns an error. */
    method RouteChunk(id: SessionId, chunk: Chunk, creatable: bool) returns (ok: bool)
      requires Valid()
      modifies this, if id in workers then {workers[id]} else {}
      ensures Valid() && View() == Handle(config, old(View()), Chunked(id, chunk, creatable))
      ensures ok <==> id in old(View()) || creatable
    {
      hide NewWorker, Enqueue, View, Valid;
      if id !in workers {
        if !creatable {
          return false;
        }
        AddWorker(id);
      }
      Push(id, chunk);
      return true;
    }

    /** One round of the goroutine of one session. */
    method Work(id: SessionId)
      requires Valid() && id in workers
      modifies workers[id], workers[id].pipeline, workers[id].pipeline.packer
      ensures Valid() && workers == old(workers)
      ensures View() == Handle(config, old(View()), Worked(id))
    {
      hide WorkOne, SessionWorker<S>.State, SessionWorker<S>.Valid;
      workers[id].Round();
    }
  }

  // ---------------------------------------------------------------- non-interference

  /** The events of one session. */
  function Own(events: seq<Event>, id: SessionId): seq<Event> {
    if events == [] then []
    else
      var last := events[|events| - 1];
      Own(events[..|events| - 1], id) + if last.id == id then [last] else []
  }

  function WorkerOf<S>(workers: map<SessionId, Worker<S>>, id: SessionId): Option<Worker<S>> {
    if id in workers then Some(workers[id]) else None
  }

  lemma HandleOther<S>(config: Config<S>, workers: map<SessionId, Worker<S>>, e: Event, id: SessionId)
    requires e.id != id
    ensures WorkerOf(Handle(config, workers, e), id) == WorkerOf(workers, id)
  {
  }

  lemma HandleOwn<S>(
      config: Config<S>, a: map<SessionId, Worker<S>>, b: map<SessionId, Worker<S>>, e: Event, id: SessionId)
    requires e.id == id && WorkerOf(a, id) == WorkerOf(b, id)
    ensures WorkerOf(Handle(config, a, e), id) == WorkerOf(Handle(config, b, e), id)
  {
  }

  /**
   * Sessions do not interfere, in any interleaving and whatever queues overflow: the queue, the
   * pipeline, the packets published and the drops of a session are those of a router that serves
   * this session alone.
   */
  lemma {:induction false} SessionsAreIndependent<S>(config: Config<S>, events: seq<Event>, id: SessionId)
    ensures WorkerOf(HandleAll(config, events), id) == WorkerOf(HandleAll(config, Own(events, id)), id)
  {
    hide Handle;
    if events == [] {
    } else {
      var front, last := events[..|events| - 1], events[|events| - 1];
      SessionsAreIndependent(config, front, id);
      if last.id == id {
        assert Own(events, id)[..|Own(events, id)| - 1] == Own(front, id);
        HandleOwn(config, HandleAll(config, front), HandleAll(config, Own(front, id)), last, id);
      } else {
        assert Own(events, id) == Own(front, id);
        HandleOther(config, HandleAll(config, front), last, id);
      }
    }
  }

  /** The non-empty chunks that reached a session: all of its own once its pipeline could be created. */
  function Offered(events: seq<Event>, id: SessionId): seq<Chunk> {
    if events == [] then []
    else
      var front, last := events[..|events| - 1], events[|events| - 1];
      if last.Chunked? && last.id == id && |last.chunk.pcm| > 0 && (last.creatable || Created(front, id))
      then Offered(front, id) + [last.chunk] else Offered(front, id)
  }

  /** Some chunk of the session found its pipeline creatable. */
  predicate Created(events: seq<Event>, id: SessionId) {
    events != [] &&
    var last := events[|events| - 1];
    Created(events[..|events| - 1], id) || (last.Chunked? && last.id == id && last.creatable)
  }

  /** What a session has published is what its pipeline publishes for the chunks it worked through. */
  ghost predicate InOrder<S>(config: Config<S>, w: Worker<S>, offered: seq<Chunk>) {
    && |w.queue| <= 100
    && w.pipe == ProcessChunks(config.encode, config.resample, NewPipe(config.encoder, config.redDepth), w.done)
    && |w.done| + |w.queue| + w.dropped == |offered|
    && SlowQueue.Subsequence(w.done + w.queue, offered)
    && (w.dropped == 0 ==> w.done + w.queue == offered)
  }

  lemma EnqueueInOrder<S>(config: Config<S>, w: Worker<S>, offered: seq<Chunk>, chunk: Chunk)
    requires InOrder(config, w, offered)
    ensures InOrder(config, Enqueue(w, chunk), if |chunk.pcm| == 0 then offered else offered + [chunk])
  {
    hide ChunkStep, ProcessChunks;
    Assoc(w.done, w.queue, [chunk]);
    var kept := w.done + w.queue;
    SlowQueue.SubsequenceExtends(kept, offered, [chunk]);
    assert (offered + [chunk])[..|offered|] == offered && (kept + [chunk])[..|kept|] == kept;
  }

  lemma WorkInOrder<S>(config: Config<S>, w: Worker<S>, offered: seq<Chunk>)
    requires InOrder(config, w, offered)
    ensures InOrder(config, WorkOne(config, w), offered)
  {
    hide ChunkStep;
    if w.queue != [] {
      var done := w.done + [w.queue[0]];
      assert done[..|done| - 1] == w.done;
      assert w.done + w.queue == done + w.queue[1..];
    }
  }

  /**
   * Every session works through its own chunks in order. Its packets are those of a pipeline run on
   * the chunks done; chunks done, queued and dropped are all that reached it; done and queued chunks
   * are a subsequence of the non-empty ones it was offered, in order; and they are all of them unless
   * its queue ever overflowed.
   */
  lemma {:induction false} SessionsKeepOrder<S>(config: Config<S>, events: seq<Event>, id: SessionId)
    ensures var workers := HandleAll(config, events);
            && (id in workers <==> Created(events, id))
            && (id in workers ==> InOrder(config, workers[id], Offered(events, id)))
            && (id !in workers ==> Offered(events, id) == [])
  {
    hide InOrder, ChunkStep, WorkOne, Enqueue;
    if events == [] {
    } else {
      var front, last := events[..|events| - 1], events[|events| - 1];
      SessionsKeepOrder(config, front, id);
      var workers := HandleAll(config, front);
      if last.id == id {
        match last
        case Chunked(_, chunk, creatable) =>
          if id in workers {
            EnqueueInOrder(config, workers[id], Offered(front, id), chunk);
          } else if creatable {
            NewWorkerInOrder(config);
            EnqueueInOrder(config, NewWorker(config), [], chunk);
          }
        case Worked(_) =>
          if id in workers {
            WorkInOrder(config, workers[id], Offered(front, id));
          }
      }
    }
  }

  /** What has been accepted is never given up again: a full queue drops the newest chunk, no other. */
  lemma AcceptedIsKept<S>(config: Config<S>, workers: map<SessionId, Worker<S>>, e: Event, id: SessionId)
    requires id in workers
    ensures var w := workers[id];
            id in Handle(config, workers, e)
            && var w' := Handle(config, workers, e)[id];
            && w.done + w.queue <= w'.done + w'.queue
            && w.done <= w'.done
            && w.dropped <= w'.dropped
            && (w.dropped < w'.dropped ==> |w.queue| >= 100 && w'.done + w'.queue == w.done + w.queue)
  {
    hide ChunkStep;
    var w := workers[id];
    if e.id == id && e.Worked? && w.queue != [] {
      assert w.done + w.queue == w.done + [w.queue[0]] + w.queue[1..];
    }
  }

  lemma NewWorkerInOrder<S>(config: Config<S>)
    ensures InOrder(config, NewWorker(config), [])
  {
  }

  // ---------------------------------------------------------------- progress

  /** How many rounds a session's goroutine does. */
  function Rounds(events: seq<Event>, id: SessionId): nat {
    if events == [] then 0
    else
      var last := events[|events| - 1];
      Rounds(events[..|events| - 1], id) + if last.Worked? && last.id == id then 1 else 0
  }

  /** w is w0 after it has worked through the first n of its queued chunks, and nothing else. */
  ghost predicate WorkedOff<S>(w: Worker<S>, w0: Worker<S>, n: nat)
    requires n <= |w0.queue|
  {
    w.queue == w0.queue[n..] && w.done == w0.done + w0.queue[..n] && w.dropped == w0.dropped
  }

  lemma WorkOneOff<S>(config: Config<S>, w: Worker<S>, w0: Worker<S>, n: nat)
    requires n <= |w0.queue| && WorkedOff(w, w0, n)
    ensures WorkedOff(WorkOne(config, w), w0, Min(n + 1, |w0.queue|))
  {
    hide ChunkStep;
    if n < |w0.queue| {
      assert w0.queue[..n] + [w0.queue[n]] == w0.queue[..n + 1];
    }
  }

  /**
   * Progress: while no chunk arrives for a session, and whatever happens to the others, k rounds of its
   * goroutine take the k oldest chunks off its queue, or all of them if there are fewer, in order and
   * dropping none; and what it has published is what its pipeline publishes for them.
   */
  lemma {:induction false} RoundsWorkOff<S>(config: Config<S>, events: seq<Event>, more: seq<Event>, id: SessionId)
    requires id in HandleAll(config, events)
    requires forall e <- more :: e.Chunked? ==> e.id != id
    ensures id in HandleAll(config, events + more)
    ensures var w0, w := HandleAll(config, events)[id], HandleAll(config, events + more)[id];
            WorkedOff(w, w0, Min(Rounds(more, id), |w0.queue|))
  {
    hide WorkOne, Enqueue, WorkedOff;
    var w0 := HandleAll(config, events)[id];
    if more == [] {
      assert events + more == events;
      NotWorked(w0);
    } else {
      var front, last := more[..|more| - 1], more[|more| - 1];
      RoundsWorkOff(config, events, front, id);
      assert (events + more)[..|events + more| - 1] == events + front;
      if last.Worked? && last.id == id {
        var n := Min(Rounds(front, id), |w0.queue|);
        WorkOneOff(config, HandleAll(config, events + front)[id], w0, n);
      }
    }
  }

  lemma NotWorked<S>(w: Worker<S>)
    ensures WorkedOff(w, w, 0)
  {
  }

  /** With as many rounds as chunks wait, a session has published all that it has accepted. */
  lemma EnoughRoundsPublishAll<S>(config: Config<S>, events: seq<Event>, more: seq<Event>, id: SessionId)
    requires id in HandleAll(config, events)
    requires forall e <- more :: e.Chunked? ==> e.id != id
    requires Rounds(more, id) >= |HandleAll(config, events)[id].queue|
    ensures id in HandleAll(config, events + more)
    ensures var w0, w := HandleAll(config, events)[id], HandleAll(config, events + more)[id];
            && w.queue == [] && w.done == w0.done + w0.queue && w.dropped == w0.dropped
            && w.pipe == ProcessChunks(config.encode, config.resample, NewPipe(config.encoder, config.redDepth),
                                       w0.done + w0.queue)
  {
    hide ProcessChunks, HandleAll, NewPipe;
    RoundsWorkOff(config, events, more, id);
    SessionsKeepOrder(config, events + more, id);
    var w0 := HandleAll(config, events)[id];
    assert w0.queue[|w0.queue|..] == [] && w0.queue[..|w0.queue|] == w0.queue;
  }
}
