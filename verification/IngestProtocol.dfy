/**
 * The layer-upload protocol (fs-storage/src/server.rs:193-214 with the two readers
 * of fs-storage/src/layer_store.rs:101-162): one task moves the request stream into
 * two bounded channels while `put_blob` drains each channel to end-of-stream. The
 * steps of the three actors interleave freely.
 */
module IngestProtocol {
  import opened Basics
  import opened StreamAdapter

  /** `mpsc::channel(32)`. */
  const CAPACITY: nat := 32

  datatype Route = Deploy | Cache

  /** A stream message after the first; `Other` carries no chunk and is skipped. */
  datatype Message = Data(route: Route, chunk: Chunk) | Other

  /** Whether the two artifacts are read one after the other or both at once. */
  datatype Mode = Sequential | Concurrent

  /** The forwarding task: about to receive, holding a message to send, or finished. */
  datatype Demux = Receiving | Sending(route: Route, chunk: Chunk) | Ended

  /** One `put_blob`: its reader, the bytes read and hashed so far, the blob once stored. */
  datatype Sink = Sink(adapter: AdapterState, data: seq<byte>, hashed: seq<byte>, blob: Option<seq<byte>>)

  datatype State = State(input: seq<Message>, demux: Demux, deploy: Sink, cache: Sink) {
    function At(route: Route): Sink {
      if route.Deploy? then deploy else cache
    }

    function Put(route: Route, sink: Sink): State {
      if route.Deploy? then this.(deploy := sink) else this.(cache := sink)
    }
  }

  datatype Step = Receive | Send | HangUp | Read(route: Route, room: nat)

  const EMPTY_SINK := Sink(AdapterState([], None, 0), [], [], None)

  function Init(input: seq<Message>): State {
    State(input, Receiving, EMPTY_SINK, EMPTY_SINK)
  }

  predicate Completed(s: State) {
    s.deploy.blob.Some? && s.cache.blob.Some?
  }

  ghost predicate Enabled(mode: Mode, s: State, step: Step) {
    match step
    case Receive => s.demux.Receiving? && s.input != []
    case Send => s.demux.Sending? && |s.At(s.demux.route).adapter.queue| < CAPACITY
    case HangUp => s.demux.Receiving? && s.input == []
    case Read(route, room) =>
      var sink := s.At(route);
      && sink.blob.None? && room > 0 && sink.adapter.Valid()
      && (mode.Sequential? && route.Cache? ==> s.deploy.blob.Some?)
      // A poll that finds nothing leaves the reader asleep.
      && Polled(sink.adapter, s.demux.Ended?, room) != PollResult(sink.adapter, Pending)
  }

  function AfterPoll(sink: Sink, r: PollResult): Sink {
    if r.poll == Ready([]) then
      sink.(adapter := r.after, blob := Some(sink.data))
    else
      Sink(r.after, sink.data + r.poll.Delivered(), sink.hashed + r.poll.Delivered(), sink.blob)
  }

  ghost function Apply(mode: Mode, s: State, step: Step): State
    requires Enabled(mode, s, step)
  {
    match step
    case Receive =>
      var msg := s.input[0];
      s.(input := s.input[1..], demux := if msg.Data? then Sending(msg.route, msg.chunk) else Receiving)
    case Send =>
      var sink := s.At(s.demux.route);
      s.Put(s.demux.route, sink.(adapter := sink.adapter.(queue := sink.adapter.queue + [s.demux.chunk])))
       .(demux := Receiving)
    case HangUp => s.(demux := Ended)
    case Read(route, room) =>
      s.Put(route, AfterPoll(s.At(route), Polled(s.At(route).adapter, s.demux.Ended?, room)))
  }

  /** No actor can move. */
  ghost predicate Stopped(mode: Mode, s: State) {
    forall step :: !Enabled(mode, s, step)
  }

  /** Performing `steps` from `s` ends in `t`. */
  ghost predicate Leads(mode: Mode, s: State, steps: seq<Step>, t: State)
    decreases |steps|
  {
    if steps == [] then s == t
    else Enabled(mode, s, steps[0]) && Leads(mode, Apply(mode, s, steps[0]), steps[1..], t)
  }

  // --- What the stream asks for ---

  /** The chunks of one artifact, in stream order. */
  function ChunksFor(route: Route, input: seq<Message>): seq<Chunk> {
    if input == [] then []
    else (if input[0].Data? && input[0].route == route then [input[0].chunk] else []) + ChunksFor(route, input[1..])
  }

  /** Chunks of one artifact that have not reached its channel yet. */
  function Upstream(s: State, route: Route): seq<Chunk> {
    (if s.demux.Sending? && s.demux.route == route then [s.demux.chunk] else []) + ChunksFor(route, s.input)
  }

  /** All bytes of one artifact, wherever they currently are, in order. */
  function Flow(s: State, route: Route): seq<byte>
    requires s.At(route).adapter.Valid()
  {
    s.At(route).data + s.At(route).adapter.Unread() + Concat(Upstream(s, route))
  }

  // --- Invariant ---

  ghost predicate SinkInv(s: State, route: Route, goal: seq<Chunk>) {
    var sink := s.At(route);
    && sink.adapter.Valid() && |sink.adapter.queue| <= CAPACITY
    && sink.hashed == sink.data
    && Flow(s, route) == Concat(goal)
    && (sink.blob.Some? ==> s.demux.Ended? && sink.adapter.Unread() == [] && sink.blob.value == sink.data)
  }

  /** Reading in sequence, the cache channel only fills until the deploy blob is stored. */
  ghost predicate CacheUntouched(s: State, goal: seq<Chunk>) {
    if s.deploy.blob.Some? then |goal| <= CAPACITY
    else s.cache.blob.None? && |s.cache.adapter.queue| + |Upstream(s, Cache)| == |goal|
  }

  ghost predicate Inv(mode: Mode, input: seq<Message>, s: State) {
    && SinkInv(s, Deploy, ChunksFor(Deploy, input))
    && SinkInv(s, Cache, ChunksFor(Cache, input))
    && (s.demux.Ended? ==> s.input == [])
    && (mode.Sequential? ==> CacheUntouched(s, ChunksFor(Cache, input)))
  }

  // --- Ranking measure: each hop of a chunk and each delivered byte costs one ---

  function ChunkWork(chunks: seq<Chunk>): nat {
    if chunks == [] then 0 else |chunks[0]| + 2 + ChunkWork(chunks[1..])
  }

  function AdapterWork(a: AdapterState): nat
    requires a.Valid()
  {
    (if a.buffer.Some? then |a.Held()| + 1 else 0) + ChunkWork(a.queue)
  }

  function InputWork(input: seq<Message>): nat {
    if input == [] then 0
    else (if input[0].Data? then |input[0].chunk| + 4 else 1) + InputWork(input[1..])
  }

  function DemuxWork(d: Demux): nat {
    match d
    case Receiving => 1
    case Sending(_, chunk) => |chunk| + 4
    case Ended => 0
  }

  function SinkWork(sink: Sink): nat
    requires sink.adapter.Valid()
  {
    AdapterWork(sink.adapter) + if sink.blob.None? then 1 else 0
  }

  function Work(s: State): nat
    requires s.deploy.adapter.Valid() && s.cache.adapter.Valid()
  {
    InputWork(s.input) + DemuxWork(s.demux) + SinkWork(s.deploy) + SinkWork(s.cache)
  }

  lemma {:induction false} ChunkWorkSnoc(chunks: seq<Chunk>, last: Chunk)
    ensures ChunkWork(chunks + [last]) == ChunkWork(chunks) + |last| + 2
  {
    if chunks == [] {
    } else {
      assert (chunks + [last])[1..] == chunks[1..] + [last];
      ChunkWorkSnoc(chunks[1..], last);
    }
  }

  /** A poll with room either changes nothing or uses up work. */
  lemma {:induction false} PollUsesWork(a: AdapterState, closed: bool, room: nat)
    requires a.Valid() && room > 0
    ensures var r := Polled(a, closed, room);
            && (r.after == a || AdapterWork(r.after) < AdapterWork(a))
            && (r.after == a ==> r.poll.Delivered() == [])
            && |r.after.queue| <= |a.queue|
    decreases |a.queue|
  {
    if |a.Held()| == 0 && a.queue != [] {
      var next := AdapterState(a.queue[1..], Some(a.queue[0]), 0);
      assert AdapterWork(next) < AdapterWork(a);
      PollUsesWork(next, closed, room);
    }
  }

  // --- Every step keeps the invariant and uses up work ---

  lemma {:induction false} ReceiveStep(mode: Mode, input: seq<Message>, s: State)
    requires Inv(mode, input, s) && Enabled(mode, s, Receive)
    ensures var t := Apply(mode, s, Receive); Inv(mode, input, t) && Work(t) < Work(s)
  {
    var t := Apply(mode, s, Receive);
    assert Upstream(t, Deploy) == Upstream(s, Deploy);
    assert Upstream(t, Cache) == Upstream(s, Cache);
  }

  lemma {:induction false} SendKeepsFlow(mode: Mode, s: State, route: Route)
    requires Enabled(mode, s, Send) && s.At(route).adapter.Valid()
    ensures Flow(Apply(mode, s, Send), route) == Flow(s, route)
  {
    var t := Apply(mode, s, Send);
    if route == s.demux.route {
      var data, a, chunk, rest := s.At(route).data, s.At(route).adapter, s.demux.chunk, Upstream(t, route);
      ConcatSnoc(a.queue, chunk);
      assert Upstream(s, route) == [chunk] + rest;
      calc {
        Flow(t, route);
        data + (a.Held() + (Concat(a.queue) + chunk)) + Concat(rest);
        data + (a.Held() + Concat(a.queue)) + (chunk + Concat(rest));
        Flow(s, route);
      }
    } else {
      assert Upstream(t, route) == Upstream(s, route);
    }
  }

  lemma {:induction false} SendStep(mode: Mode, input: seq<Message>, s: State)
    requires Inv(mode, input, s) && Enabled(mode, s, Send)
    ensures var t := Apply(mode, s, Send); Inv(mode, input, t) && Work(t) < Work(s)
  {
    hide Concat, ChunksFor, Polled, InputWork;
    SendKeepsFlow(mode, s, Deploy);
    SendKeepsFlow(mode, s, Cache);
    ChunkWorkSnoc(s.At(s.demux.route).adapter.queue, s.demux.chunk);
  }

  lemma {:induction false} HangUpStep(mode: Mode, input: seq<Message>, s: State)
    requires Inv(mode, input, s) && Enabled(mode, s, HangUp)
    ensures var t := Apply(mode, s, HangUp); Inv(mode, input, t) && Work(t) < Work(s)
  {
    var t := Apply(mode, s, HangUp);
    assert Upstream(t, Deploy) == Upstream(s, Deploy);
    assert Upstream(t, Cache) == Upstream(s, Cache);
  }

  lemma {:induction false} ReadKeepsFlow(mode: Mode, s: State, route: Route, room: nat)
    requires Enabled(mode, s, Read(route, room))
    ensures Flow(Apply(mode, s, Read(route, room)), route) == Flow(s, route)
  {
    hide Polled, Concat, ChunksFor;
    var t := Apply(mode, s, Read(route, room));
    var sink, sink' := s.At(route), t.At(route);
    var r := Polled(sink.adapter, s.demux.Ended?, room);
    PollConservesBytes(sink.adapter, s.demux.Ended?, room);
    assert Upstream(t, route) == Upstream(s, route);
    assert sink'.data == sink.data + r.poll.Delivered();
    assert sink'.data + sink'.adapter.Unread() == sink.data + (r.poll.Delivered() + r.after.Unread());
  }

  lemma {:induction false} ReadKeepsSink(mode: Mode, s: State, route: Route, room: nat, goal: seq<Chunk>)
    requires SinkInv(s, route, goal) && Enabled(mode, s, Read(route, room))
    ensures var t := Apply(mode, s, Read(route, room));
            SinkInv(t, route, goal) && SinkWork(t.At(route)) < SinkWork(s.At(route))
  {
    ReadKeepsFlow(mode, s, route, room);
    PollDeliversInOrder(s.At(route).adapter, s.demux.Ended?, room);
    PollUsesWork(s.At(route).adapter, s.demux.Ended?, room);
  }

  lemma {:induction false} ReadStep(mode: Mode, input: seq<Message>, s: State, route: Route, room: nat)
    requires Inv(mode, input, s) && Enabled(mode, s, Read(route, room))
    ensures var t := Apply(mode, s, Read(route, room)); Inv(mode, input, t) && Work(t) < Work(s)
  {
    hide Concat, Polled, InputWork, ChunkWork;
    var t := Apply(mode, s, Read(route, room));
    ReadKeepsSink(mode, s, route, room, ChunksFor(route, input));
    var other := if route.Deploy? then Cache else Deploy;
    assert t.At(other) == s.At(other) && Upstream(t, other) == Upstream(s, other);
    assert SinkInv(t, other, ChunksFor(other, input));
  }

  lemma {:induction false} StepKeepsInv(mode: Mode, input: seq<Message>, s: State, step: Step)
    requires Inv(mode, input, s) && Enabled(mode, s, step)
    ensures var t := Apply(mode, s, step); Inv(mode, input, t) && Work(t) < Work(s)
  {
    match step
    case Receive => ReceiveStep(mode, input, s);
    case Send => SendStep(mode, input, s);
    case HangUp => HangUpStep(mode, input, s);
    case Read(route, room) => ReadStep(mode, input, s, route, room);
  }

  lemma {:induction false} InitInv(mode: Mode, input: seq<Message>)
    ensures Inv(mode, input, Init(input))
  {
    assert Upstream(Init(input), Deploy) == ChunksFor(Deploy, input);
    assert Upstream(Init(input), Cache) == ChunksFor(Cache, input);
  }

  lemma {:induction false} RunKeepsInv(mode: Mode, input: seq<Message>, s: State, steps: seq<Step>, t: State)
    requires Inv(mode, input, s) && Leads(mode, s, steps, t)
    ensures Inv(mode, input, t) && |steps| + Work(t) <= Work(s)
    decreases |steps|
  {
    if steps == [] {
    } else {
      StepKeepsInv(mode, input, s, steps[0]);
      RunKeepsInv(mode, input, Apply(mode, s, steps[0]), steps[1..], t);
    }
  }

  // --- Progress ---

  /** A reader with something to do, or a closed channel, can always move. */
  lemma {:induction false} ReaderCanMove(mode: Mode, input: seq<Message>, s: State, route: Route)
    requires Inv(mode, input, s) && s.At(route).blob.None?
    requires mode.Sequential? && route.Cache? ==> s.deploy.blob.Some?
    requires s.demux.Ended? || s.At(route).adapter.queue != []
    ensures Enabled(mode, s, Read(route, 1))
  {
    PollDeliversInOrder(s.At(route).adapter, s.demux.Ended?, 1);
    PollUsesWork(s.At(route).adapter, s.demux.Ended?, 1);
  }

  /** The one way to get stuck: reading in sequence with the cache channel full. */
  ghost predicate Deadlocked(mode: Mode, s: State) {
    && mode.Sequential? && s.deploy.blob.None?
    && s.demux.Sending? && s.demux.route == Cache && |s.cache.adapter.queue| >= CAPACITY
  }

  lemma {:induction false} NotStuck(mode: Mode, input: seq<Message>, s: State)
    requires Inv(mode, input, s) && !Completed(s) && !Deadlocked(mode, s)
    ensures !Stopped(mode, s)
  {
    match s.demux
    case Receiving =>
      assert Enabled(mode, s, if s.input == [] then HangUp else Receive);
    case Sending(route, _) =>
      if |s.At(route).adapter.queue| < CAPACITY {
        assert Enabled(mode, s, Send);
      } else {
        ReaderCanMove(mode, input, s, route);
      }
    case Ended =>
      ReaderCanMove(mode, input, s, if s.deploy.blob.None? then Deploy else Cache);
  }

  /**
   * Every run, for every message sequence and every interleaving: it is finite, with a
   * bound fixed by the stream; when it stops it has completed, except exactly when the
   * artifacts are read in sequence and there are more cache chunks than the channel
   * holds; and a completed run stored and hashed each artifact's chunks in stream order.
   */
  lemma {:induction false} EveryRunCompletes(mode: Mode, input: seq<Message>, steps: seq<Step>, s: State)
    requires Leads(mode, Init(input), steps, s)
    ensures |steps| <= Work(Init(input))
    ensures Stopped(mode, s) ==> (Completed(s) <==> mode.Concurrent? || |ChunksFor(Cache, input)| <= CAPACITY)
    ensures Completed(s) ==>
              && s.deploy.blob.value == s.deploy.hashed == Concat(ChunksFor(Deploy, input))
              && s.cache.blob.value == s.cache.hashed == Concat(ChunksFor(Cache, input))
  {
    hide Leads, Enabled, Init, Work, ChunkWork;
    InitInv(mode, input);
    RunKeepsInv(mode, input, Init(input), steps, s);
    if Completed(s) {
      assert Upstream(s, Deploy) == [] && Upstream(s, Cache) == [];
    } else if !Deadlocked(mode, s) {
      NotStuck(mode, input, s);
    }
  }

  /** Every reachable state, however reached, can be driven until it stops. */
  lemma {:induction false} RunsReachAStop(mode: Mode, input: seq<Message>, s: State)
    returns (steps: seq<Step>, t: State)
    requires Inv(mode, input, s)
    ensures Leads(mode, s, steps, t) && Stopped(mode, t)
    decreases Work(s)
  {
    if Stopped(mode, s) {
      steps, t := [], s;
    } else {
      var step :| Enabled(mode, s, step);
      StepKeepsInv(mode, input, s, step);
      var rest;
      rest, t := RunsReachAStop(mode, input, Apply(mode, s, step));
      steps := [step] + rest;
      assert steps[1..] == rest;
    }
  }

  /** The deadlock is real: with too many cache chunks some sequential run stops halfway. */
  lemma {:induction false} SequentialReadingDeadlocks(input: seq<Message>) returns (steps: seq<Step>, s: State)
    requires |ChunksFor(Cache, input)| > CAPACITY
    ensures Leads(Sequential, Init(input), steps, s) && Stopped(Sequential, s) && !Completed(s)
  {
    InitInv(Sequential, input);
    steps, s := RunsReachAStop(Sequential, input, Init(input));
    EveryRunCompletes(Sequential, input, steps, s);
  }

  // --- The handler gives up ---

  /**
   * What is left when the handler returns, because the layer is already there
   * (fs-storage/src/layer_store.rs:138-140) or a call failed: both receivers are dropped and
   * the forwarding task is on its own.
   */
  datatype Orphan = Orphan(input: seq<Message>, demux: Demux)

  function Abandoned(s: State): Orphan {
    Orphan(s.input, s.demux)
  }

  /** Its next step: a send, even one that was waiting for room, now fails and ends the task. */
  function OrphanStep(o: Orphan): Orphan {
    match o.demux
    case Receiving =>
      if o.input == [] then o.(demux := Ended)
      else
        var msg := o.input[0];
        Orphan(o.input[1..], if msg.Data? then Sending(msg.route, msg.chunk) else Receiving)
    case Sending(_, _) => o.(demux := Ended)
    case Ended => o
  }

  function OrphanAfter(o: Orphan, n: nat): Orphan
    decreases n
  {
    if n == 0 then o else OrphanAfter(OrphanStep(o), n - 1)
  }

  /** The messages up to and including the first one that carries a chunk. */
  function UpToChunk(input: seq<Message>): (n: nat)
    ensures n <= |input|
  {
    if input == [] then 0 else if input[0].Data? then 1 else 1 + UpToChunk(input[1..])
  }

  lemma {:induction false} EndedForGood(o: Orphan, n: nat)
    requires o.demux.Ended?
    ensures OrphanAfter(o, n) == o
    decreases n
  {
    if n == 0 {
    } else {
      EndedForGood(o, n - 1);
    }
  }

  /**
   * Wherever the protocol stood, full channels included: the abandoned task ends within the
   * messages up to the next chunk and two more steps, and reads nothing of the stream
   * beyond that chunk.
   */
  lemma {:induction false} AbandonedTaskEnds(s: State, n: nat)
    ensures var next := if s.demux.Receiving? then UpToChunk(s.input) else 0;
            n >= next + 2 ==> OrphanAfter(Abandoned(s), n) == Orphan(s.input[next..], Ended)
    decreases |s.input|
  {
    var next := if s.demux.Receiving? then UpToChunk(s.input) else 0;
    if n >= next + 2 {
      var o := OrphanStep(Abandoned(s));
      match s.demux
      case Receiving =>
        if s.input == [] {
          EndedForGood(o, n - 1);
        } else if s.input[0].Data? {
          EndedForGood(OrphanStep(o), n - 2);
          assert OrphanAfter(o, n - 1) == OrphanAfter(OrphanStep(o), n - 2);
        } else {
          AbandonedTaskEnds(s.(input := s.input[1..]), n - 1);
        }
      case Sending(_, _) =>
        EndedForGood(o, n - 1);
      case Ended =>
        EndedForGood(o, n - 1);
    }
  }

  /** Without the dropped receivers it would not: a full channel nobody reads holds the task forever. */
  lemma {:induction false} UnreadChannelBlocks(mode: Mode, s: State)
    requires s.demux.Sending? && |s.At(s.demux.route).adapter.queue| == CAPACITY
    ensures forall step :: Enabled(mode, s, step) ==> step.Read?
    ensures OrphanAfter(Abandoned(s), 1).demux.Ended?
  {
    assert OrphanAfter(OrphanStep(Abandoned(s)), 0) == OrphanStep(Abandoned(s));
  }
}
