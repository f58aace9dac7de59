/** One connection from accept to free: the reader thread, any number of CONNECT and SCAN workers and
    the other transports that share the pending credentials, interleaved at the grain of the client
    lock (system_service/unix_ipc.c:48-135 with system_service/proto_dispatch.c:80-368, 546-561). */
module Session {
  import opened Bytes
  import opened Protocol
  import opened ClientObject
  import opened Dispatch

  /** Where the reader thread is.  `todo` is the rest of the buffer being dispatched, `at` the position
      among the routed frames of the request whose worker is being started. */
  datatype Reader =
    | Reading
    | Walking(todo: seq<Frame>)
    | Retaining(at: nat, spawn: Action, todo: seq<Frame>)
    | Spawning(at: nat, spawn: Action, todo: seq<Frame>)
    | Unspawning(at: nat, spawn: Action, todo: seq<Frame>)
    | UnspawnFreeing(at: nat, spawn: Action, todo: seq<Frame>)
    | Replying(reply: Frame, todo: seq<Frame>)
    | Closing
    | Releasing
    | Freeing
    | Gone

  /** Where a worker is.  `at` is the position of its request among the routed frames. */
  datatype Worker = Worker(at: nat, job: Job, pc: WorkerPc)

  datatype WorkerPc =
    | Working
    | Pushing(result: JobResult, sent: nat)
    | WorkerReleasing(result: JobResult)
    | WorkerFreeing(result: JobResult)
    | WorkerGone(result: JobResult)

  datatype Source = FromReader | FromWorker(index: nat)

  datatype Fate = Dropped | Wrote(count: nat)

  /** One call of the send routine: who called it, with which frame, and how many bytes got out. */
  datatype Sent = Sent(source: Source, frame: Frame, fate: Fate)

  /** A frame that went through the dispatcher, on this connection (`own`) or on another transport, and what
      the rest of the process answered while it was handled. */
  datatype Event = Event(frame: Frame, own: bool, env: Env)

  /** `log` and `routed` are histories; `input` is every frame the reader decoded, in order. */
  datatype State = State(client: Client, pending: Pending, reader: Reader, workers: seq<Worker>,
                         log: seq<Sent>, routed: seq<Event>, input: seq<Frame>)

  const INITIAL := State(ACCEPTED, NOTHING_PENDING, Reading, [], [], [], [])

  datatype Step =
    | Read(data: seq<byte>)
    | ReadEnd
    | OtherTransport(frame: Frame, env: Env)
    | HandleFrame(env: Env)
    | BufferDone
    | RetainSink
    | SpawnWorker(ok: bool)
    | UnspawnDrop
    | UnspawnFree
    | SendReply(k: nat)
    | CloseClient
    | ReleaseDrop
    | ReleaseFree
    | WorkDone(i: nat, result: JobResult)
    | PushFrame(i: nat, k: nat)
    | PushesDone(i: nat)
    | WorkerDrop(i: nat)
    | WorkerFree(i: nat)

  ghost predicate Enabled(s: State, step: Step) {
    match step
    case Read(data) => s.reader.Reading?
    case ReadEnd => s.reader.Reading?
    case OtherTransport(_, _) => true
    case HandleFrame(_) => s.reader.Walking? && s.reader.todo != []
    case BufferDone => s.reader.Walking? && s.reader.todo == []
    case RetainSink => s.reader.Retaining?
    case SpawnWorker(_) => s.reader.Spawning? && s.reader.spawn.Spawn?
    case UnspawnDrop => s.reader.Unspawning? && s.reader.spawn.Spawn?
    case UnspawnFree => s.reader.UnspawnFreeing? && s.reader.spawn.Spawn?
    case SendReply(k) => s.reader.Replying? && s.reader.reply.Representable() && k <= s.reader.reply.Size()
    case CloseClient => s.reader.Closing?
    case ReleaseDrop => s.reader.Releasing?
    case ReleaseFree => s.reader.Freeing?
    case WorkDone(i, result) =>
      i < |s.workers| && s.workers[i].pc.Working? && Fits(s.workers[i].job, result) && WellFormed(result)
    case PushFrame(i, k) =>
      i < |s.workers| && CanPush(s.workers[i]) && NextPush(s.workers[i]).Representable()
      && k <= NextPush(s.workers[i]).Size()
    case PushesDone(i) =>
      i < |s.workers| && s.workers[i].pc.Pushing? && !CanPush(s.workers[i])
    case WorkerDrop(i) => i < |s.workers| && s.workers[i].pc.WorkerReleasing?
    case WorkerFree(i) => i < |s.workers| && s.workers[i].pc.WorkerFreeing?
  }

  ghost predicate CanPush(w: Worker) {
    w.pc.Pushing? && Fits(w.job, w.pc.result) && WellFormed(w.pc.result)
    && w.pc.sent < |Pushes(w.job, w.pc.result)|
  }

  ghost function NextPush(w: Worker): Frame
    requires CanPush(w)
  {
    Pushes(w.job, w.pc.result)[w.pc.sent]
  }

  /** A call of the send routine by `source`. */
  function DoSend(s: State, source: Source, f: Frame, k: nat): State
    requires f.Representable() && k <= f.Size()
  {
    s.(client := s.client.Send(Encode(f), k),
       log := s.log + [Sent(source, f, if s.client.open then Wrote(k) else Dropped)])
  }

  function AfterRoute(at: nat, a: Action, todo: seq<Frame>): Reader {
    match a
    case Silent => Walking(todo)
    case Reply(f) => Replying(f, todo)
    case Spawn(_, _, _) => Retaining(at, a, todo)
  }

  function WithPc(s: State, i: nat, pc: WorkerPc): State
    requires i < |s.workers|
  {
    s.(workers := s.workers[i := s.workers[i].(pc := pc)])
  }

  ghost function Apply(s: State, step: Step): State
    requires Enabled(s, step)
  {
    match step
    case Read(data) => 
      var fs := Walk(data).frames;
      s.(client := s.client.Touch(), reader := Walking(fs), input := s.input + fs)
    case ReadEnd => s.(client := s.client.Touch(), reader := Closing)
    case OtherTransport(f, env) =>
      s.(pending := Route(s.pending, f, env).pending, routed := s.routed + [Event(f, false, env)])
    case HandleFrame(env) =>
      var f := s.reader.todo[0];
      var r := Route(s.pending, f, env);
      s.(pending := r.pending, routed := s.routed + [Event(f, true, env)],
         reader := AfterRoute(|s.routed|, r.action, s.reader.todo[1..]))
    case BufferDone => s.(reader := Reading)
    case RetainSink => s.(client := s.client.Retain(), reader := Spawning(s.reader.at, s.reader.spawn, s.reader.todo))
    case SpawnWorker(ok) =>
      var a, todo := s.reader.spawn, s.reader.todo;
      if ok then s.(workers := s.workers + [Worker(s.reader.at, a.job, Working)],
                    reader := Replying(a.onSpawn, todo))
      else s.(reader := Unspawning(s.reader.at, a, todo))
    case UnspawnDrop =>
      var a, todo, c := s.reader.spawn, s.reader.todo, s.client.Drop();
      s.(client := c, reader := if c.refs == 0 then UnspawnFreeing(s.reader.at, a, todo) else Replying(a.onFail, todo))
    case UnspawnFree =>
      s.(client := s.client.Free(), reader := Replying(s.reader.spawn.onFail, s.reader.todo))
    case SendReply(k) => DoSend(s, FromReader, s.reader.reply, k).(reader := Walking(s.reader.todo))
    case CloseClient => s.(client := s.client.Shut(), reader := Releasing)
    case ReleaseDrop =>
      var c := s.client.Drop();
      s.(client := c, reader := if c.refs == 0 then Freeing else Gone)
    case ReleaseFree => s.(client := s.client.Free(), reader := Gone)
    case WorkDone(i, result) => WithPc(s, i, Pushing(result, 0))
    case PushFrame(i, k) =>
      var w := s.workers[i];
      WithPc(DoSend(s, FromWorker(i), NextPush(w), k), i, w.pc.(sent := w.pc.sent + 1))
    case PushesDone(i) => WithPc(s, i, WorkerReleasing(s.workers[i].pc.result))
    case WorkerDrop(i) =>
      var c, r := s.client.Drop(), s.workers[i].pc.result;
      WithPc(s.(client := c), i, if c.refs == 0 then WorkerFreeing(r) else WorkerGone(r))
    case WorkerFree(i) =>
      WithPc(s.(client := s.client.Free()), i, WorkerGone(s.workers[i].pc.result))
  }

  /** The state after the steps of `run` from a fresh connection; None if some step is not possible. */
  ghost function After(run: seq<Step>): Option<State> {
    if run == [] then Some(INITIAL)
    else
      var step := run[|run| - 1];
      match After(run[..|run| - 1])
      case None => None
      case Some(s) => if Enabled(s, step) then Some(Apply(s, step)) else None
  }
}
