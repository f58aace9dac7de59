/** No thread of a connection is ever held up: in every reachable state each of them can take its next step,
    whatever that step's outcome. */
module SessionProgress {
  import opened Protocol
  import opened Dispatch
  import opened Session
  import opened SessionTraffic

  /** Every outcome of the reader's next call is possible. */
  ghost predicate ReaderMoves(s: State) {
    match s.reader
    case Reading => (forall data :: Enabled(s, Read(data))) && Enabled(s, ReadEnd)
    case Walking(todo) => if todo == [] then Enabled(s, BufferDone) else forall env :: Enabled(s, HandleFrame(env))
    case Retaining(_, _, _) => Enabled(s, RetainSink)
    case Spawning(_, _, _) => Enabled(s, SpawnWorker(true)) && Enabled(s, SpawnWorker(false))
    case Unspawning(_, _, _) => Enabled(s, UnspawnDrop)
    case UnspawnFreeing(_, _, _) => Enabled(s, UnspawnFree)
    case Replying(reply, _) => forall k :: 0 <= k <= reply.Size() ==> Enabled(s, SendReply(k))
    case Closing => Enabled(s, CloseClient)
    case Releasing => Enabled(s, ReleaseDrop)
    case Freeing => Enabled(s, ReleaseFree)
    case Gone => true
  }

  /** The same for worker `i`: any result that fits its job, any number of bytes of the next push. */
  ghost predicate WorkerMoves(s: State, i: nat)
    requires i < |s.workers|
  {
    var w := s.workers[i];
    match w.pc
    case Working => forall result :: Fits(w.job, result) && WellFormed(result) ==> Enabled(s, WorkDone(i, result))
    case Pushing(result, sent) =>
      && Fits(w.job, result) && WellFormed(result)
      && if sent < |Pushes(w.job, result)|
         then forall k :: 0 <= k <= Pushes(w.job, result)[sent].Size() ==> Enabled(s, PushFrame(i, k))
         else Enabled(s, PushesDone(i))
    case WorkerReleasing(_) => Enabled(s, WorkerDrop(i))
    case WorkerFreeing(_) => Enabled(s, WorkerFree(i))
    case WorkerGone(_) => true
  }

  /** What the guards of the reader's steps ask for. */
  lemma OwedIsReady(s: State)
    requires RepliesOk(s)
    ensures s.reader.Replying? ==> s.reader.reply.Representable()
    ensures s.reader.Spawning? || s.reader.Unspawning? || s.reader.UnspawnFreeing? ==> s.reader.spawn.Spawn?
  {
    if s.reader.Replying? {
      var reqs := Requests(s.routed);
      JustifiedAnswers(s.routed, reqs[|reqs| - 1], s.reader.reply);
    }
  }

  lemma ReadyReaderMoves(s: State)
    requires s.reader.Replying? ==> s.reader.reply.Representable()
    requires s.reader.Spawning? || s.reader.Unspawning? || s.reader.UnspawnFreeing? ==> s.reader.spawn.Spawn?
    ensures ReaderMoves(s)
  {
  }

  /** The reader is never held up. */
  lemma ReaderCanMove(run: seq<Step>)
    requires After(run).Some?
    ensures ReaderMoves(After(run).value)
  {
    TrafficAlways(run);
    OwedIsReady(After(run).value);
    ReadyReaderMoves(After(run).value);
  }

  lemma DeliveringWorkerMoves(s: State, i: nat)
    requires i < |s.workers| && Delivered(s.workers[i], SentBy(s.log, FromWorker(i)))
    ensures WorkerMoves(s, i)
  {
    var w := s.workers[i];
    if w.pc.Pushing? {
      PushesValid(w.job, w.pc.result);
    }
  }

  /** Nor is any worker. */
  lemma WorkerCanMove(run: seq<Step>, i: nat)
    requires After(run).Some? && i < |After(run).value.workers|
    ensures WorkerMoves(After(run).value, i)
  {
    TrafficAlways(run);
    var s := After(run).value;
    assert WorkersOk(s);
    DeliveringWorkerMoves(s, i);
  }
}
