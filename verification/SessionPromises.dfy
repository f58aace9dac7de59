/** What the answer to a request promises: IN_PROGRESS is sent exactly when a worker was started for it. */
module SessionPromises {
  import opened Protocol
  import opened Dispatch
  import opened Session
  import opened SessionTraffic

  ghost predicate HasWorker(ws: seq<Worker>, at: nat) {
    exists j :: 0 <= j < |ws| && ws[j].at == at
  }

  predicate SaysInProgress(reply: Frame) {
    reply.payload == [ERR_IN_PROGRESS]
  }

  ghost predicate Kept(reply: Frame, ws: seq<Worker>, at: nat) {
    SaysInProgress(reply) <==> HasWorker(ws, at)
  }

  /** No request but one that asks for a worker can be answered with IN_PROGRESS, and that one only if the
      worker starts. */
  lemma RouteProgress(p: Pending, req: Frame, env: Env)
    ensures var a := Route(p, req, env).action;
            && (a.Reply? ==> !SaysInProgress(a.frame))
            && (a.Spawn? ==> SaysInProgress(a.onSpawn) && !SaysInProgress(a.onFail))
  {
    var a := Route(p, req, env).action;
    if a.Reply? {
      assert a.frame.payload[0] != ERR_IN_PROGRESS;
    }
  }

  lemma TakesProgress(routed: seq<Event>, at: nat, a: Action)
    requires Takes(routed, at, a) && a.Spawn?
    ensures SaysInProgress(a.onSpawn) && !SaysInProgress(a.onFail)
  {
    var p, env :| RoutesWith(routed, at, a, p, env);
    RouteProgress(p, routed[at].frame, env);
  }

  /** The replies sent for the first requests, and the one being prepared for the last. */
  ghost predicate Promises(reqs: seq<nat>, replies: seq<Frame>, ws: seq<Worker>, r: Reader) {
    && |reqs| == |replies| + (if Owes(r) then 1 else 0)
    && (forall i :: 0 <= i < |replies| ==> Kept(replies[i], ws, reqs[i]))
    && (Owes(r) ==> if r.Replying? then Kept(r.reply, ws, reqs[|replies|]) else !HasWorker(ws, reqs[|replies|]))
  }

  ghost predicate PromisesOk(s: State) {
    Promises(Requests(s.routed), SentBy(s.log, FromReader), s.workers, s.reader)
  }

  ghost predicate Ascending(reqs: seq<nat>, bound: nat) {
    && (forall i :: 0 <= i < |reqs| ==> reqs[i] < bound)
    && (forall i, j :: 0 <= i < j < |reqs| ==> reqs[i] < reqs[j])
  }

  lemma {:induction false} RequestsAscend(routed: seq<Event>)
    ensures Ascending(Requests(routed), |routed|)
  {
    if routed == [] {
    } else {
      RequestsAscend(routed[..|routed| - 1]);
    }
  }

  // ---------- one step, on what it touches ----------

  lemma PromisesMoved(reqs: seq<nat>, replies: seq<Frame>, ws: seq<Worker>, r: Reader, i: nat, pc: WorkerPc)
    requires Promises(reqs, replies, ws, r) && i < |ws|
    ensures Promises(reqs, replies, ws[i := ws[i].(pc := pc)], r)
  {
    var ws' := ws[i := ws[i].(pc := pc)];
    forall at
      ensures HasWorker(ws', at) <==> HasWorker(ws, at)
    {
      assert forall j :: 0 <= j < |ws| ==> ws'[j].at == ws[j].at;
    }
  }

  lemma PromisesStarted(reqs: seq<nat>, replies: seq<Frame>, ws: seq<Worker>, r: Reader, w: Worker, r': Reader,
                        bound: nat)
    requires Promises(reqs, replies, ws, r) && Owes(r) && !r.Replying? && Ascending(reqs, bound)
    requires w.at == reqs[|replies|] && r'.Replying? && SaysInProgress(r'.reply)
    ensures Promises(reqs, replies, ws + [w], r')
  {
    var ws' := ws + [w];
    assert ws'[|ws|] == w;
    forall i | 0 <= i < |replies|
      ensures HasWorker(ws', reqs[i]) <==> HasWorker(ws, reqs[i])
    {
      assert forall j :: 0 <= j < |ws| ==> ws'[j] == ws[j];
    }
  }

  lemma PromisesSent(reqs: seq<nat>, replies: seq<Frame>, ws: seq<Worker>, r: Reader, r': Reader)
    requires Promises(reqs, replies, ws, r) && r.Replying? && !Owes(r')
    ensures Promises(reqs, replies + [r.reply], ws, r')
  {
  }

  lemma PromisesAsked(reqs: seq<nat>, replies: seq<Frame>, ws: seq<Worker>, r: Reader, at: nat, r': Reader)
    requires Promises(reqs, replies, ws, r) && !Owes(r) && Owes(r')
    requires !HasWorker(ws, at) && (r'.Replying? ==> !SaysInProgress(r'.reply))
    ensures Promises(reqs + [at], replies, ws, r')
  {
  }

  // ---------- one step of the connection ----------

  lemma PromisesHandle(s: State, env: Env)
    requires PromisesOk(s) && WorkersOk(s) && Enabled(s, HandleFrame(env))
    ensures PromisesOk(Apply(s, HandleFrame(env)))
  {
    var f := s.reader.todo[0];
    var a := Route(s.pending, f, env).action;
    var r' := AfterRoute(|s.routed|, a, s.reader.todo[1..]);
    RequestsSnoc(s.routed, Event(f, true, env));
    RouteAnswers(s.pending, f, env);
    RouteProgress(s.pending, f, env);
    if f.kind == TYPE_REQ {
      assert !HasWorker(s.workers, |s.routed|);
      PromisesAsked(Requests(s.routed), SentBy(s.log, FromReader), s.workers, s.reader, |s.routed|, r');
    }
  }

  lemma PromisesSpawn(s: State, step: Step)
    requires PromisesOk(s) && RepliesOk(s) && Enabled(s, step)
    requires step.RetainSink? || step.SpawnWorker? || step.UnspawnDrop? || step.UnspawnFree?
    ensures PromisesOk(Apply(s, step))
  {
    var reqs, replies := Requests(s.routed), SentBy(s.log, FromReader);
    RequestsAscend(s.routed);
    TakesProgress(s.routed, reqs[|replies|], s.reader.spawn);
    if step.SpawnWorker? && step.ok {
      var w := Worker(s.reader.at, s.reader.spawn.job, Working);
      PromisesStarted(reqs, replies, s.workers, s.reader, w, Apply(s, step).reader, |s.routed|);
    }
  }

  lemma PromisesReply(s: State, k: nat)
    requires PromisesOk(s) && Enabled(s, SendReply(k))
    ensures PromisesOk(Apply(s, SendReply(k)))
  {
    var t := Apply(s, SendReply(k));
    SentBySnoc(s.log, t.log[|s.log|], FromReader);
    PromisesSent(Requests(s.routed), SentBy(s.log, FromReader), s.workers, s.reader, t.reader);
  }

  lemma PromisesPushed(s: State, t: State, i: nat, e: Sent, pc: WorkerPc)
    requires PromisesOk(s) && i < |s.workers| && e.source == FromWorker(i)
    requires t.log == s.log + [e] && t.workers == s.workers[i := s.workers[i].(pc := pc)]
    requires t.routed == s.routed && t.reader == s.reader
    ensures PromisesOk(t)
  {
    SentBySnoc(s.log, e, FromReader);
    PromisesMoved(Requests(s.routed), SentBy(s.log, FromReader), s.workers, s.reader, i, pc);
  }

  lemma PromisesPush(s: State, i: nat, k: nat)
    requires PromisesOk(s) && Enabled(s, PushFrame(i, k))
    ensures PromisesOk(Apply(s, PushFrame(i, k)))
  {
    var pc := s.workers[i].pc;
    var e := Sent(FromWorker(i), NextPush(s.workers[i]), if s.client.open then Wrote(k) else Dropped);
    PromisesPushed(s, Apply(s, PushFrame(i, k)), i, e, pc.(sent := pc.sent + 1));
  }

  lemma PromisesWorker(s: State, step: Step)
    requires PromisesOk(s) && Enabled(s, step)
    requires step.WorkDone? || step.PushesDone? || step.WorkerDrop? || step.WorkerFree?
    ensures PromisesOk(Apply(s, step))
  {
    var t := Apply(s, step);
    PromisesMoved(Requests(s.routed), SentBy(s.log, FromReader), s.workers, s.reader, step.i, t.workers[step.i].pc);
  }

  lemma PromisesQuiet(s: State, t: State)
    requires PromisesOk(s) && Requests(t.routed) == Requests(s.routed) && t.log == s.log && t.workers == s.workers
    requires t.reader == s.reader || (!Owes(s.reader) && !Owes(t.reader))
    ensures PromisesOk(t)
  {
  }

  lemma PromisesOther(s: State, f: Frame, env: Env)
    requires PromisesOk(s)
    ensures PromisesOk(Apply(s, OtherTransport(f, env)))
  {
    RequestsSnoc(s.routed, Event(f, false, env));
    PromisesQuiet(s, Apply(s, OtherTransport(f, env)));
  }

  lemma PromisesStep(s: State, step: Step)
    requires PromisesOk(s) && RepliesOk(s) && WorkersOk(s) && Enabled(s, step)
    ensures PromisesOk(Apply(s, step))
  {
    match step
    case HandleFrame(env) => PromisesHandle(s, env);
    case OtherTransport(f, env) => PromisesOther(s, f, env);
    case RetainSink => PromisesSpawn(s, step);
    case SpawnWorker(_) => PromisesSpawn(s, step);
    case UnspawnDrop => PromisesSpawn(s, step);
    case UnspawnFree => PromisesSpawn(s, step);
    case SendReply(k) => PromisesReply(s, k);
    case PushFrame(i, k) => PromisesPush(s, i, k);
    case WorkDone(_, _) => PromisesWorker(s, step);
    case PushesDone(_) => PromisesWorker(s, step);
    case WorkerDrop(_) => PromisesWorker(s, step);
    case WorkerFree(_) => PromisesWorker(s, step);
    case _ => PromisesQuiet(s, Apply(s, step));
  }

  lemma {:induction false} PromisesAlways(run: seq<Step>)
    ensures After(run).Some? ==> PromisesOk(After(run).value)
  {
    if run == [] {
    } else if After(run).Some? {
      PromisesAlways(run[..|run| - 1]);
      TrafficAlways(run[..|run| - 1]);
      PromisesStep(After(run[..|run| - 1]).value, run[|run| - 1]);
    }
  }

  // ---------- from the phone's side ----------

  /** In every reachable state a request has been answered with IN_PROGRESS exactly when a worker was started
      for it, and then for no other request. */
  lemma InProgressIsAPromise(run: seq<Step>, i: nat)
    requires After(run).Some? && i < |SentBy(After(run).value.log, FromReader)|
    ensures var s := After(run).value;
            && i < |Requests(s.routed)|
            && var reply, at := SentBy(s.log, FromReader)[i], Requests(s.routed)[i];
               && (SaysInProgress(reply) <==> exists j :: 0 <= j < |s.workers| && s.workers[j].at == at)
               && (forall j, k :: 0 <= j < k < |s.workers| ==> s.workers[j].at != s.workers[k].at)
  {
    PromisesAlways(run);
    TrafficAlways(run);
    var s := After(run).value;
    assert WorkersOk(s);
    assert Kept(SentBy(s.log, FromReader)[i], s.workers, Requests(s.routed)[i]);
  }

  /** A CONNECT that was answered with IN_PROGRESS has its one worker, and when that has finished it has sent
      exactly one frame: the PUSH_RESULT with the sequence number of that CONNECT. */
  lemma AcceptedConnectIsPushed(run: seq<Step>, i: nat) returns (j: nat)
    requires After(run).Some? && i < |SentBy(After(run).value.log, FromReader)|
    requires i < |Requests(After(run).value.routed)|
             && Requests(After(run).value.routed)[i] < |After(run).value.routed|
             && IsConnect(After(run).value.routed[Requests(After(run).value.routed)[i]].frame)
    requires SaysInProgress(SentBy(After(run).value.log, FromReader)[i])
    ensures var s := After(run).value;
            var at := Requests(s.routed)[i];
            && j < |s.workers| && s.workers[j].at == at
            && (Finished(s.workers[j]) ==>
                  && s.workers[j].pc.result.ConnectDone?
                  && SentBy(s.log, FromWorker(j))
                     == [Push(s.routed[at].frame.seqNo, CMD_PUSH_RESULT, [ErrCode(s.workers[j].pc.result.status)])])
  {
    InProgressIsAPromise(run, i);
    var s := After(run).value;
    var at := Requests(s.routed)[i];
    j :| 0 <= j < |s.workers| && s.workers[j].at == at;
    if s.workers[j].job.ScanJob? {
      ScanWorkerJob(run, j);
    } else {
      ConnectWorkerJob(run, j);
      if Finished(s.workers[j]) { ConnectWorkerPushesOnce(run, j); }
    }
  }
}
