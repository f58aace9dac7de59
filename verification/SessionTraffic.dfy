/** What one connection carries: whole frames in lock order, one reply per request, and for every
    started worker the frames of its result. */
module SessionTraffic {
  import opened Bytes
  import opened Protocol
  import opened Dispatch
  import opened Session
  import SessionLifetime
  import ScanPush

  // ---------- the log against the socket ----------

  ghost predicate EntryOk(e: Sent) {
    && e.frame.Valid() && e.frame.crc == 0
    && e.frame.kind == (if e.source.FromReader? then TYPE_RESP else TYPE_REQ)
    && (e.fate.Wrote? ==> e.fate.count <= e.frame.Size())
  }

  ghost predicate LogOk(log: seq<Sent>) {
    forall i :: 0 <= i < |log| ==> EntryOk(log[i])
  }

  ghost function OnWire(e: Sent): seq<byte>
    requires EntryOk(e)
  {
    match e.fate
    case Dropped => []
    case Wrote(k) => Encode(e.frame)[..k]
  }

  ghost function Flat(log: seq<Sent>): seq<byte>
    requires LogOk(log)
  {
    if log == [] then [] else Flat(log[..|log| - 1]) + OnWire(log[|log| - 1])
  }

  ghost predicate Complete(log: seq<Sent>) {
    forall i :: 0 <= i < |log| ==> log[i].fate == Wrote(log[i].frame.Size())
  }

  ghost function FramesOf(log: seq<Sent>): (fs: seq<Frame>)
    ensures |fs| == |log|
    ensures forall i :: 0 <= i < |log| ==> fs[i] == log[i].frame
  {
    seq(|log|, i requires 0 <= i < |log| => log[i].frame)
  }

  /** The socket holds what the log says; a send is dropped only after the close, and
      nothing is written after a drop. */
  ghost predicate WireOk(s: State) {
    && LogOk(s.log)
    && s.client.wire == Flat(s.log)
    && (s.client.open ==> forall i :: 0 <= i < |s.log| ==> s.log[i].fate.Wrote?)
    && (forall i, j :: 0 <= i < j < |s.log| && s.log[i].fate.Dropped? ==> s.log[j].fate.Dropped?)
  }

  lemma WholeOnWire(e: Sent)
    requires EntryOk(e) && e.fate == Wrote(e.frame.Size())
    ensures OnWire(e) == WireAll([e.frame])
  {
    assert e.frame.(crc := 0) == e.frame;
    assert WireAll([e.frame]) == Wire(e.frame) + WireAll([]);
    assert Encode(e.frame)[..e.frame.Size()] == Encode(e.frame);
  }

  lemma FramesValid(log: seq<Sent>)
    requires LogOk(log)
    ensures AllValid(FramesOf(log))
  {
    forall i | 0 <= i < |log|
      ensures FramesOf(log)[i].Valid()
    {
      assert EntryOk(log[i]);
    }
  }

  lemma FrontComplete(log: seq<Sent>)
    requires LogOk(log) && Complete(log) && log != []
    ensures var front, e := log[..|log| - 1], log[|log| - 1];
            && LogOk(front) && Complete(front) && EntryOk(e) && e.fate == Wrote(e.frame.Size())
            && log == front + [e] && Flat(log) == Flat(front) + OnWire(e)
  {
  }

  lemma {:induction false} FlatComplete(log: seq<Sent>)
    requires LogOk(log) && Complete(log)
    ensures AllValid(FramesOf(log)) && Flat(log) == WireAll(FramesOf(log))
  {
    FramesValid(log);
    if log == [] {
    } else {
      FrontComplete(log);
      FlatComplete(log[..|log| - 1]);
      FlatSnoc(log[..|log| - 1], log[|log| - 1]);
    }
  }

  lemma FlatSnoc(log: seq<Sent>, e: Sent)
    requires LogOk(log) && EntryOk(e) && e.fate == Wrote(e.frame.Size()) && AllValid(FramesOf(log + [e]))
    requires AllValid(FramesOf(log)) && Flat(log) == WireAll(FramesOf(log))
    ensures Flat(log) + OnWire(e) == WireAll(FramesOf(log + [e]))
  {
    assert FramesOf(log + [e]) == FramesOf(log) + [e.frame];
    WireAllAppend(FramesOf(log), [e.frame]);
    WholeOnWire(e);
  }

  lemma {:induction false} FlatPrefix(log: seq<Sent>, n: nat)
    requires LogOk(log) && n <= |log|
    ensures LogOk(log[..n]) && Flat(log[..n]) <= Flat(log)
    decreases |log|
  {
    if n < |log| {
      FlatPrefix(log[..|log| - 1], n);
      assert log[..|log| - 1][..n] == log[..n];
    } else {
      assert log[..n] == log;
    }
  }

  lemma WireSend(s: State, source: Source, f: Frame, k: nat)
    requires WireOk(s) && f.Valid() && f.crc == 0 && k <= f.Size()
    requires f.kind == if source.FromReader? then TYPE_RESP else TYPE_REQ
    ensures WireOk(DoSend(s, source, f, k))
  {
    var t := DoSend(s, source, f, k);
    var e := t.log[|s.log|];
    assert EntryOk(e);
    assert t.log[..|t.log| - 1] == s.log;
    assert Flat(t.log) == Flat(s.log) + OnWire(e);
    assert f.(crc := 0) == f;
  }

  // ---------- replies ----------

  ghost function Frames(routed: seq<Event>): (fs: seq<Frame>)
    ensures |fs| == |routed|
    ensures forall i :: 0 <= i < |routed| ==> fs[i] == routed[i].frame
  {
    seq(|routed|, i requires 0 <= i < |routed| => routed[i].frame)
  }

  /** The dispatcher, holding the latest accepted credentials, takes `a` for the frame at `at`. */
  ghost predicate RoutesWith(routed: seq<Event>, at: nat, a: Action, p: Pending, env: Env) {
    && at < |routed| && routed[at].own && routed[at].frame.kind == TYPE_REQ
    && LatestPending(Frames(routed[..at]), p)
    && env == routed[at].env && Route(p, routed[at].frame, env).action == a
  }

  ghost predicate Takes(routed: seq<Event>, at: nat, a: Action) {
    exists p, env :: RoutesWith(routed, at, a, p, env)
  }

  /** `r` is a reply the dispatcher gives to the frame at `at`. */
  ghost predicate Justified(routed: seq<Event>, at: nat, r: Frame) {
    exists a :: Takes(routed, at, a) && MayReply(a, r)
  }

  lemma TakesMono(routed: seq<Event>, e: Event, at: nat, a: Action)
    requires Takes(routed, at, a)
    ensures Takes(routed + [e], at, a)
  {
    var p, env :| RoutesWith(routed, at, a, p, env);
    assert (routed + [e])[..at] == routed[..at];
    assert RoutesWith(routed + [e], at, a, p, env);
  }

  lemma JustifiedMono(routed: seq<Event>, e: Event, at: nat, r: Frame)
    requires Justified(routed, at, r)
    ensures Justified(routed + [e], at, r)
  {
    var a :| Takes(routed, at, a) && MayReply(a, r);
    TakesMono(routed, e, at, a);
  }

  /** The positions of this connection's requests. */
  ghost function Requests(routed: seq<Event>): seq<nat> {
    if routed == [] then []
    else
      var n := |routed| - 1;
      Requests(routed[..n]) + if routed[n].own && routed[n].frame.kind == TYPE_REQ then [n] else []
  }

  lemma RequestsSnoc(routed: seq<Event>, e: Event)
    ensures Requests(routed + [e])
            == if e.own && e.frame.kind == TYPE_REQ then Requests(routed) + [|routed|] else Requests(routed)
  {
    assert (routed + [e])[..|routed|] == routed;
  }

  ghost function SentBy(log: seq<Sent>, source: Source): seq<Frame> {
    if log == [] then []
    else
      var n := |log| - 1;
      SentBy(log[..n], source) + if log[n].source == source then [log[n].frame] else []
  }

  lemma SentBySnoc(log: seq<Sent>, e: Sent, source: Source)
    ensures SentBy(log + [e], source)
            == if e.source == source then SentBy(log, source) + [e.frame] else SentBy(log, source)
  {
    assert (log + [e])[..|log|] == log;
  }

  predicate Owes(r: Reader) {
    r.Retaining? || r.Spawning? || r.Unspawning? || r.UnspawnFreeing? || r.Replying?
  }

  ghost predicate AllJustified(routed: seq<Event>, reqs: seq<nat>, replies: seq<Frame>) {
    |replies| <= |reqs| && forall i :: 0 <= i < |replies| ==> Justified(routed, reqs[i], replies[i])
  }

  /** The reply or worker being prepared belongs to the latest request. */
  ghost predicate OwedOk(routed: seq<Event>, at: nat, r: Reader) {
    if r.Replying? then Justified(routed, at, r.reply)
    else Owes(r) ==> r.at == at && r.spawn.Spawn? && Takes(routed, at, r.spawn)
  }

  ghost predicate RepliesOk(s: State) {
    var reqs, replies := Requests(s.routed), SentBy(s.log, FromReader);
    && LatestPending(Frames(s.routed), s.pending)
    && |reqs| == |replies| + (if Owes(s.reader) then 1 else 0)
    && AllJustified(s.routed, reqs, replies)
    && (Owes(s.reader) ==> OwedOk(s.routed, reqs[|reqs| - 1], s.reader))
  }

  lemma RepliesRoute(s: State, t: State, f: Frame, own: bool, env: Env)
    requires RepliesOk(s) && (own ==> !Owes(s.reader))
    requires t.pending == Route(s.pending, f, env).pending && t.routed == s.routed + [Event(f, own, env)]
    requires t.log == s.log
    ensures LatestPending(Frames(t.routed), t.pending)
    ensures AllJustified(t.routed, Requests(t.routed), SentBy(t.log, FromReader))
    ensures !own && Owes(s.reader) ==>
              Requests(t.routed) == Requests(s.routed)
              && OwedOk(t.routed, Requests(s.routed)[|Requests(s.routed)| - 1], s.reader)
    ensures own && f.kind == TYPE_REQ ==> Takes(t.routed, |s.routed|, Route(s.pending, f, env).action)
  {
    var e := Event(f, own, env);
    assert Frames(t.routed) == Frames(s.routed) + [f];
    RouteKeepsLatest(Frames(s.routed), s.pending, f, env);
    RequestsSnoc(s.routed, e);
    var reqs, replies := Requests(s.routed), SentBy(s.log, FromReader);
    forall i | 0 <= i < |replies|
      ensures Justified(t.routed, Requests(t.routed)[i], replies[i])
    {
      JustifiedMono(s.routed, e, reqs[i], replies[i]);
    }
    if !own && Owes(s.reader) {
      var at := reqs[|reqs| - 1];
      if s.reader.Replying? {
        JustifiedMono(s.routed, e, at, s.reader.reply);
      } else {
        TakesMono(s.routed, e, at, s.reader.spawn);
      }
    }
    if own && f.kind == TYPE_REQ {
      assert t.routed[..|s.routed|] == s.routed;
      assert RoutesWith(t.routed, |s.routed|, Route(s.pending, f, env).action, s.pending, env);
    }
  }

  lemma JustifiedAnswers(routed: seq<Event>, at: nat, r: Frame)
    requires Justified(routed, at, r)
    ensures at < |routed| && routed[at].own && routed[at].frame.kind == TYPE_REQ
    ensures Answers(r, routed[at].frame)
  {
    var a :| Takes(routed, at, a) && MayReply(a, r);
    var p, env :| RoutesWith(routed, at, a, p, env);
    RouteAnswers(p, routed[at].frame, env);
  }

  lemma OwedStep(s: State, step: Step, at: nat)
    requires Enabled(s, step) && OwedOk(s.routed, at, s.reader)
    requires step.RetainSink? || step.SpawnWorker? || step.UnspawnDrop? || step.UnspawnFree?
    ensures var t := Apply(s, step);
            && Owes(s.reader) && Owes(t.reader) && OwedOk(t.routed, at, t.reader)
            && t.log == s.log && t.pending == s.pending && t.routed == s.routed
  {
    var a := s.reader.spawn;
    assert a.Spawn? ==> MayReply(a, a.onSpawn) && MayReply(a, a.onFail);
  }

  lemma RepliesSpawn(s: State, step: Step)
    requires RepliesOk(s) && Enabled(s, step)
    requires step.RetainSink? || step.SpawnWorker? || step.UnspawnDrop? || step.UnspawnFree?
    ensures RepliesOk(Apply(s, step))
  {
    var reqs := Requests(s.routed);
    OwedStep(s, step, reqs[|reqs| - 1]);
  }

  lemma RepliesSend(s: State, t: State, e: Sent)
    requires RepliesOk(s) && t.log == s.log + [e] && t.pending == s.pending && t.routed == s.routed
    requires if e.source == FromReader
             then s.reader.Replying? && e.frame == s.reader.reply && t.reader == Walking(s.reader.todo)
             else t.reader == s.reader
    ensures RepliesOk(t)
  {
    SentBySnoc(s.log, e, FromReader);
    if e.source == FromReader {
      JustifiedSnoc(s.routed, Requests(s.routed), SentBy(s.log, FromReader), e.frame);
    }
  }

  lemma JustifiedSnoc(routed: seq<Event>, reqs: seq<nat>, replies: seq<Frame>, r: Frame)
    requires AllJustified(routed, reqs, replies) && |replies| < |reqs| && Justified(routed, reqs[|replies|], r)
    ensures AllJustified(routed, reqs, replies + [r])
  {
  }

  lemma RepliesOther(s: State, f: Frame, env: Env)
    requires RepliesOk(s)
    ensures RepliesOk(Apply(s, OtherTransport(f, env)))
  {
    RepliesRoute(s, Apply(s, OtherTransport(f, env)), f, false, env);
    RequestsSnoc(s.routed, Event(f, false, env));
  }

  lemma RepliesSends(s: State, step: Step)
    requires RepliesOk(s) && Enabled(s, step) && (step.SendReply? || step.PushFrame?)
    ensures RepliesOk(Apply(s, step))
  {
    RepliesSend(s, Apply(s, step), Apply(s, step).log[|s.log|]);
  }

  lemma RepliesQuiet(s: State, t: State)
    requires RepliesOk(s) && t.routed == s.routed && t.log == s.log && t.pending == s.pending
    requires t.reader == s.reader || (!Owes(s.reader) && !Owes(t.reader))
    ensures RepliesOk(t)
  {
  }

  lemma RepliesStep(s: State, step: Step)
    requires RepliesOk(s) && Enabled(s, step)
    ensures RepliesOk(Apply(s, step))
  {
    match step
    case OtherTransport(f, env) => RepliesOther(s, f, env);
    case HandleFrame(env) => RepliesHandle(s, env);
    case SendReply(_) => RepliesSends(s, step);
    case PushFrame(_, _) => RepliesSends(s, step);
    case RetainSink => RepliesSpawn(s, step);
    case SpawnWorker(_) => RepliesSpawn(s, step);
    case UnspawnDrop => RepliesSpawn(s, step);
    case UnspawnFree => RepliesSpawn(s, step);
    case _ => RepliesQuiet(s, Apply(s, step));
  }

  lemma RepliesHandle(s: State, env: Env)
    requires RepliesOk(s) && Enabled(s, HandleFrame(env))
    ensures RepliesOk(Apply(s, HandleFrame(env)))
  {
    var f := s.reader.todo[0];
    var t := Apply(s, HandleFrame(env));
    var a := Route(s.pending, f, env).action;
    RepliesRoute(s, t, f, true, env);
    RequestsSnoc(s.routed, Event(f, true, env));
    RouteAnswers(s.pending, f, env);
    if a.Reply? {
      assert MayReply(a, a.frame);
    }
  }

  lemma WireQuiet(s: State, t: State)
    requires WireOk(s) && t.log == s.log && t.client.wire == s.client.wire && (t.client.open ==> s.client.open)
    ensures WireOk(t)
  {
  }

  lemma WireStep(s: State, step: Step)
    requires WireOk(s) && RepliesOk(s) && Enabled(s, step)
    ensures WireOk(Apply(s, step))
  {
    match step
    case SendReply(k) => WireReply(s, k);
    case PushFrame(i, k) => WirePush(s, i, k);
    case _ => WireQuiet(s, Apply(s, step));
  }

  lemma WireReply(s: State, k: nat)
    requires WireOk(s) && RepliesOk(s) && Enabled(s, SendReply(k))
    ensures WireOk(Apply(s, SendReply(k)))
  {
    var reqs := Requests(s.routed);
    JustifiedAnswers(s.routed, reqs[|reqs| - 1], s.reader.reply);
    WireSend(s, FromReader, s.reader.reply, k);
    WireQuiet(DoSend(s, FromReader, s.reader.reply, k), Apply(s, SendReply(k)));
  }

  lemma WirePush(s: State, i: nat, k: nat)
    requires WireOk(s) && Enabled(s, PushFrame(i, k))
    ensures WireOk(Apply(s, PushFrame(i, k)))
  {
    var w := s.workers[i];
    PushesValid(w.job, w.pc.result);
    WireSend(s, FromWorker(i), NextPush(w), k);
    WireQuiet(DoSend(s, FromWorker(i), NextPush(w), k), Apply(s, PushFrame(i, k)));
  }

  // ---------- workers ----------

  /** The frames worker `w` has handed to the send routine so far. */
  ghost predicate Delivered(w: Worker, fs: seq<Frame>) {
    match w.pc
    case Working => fs == []
    case Pushing(result, sent) =>
      && Fits(w.job, result) && WellFormed(result)
      && sent <= |Pushes(w.job, result)| && fs == Pushes(w.job, result)[..sent]
    case _ => Fits(w.job, w.pc.result) && WellFormed(w.pc.result) && fs == Pushes(w.job, w.pc.result)
  }

  /** The request at `w.at` asked for this worker. */
  ghost predicate Started(routed: seq<Event>, w: Worker) {
    exists a :: Takes(routed, w.at, a) && a.Spawn? && a.job == w.job
  }

  ghost predicate WorkersOk(s: State) {
    && (forall i :: 0 <= i < |s.workers| ==>
          s.workers[i].at < |s.routed| && Started(s.routed, s.workers[i])
          && Delivered(s.workers[i], SentBy(s.log, FromWorker(i))))
    && (forall i :: |s.workers| <= i ==> SentBy(s.log, FromWorker(i)) == [])
    && (forall i, j :: 0 <= i < j < |s.workers| ==> s.workers[i].at < s.workers[j].at)
    && (s.reader.Retaining? || s.reader.Spawning? ==>
          s.reader.at < |s.routed| && forall i :: 0 <= i < |s.workers| ==> s.workers[i].at < s.reader.at)
  }

  lemma StartedMono(routed: seq<Event>, e: Event, w: Worker)
    requires Started(routed, w)
    ensures Started(routed + [e], w)
  {
    var a :| Takes(routed, w.at, a) && a.Spawn? && a.job == w.job;
    TakesMono(routed, e, w.at, a);
  }

  lemma WorkersRoute(s: State, t: State, e: Event)
    requires WorkersOk(s)
    requires t.routed == s.routed + [e] && t.workers == s.workers && t.log == s.log
    requires t.reader.Retaining? || t.reader.Spawning? ==> t.reader == s.reader || t.reader.at == |s.routed|
    ensures WorkersOk(t)
  {
    forall i | 0 <= i < |s.workers|
      ensures Started(t.routed, t.workers[i])
    {
      StartedMono(s.routed, e, s.workers[i]);
    }
  }

  lemma WorkersReply(s: State, t: State, e: Sent)
    requires WorkersOk(s) && e.source == FromReader && t.log == s.log + [e]
    requires t.routed == s.routed && t.workers == s.workers && t.reader.Walking?
    ensures WorkersOk(t)
  {
    forall i: nat
      ensures SentBy(t.log, FromWorker(i)) == SentBy(s.log, FromWorker(i))
    {
      SentBySnoc(s.log, e, FromWorker(i));
    }
  }

  lemma DeliveredPush(w: Worker, fs: seq<Frame>)
    requires CanPush(w) && Delivered(w, fs)
    ensures Delivered(w.(pc := w.pc.(sent := w.pc.sent + 1)), fs + [NextPush(w)])
  {
    var all, k := Pushes(w.job, w.pc.result), w.pc.sent;
    assert all[..k + 1] == all[..k] + [all[k]];
  }

  lemma StartedStill(routed: seq<Event>, w: Worker, pc: WorkerPc)
    requires Started(routed, w)
    ensures Started(routed, w.(pc := pc))
  {
    var a :| Takes(routed, w.at, a) && a.Spawn? && a.job == w.job;
  }

  lemma WorkersPush(s: State, t: State, i: nat, e: Sent)
    requires WorkersOk(s) && i < |s.workers| && CanPush(s.workers[i])
    requires e.source == FromWorker(i) && e.frame == NextPush(s.workers[i])
    requires t.log == s.log + [e] && t.routed == s.routed && t.reader == s.reader
    requires t.workers == s.workers[i := s.workers[i].(pc := s.workers[i].pc.(sent := s.workers[i].pc.sent + 1))]
    ensures WorkersOk(t)
  {
    forall j: nat
      ensures SentBy(t.log, FromWorker(j))
              == if j == i then SentBy(s.log, FromWorker(i)) + [e.frame] else SentBy(s.log, FromWorker(j))
    {
      SentBySnoc(s.log, e, FromWorker(j));
    }
    DeliveredPush(s.workers[i], SentBy(s.log, FromWorker(i)));
    StartedStill(s.routed, s.workers[i], t.workers[i].pc);
  }

  lemma WorkersMove(s: State, t: State, i: nat, pc: WorkerPc)
    requires WorkersOk(s) && i < |s.workers| && t.workers == s.workers[i := s.workers[i].(pc := pc)]
    requires t.routed == s.routed && t.log == s.log && t.reader == s.reader
    requires Delivered(s.workers[i].(pc := pc), SentBy(s.log, FromWorker(i)))
    ensures WorkersOk(t)
  {
    StartedStill(s.routed, s.workers[i], pc);
  }

  lemma WorkersSpawn(s: State)
    requires WorkersOk(s) && RepliesOk(s) && Enabled(s, SpawnWorker(true))
    ensures WorkersOk(Apply(s, SpawnWorker(true)))
  {
    var w := Worker(s.reader.at, s.reader.spawn.job, Working);
    assert Takes(s.routed, w.at, s.reader.spawn);
    assert Started(s.routed, w);
    WorkersAdded(s, Apply(s, SpawnWorker(true)), w);
  }

  lemma WorkersAdded(s: State, t: State, w: Worker)
    requires WorkersOk(s) && w.pc.Working? && w.at < |s.routed| && Started(s.routed, w)
    requires forall i :: 0 <= i < |s.workers| ==> s.workers[i].at < w.at
    requires t.routed == s.routed && t.log == s.log && t.workers == s.workers + [w]
    requires !t.reader.Retaining? && !t.reader.Spawning?
    ensures WorkersOk(t)
  {
  }

  lemma WorkersMoves(s: State, step: Step)
    requires WorkersOk(s) && Enabled(s, step)
    requires step.WorkDone? || step.PushesDone? || step.WorkerDrop? || step.WorkerFree?
    ensures WorkersOk(Apply(s, step))
  {
    var t := Apply(s, step);
    WorkersMove(s, t, step.i, t.workers[step.i].pc);
  }

  lemma WorkersSends(s: State, step: Step)
    requires WorkersOk(s) && Enabled(s, step)
    requires step.SendReply? || step.PushFrame?
    ensures WorkersOk(Apply(s, step))
  {
    var t := Apply(s, step);
    if step.SendReply? {
      WorkersReply(s, t, t.log[|s.log|]);
    } else {
      WorkersPush(s, t, step.i, t.log[|s.log|]);
    }
  }

  lemma WorkersQuiet(s: State, t: State)
    requires WorkersOk(s) && t.routed == s.routed && t.log == s.log && t.workers == s.workers
    requires t.reader.Retaining? || t.reader.Spawning? ==>
               (s.reader.Retaining? || s.reader.Spawning?) && t.reader.at == s.reader.at
    ensures WorkersOk(t)
  {
  }

  lemma WorkersStep(s: State, step: Step)
    requires WorkersOk(s) && RepliesOk(s) && Enabled(s, step)
    ensures WorkersOk(Apply(s, step))
  {
    match step
    case OtherTransport(f, env) => WorkersRoute(s, Apply(s, step), Event(f, false, env));
    case HandleFrame(env) => WorkersRoute(s, Apply(s, step), Event(s.reader.todo[0], true, env));
    case SpawnWorker(ok) => if ok { WorkersSpawn(s); }
    case SendReply(_) => WorkersSends(s, step);
    case PushFrame(_, _) => WorkersSends(s, step);
    case WorkDone(_, _) => WorkersMoves(s, step);
    case PushesDone(_) => WorkersMoves(s, step);
    case WorkerDrop(_) => WorkersMoves(s, step);
    case WorkerFree(_) => WorkersMoves(s, step);
    case _ => WorkersQuiet(s, Apply(s, step));
  }

  // ---------- what was read, and by whom it was answered ----------

  ghost function OwnFrames(routed: seq<Event>): seq<Frame> {
    if routed == [] then []
    else
      var n := |routed| - 1;
      if routed[n].own then OwnFrames(routed[..n]) + [routed[n].frame] else OwnFrames(routed[..n])
  }

  lemma OwnFramesSnoc(routed: seq<Event>, e: Event)
    ensures OwnFrames(routed + [e]) == if e.own then OwnFrames(routed) + [e.frame] else OwnFrames(routed)
  {
    assert (routed + [e])[..|routed|] == routed;
  }

  function Todo(r: Reader): seq<Frame> {
    if r.Walking? || Owes(r) then r.todo else []
  }

  /** Every frame read has been routed once, in order, or is still to come. */
  ghost predicate InputOk(s: State) {
    Taken(s.routed, s.reader) == s.input
  }

  ghost function Taken(routed: seq<Event>, r: Reader): seq<Frame> {
    OwnFrames(routed) + Todo(r)
  }

  lemma InputRoutes(s: State, t: State, f: Frame, env: Env)
    requires InputOk(s) && s.reader.Walking? && s.reader.todo != [] && f == s.reader.todo[0]
    requires t.routed == s.routed + [Event(f, true, env)] && t.input == s.input
    requires Todo(t.reader) == s.reader.todo[1..]
    ensures InputOk(t)
  {
    OwnFramesSnoc(s.routed, Event(f, true, env));
    assert s.reader.todo == [f] + s.reader.todo[1..];
  }

  lemma AfterRouteTodo(at: nat, a: Action, todo: seq<Frame>)
    ensures Todo(AfterRoute(at, a, todo)) == todo
  {
  }

  /** All other steps neither read nor route a frame of this connection. */
  lemma InputQuiet(s: State, step: Step)
    requires Enabled(s, step) && !step.Read? && !step.HandleFrame? && !step.OtherTransport?
    ensures var t := Apply(s, step); t.routed == s.routed && t.input == s.input && Todo(t.reader) == Todo(s.reader)
  {
  }

  lemma InputStep(s: State, step: Step)
    requires InputOk(s) && Enabled(s, step)
    ensures InputOk(Apply(s, step))
  {
    if step.Read? {
      InputReads(s, Apply(s, step), Walk(step.data).frames);
    } else if step.OtherTransport? {
      InputOther(s, Apply(s, step), step.frame, step.env);
    } else if step.HandleFrame? {
      InputHandles(s, step.env);
    } else {
      InputQuiet(s, step);
    }
  }

  lemma InputReads(s: State, t: State, fs: seq<Frame>)
    requires InputOk(s) && s.reader.Reading?
    requires t.routed == s.routed && t.reader == Walking(fs) && t.input == s.input + fs
    ensures InputOk(t)
  {
  }

  lemma InputOther(s: State, t: State, f: Frame, env: Env)
    requires InputOk(s) && t.routed == s.routed + [Event(f, false, env)] && t.reader == s.reader && t.input == s.input
    ensures InputOk(t)
  {
    OwnFramesSnoc(s.routed, Event(f, false, env));
  }

  lemma InputHandles(s: State, env: Env)
    requires InputOk(s) && Enabled(s, HandleFrame(env))
    ensures InputOk(Apply(s, HandleFrame(env)))
  {
    AfterRouteTodo(|s.routed|, Route(s.pending, s.reader.todo[0], env).action, s.reader.todo[1..]);
    InputRoutes(s, Apply(s, HandleFrame(env)), s.reader.todo[0], env);
  }

  /** The reader's own sends are never dropped. */
  ghost predicate HeardOk(s: State) {
    forall i :: 0 <= i < |s.log| && s.log[i].source == FromReader ==> s.log[i].fate.Wrote?
  }

  lemma HeardStep(s: State, step: Step)
    requires HeardOk(s) && SessionLifetime.Lifetime(s) && Enabled(s, step)
    ensures HeardOk(Apply(s, step))
  {
  }

  // ---------- every run ----------

  ghost predicate TrafficOk(s: State) {
    WireOk(s) && RepliesOk(s) && WorkersOk(s) && InputOk(s) && HeardOk(s)
  }

  lemma {:induction false} TrafficAlways(run: seq<Step>)
    ensures After(run).Some? ==> TrafficOk(After(run).value)
  {
    if run == [] {
    } else {
      TrafficAlways(run[..|run| - 1]);
      if After(run).Some? {
        var s, step := After(run[..|run| - 1]).value, run[|run| - 1];
        SessionLifetime.LifetimeAlways(run[..|run| - 1]);
        WireStep(s, step);
        RepliesStep(s, step);
        WorkersStep(s, step);
        InputStep(s, step);
        HeardStep(s, step);
      }
    }
  }

  /** Up to any point where no write was short, failed or dropped, the bytes on the socket are the
      frames sent so far, whole and in lock order, and reading them gives exactly those frames. */
  lemma WireIsFrames(run: seq<Step>, n: nat)
    requires After(run).Some?
    requires n <= |After(run).value.log| && Complete(After(run).value.log[..n])
    ensures var s := After(run).value;
            var fs := FramesOf(s.log[..n]);
            && AllValid(fs) && WireAll(fs) <= s.client.wire
            && Walk(WireAll(fs)) == Walked(fs, [])
            && (n == |s.log| ==> Walk(s.client.wire) == Walked(fs, []))
  {
    TrafficAlways(run);
    var s := After(run).value;
    FlatPrefix(s.log, n);
    FlatComplete(s.log[..n]);
    var fs := FramesOf(s.log[..n]);
    WalkWireAll(fs, []);
    assert WireAll(fs) + [] == WireAll(fs);
    if n == |s.log| {
      assert s.log[..n] == s.log;
    }
  }

  ghost function OfKind(fs: seq<Frame>, kind: byte): seq<Frame> {
    if fs == [] then []
    else
      var n := |fs| - 1;
      if fs[n].kind == kind then OfKind(fs[..n], kind) + [fs[n]] else OfKind(fs[..n], kind)
  }

  lemma {:induction false} RequestsAreInput(routed: seq<Event>, i: nat)
    ensures |Requests(routed)| == |OfKind(OwnFrames(routed), TYPE_REQ)|
    ensures i < |Requests(routed)| ==>
              Requests(routed)[i] < |routed|
              && OfKind(OwnFrames(routed), TYPE_REQ)[i] == routed[Requests(routed)[i]].frame
  {
    if routed == [] {
    } else {
      var n := |routed| - 1;
      RequestsAreInput(routed[..n], i);
      var own := OwnFrames(routed[..n]);
      if routed[n].own {
        assert (own + [routed[n].frame])[..|own|] == own;
      }
    }
  }

  lemma {:induction false} ResponsesAreReplies(log: seq<Sent>)
    requires LogOk(log)
    ensures OfKind(FramesOf(log), TYPE_RESP) == SentBy(log, FromReader)
  {
    if log == [] {
    } else {
      var n := |log| - 1;
      ResponsesAreReplies(log[..n]);
      assert FramesOf(log)[..n] == FramesOf(log[..n]);
    }
  }

  /** End to end: whenever the reader waits for input and every write so far went out whole, the
      responses the peer decodes from the socket are exactly one per request it sent, in order, each
      echoing its request; and none of the server's own pushes is mistaken for one. */
  lemma RequestsAnsweredInOrder(run: seq<Step>)
    requires After(run).Some?
    requires After(run).value.reader.Reading? && Complete(After(run).value.log)
    ensures var s := After(run).value;
            var asked := OfKind(s.input, TYPE_REQ);
            var answered := OfKind(Walk(s.client.wire).frames, TYPE_RESP);
            && |answered| == |asked|
            && forall i :: 0 <= i < |asked| ==> Answers(answered[i], asked[i])
  {
    var s := After(run).value;
    assert s.log[..|s.log|] == s.log;
    WireIsFrames(run, |s.log|);
    TrafficAlways(run);
    ResponsesAreReplies(s.log);
    assert s.input == OwnFrames(s.routed);
    RequestsAreInput(s.routed, 0);
    var replies := SentBy(s.log, FromReader);
    forall i | 0 <= i < |replies|
      ensures Answers(replies[i], OfKind(s.input, TYPE_REQ)[i])
    {
      RequestsAreInput(s.routed, i);
      JustifiedAnswers(s.routed, Requests(s.routed)[i], replies[i]);
    }
  }

  /** In every reachable state the replies sent are for the requests in order, at most one is still
      owed, and a CONNECT was refused with NO_SSID exactly if no SSID had been accepted by then. */
  lemma RepliesAlways(run: seq<Step>, i: nat)
    requires After(run).Some?
    requires i < |SentBy(After(run).value.log, FromReader)|
    ensures |SentBy(After(run).value.log, FromReader)|
            <= |Requests(After(run).value.routed)|
            <= |SentBy(After(run).value.log, FromReader)| + 1
    ensures var s := After(run).value;
            var reply, at := SentBy(s.log, FromReader)[i], Requests(s.routed)[i];
            && at < |s.routed| && Answers(reply, s.routed[at].frame)
            && (IsConnect(s.routed[at].frame) ==>
                  (reply.payload == [ERR_NO_SSID]
                   <==> forall j :: 0 <= j < at ==> !AcceptsSsid(s.routed[j].frame)))
  {
    TrafficAlways(run);
    var s := After(run).value;
    var reply, at := SentBy(s.log, FromReader)[i], Requests(s.routed)[i];
    JustifiedAnswers(s.routed, at, reply);
    var a :| Takes(s.routed, at, a) && MayReply(a, reply);
    var p, env :| RoutesWith(s.routed, at, a, p, env);
    var before := Frames(s.routed[..at]);
    assert forall j :: 0 <= j < at ==> before[j] == s.routed[j].frame;
    if IsConnect(s.routed[at].frame) {
      ConnectUsesLatest(before, p, s.routed[at].frame, env);
    }
  }

  /** A worker past its pushes. */
  predicate Finished(w: Worker) {
    w.pc.WorkerReleasing? || w.pc.WorkerFreeing? || w.pc.WorkerGone?
  }

  /** Every CONNECT worker was started by a CONNECT of this connection and runs with that request's
      sequence number and the SSID and password accepted last before it; no request starts two. */
  lemma ConnectWorkerJob(run: seq<Step>, i: nat)
    requires After(run).Some? && i < |After(run).value.workers|
    requires After(run).value.workers[i].job.ConnectJob?
    ensures var s := After(run).value;
            var w := s.workers[i];
            && w.at < |s.routed| && IsConnect(s.routed[w.at].frame) && s.routed[w.at].own
            && w.job.seqNo == s.routed[w.at].frame.seqNo
            && Latest(Frames(s.routed[..w.at]), AcceptsSsid, w.job.ssid)
            && Latest(Frames(s.routed[..w.at]), AcceptsPasswd, w.job.passwd)
            && forall j :: 0 <= j < |s.workers| && j != i ==> s.workers[j].at != w.at
  {
    TrafficAlways(run);
    var s := After(run).value;
    assert WorkersOk(s);
    var w := s.workers[i];
    var a :| Takes(s.routed, w.at, a) && a.Spawn? && a.job == w.job;
    var p, env :| RoutesWith(s.routed, w.at, a, p, env);
    JobComesFromItsCommand(p, s.routed[w.at].frame, env);
    ConnectUsesLatest(Frames(s.routed[..w.at]), p, s.routed[w.at].frame, env);
  }

  /** A CONNECT worker that is done has sent exactly one frame: the PUSH_RESULT with its sequence number
      and the outcome of its switch. */
  lemma ConnectWorkerPushesOnce(run: seq<Step>, i: nat)
    requires After(run).Some? && i < |After(run).value.workers|
    requires After(run).value.workers[i].job.ConnectJob? && Finished(After(run).value.workers[i])
    ensures var s := After(run).value;
            var w := s.workers[i];
            && w.pc.result.ConnectDone?
            && SentBy(s.log, FromWorker(i))
               == [Push(w.job.seqNo, CMD_PUSH_RESULT, [ErrCode(w.pc.result.status)])]
  {
    TrafficAlways(run);
  }

  ghost function PayloadsOf(fs: seq<Frame>): seq<seq<byte>> {
    seq(|fs|, i requires 0 <= i < |fs| => fs[i].payload)
  }

  /** Every SCAN worker was started by a SCAN of this connection and carries its sequence number; no request
      starts two. */
  lemma ScanWorkerJob(run: seq<Step>, i: nat)
    requires After(run).Some? && i < |After(run).value.workers|
    requires After(run).value.workers[i].job.ScanJob?
    ensures var s := After(run).value;
            var w := s.workers[i];
            && w.at < |s.routed| && IsScan(s.routed[w.at].frame) && s.routed[w.at].own
            && w.job.seqNo == s.routed[w.at].frame.seqNo
            && forall j :: 0 <= j < |s.workers| && j != i ==> s.workers[j].at != w.at
  {
    TrafficAlways(run);
    var s := After(run).value;
    assert WorkersOk(s);
    var w := s.workers[i];
    var a :| Takes(s.routed, w.at, a) && a.Spawn? && a.job == w.job;
    var p, env :| RoutesWith(s.routed, w.at, a, p, env);
    JobComesFromItsCommand(p, s.routed[w.at].frame, env);
  }

  /** A finished SCAN worker's frames carry its request's sequence number and, read by the documented
      layout, give back exactly the scan list. */
  lemma ScanWorkerDelivers(run: seq<Step>, i: nat)
    requires After(run).Some? && i < |After(run).value.workers|
    requires After(run).value.workers[i].job.ScanJob? && Finished(After(run).value.workers[i])
    ensures var s := After(run).value;
            var w := s.workers[i];
            var fs := SentBy(s.log, FromWorker(i));
            && w.pc.result.ScanDone? && w.at < |s.routed|
            && (forall k :: 0 <= k < |fs| ==>
                  fs[k].seqNo == s.routed[w.at].frame.seqNo && fs[k].commandId == CMD_PUSH_SCAN_RESULT)
            && ScanPush.Reassemble(PayloadsOf(fs), 0) == Some(w.pc.result.entries)
  {
    ScanWorkerJob(run, i);
    TrafficAlways(run);
    var s := After(run).value;
    var w := s.workers[i];
    var entries := w.pc.result.entries;
    assert PayloadsOf(SentBy(s.log, FromWorker(i))) == ScanPush.Payloads(entries, 0);
    ScanPush.ReassemblePayloads(entries, 0);
  }
}
