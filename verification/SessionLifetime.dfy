/** Reference counting over every interleaving of one connection. */
module SessionLifetime {
  import opened Session

  /** References the reader thread holds: its own, and the extra one while it starts a worker. */
  function ReaderRefs(r: Reader): nat {
    match r
    case Reading => 1
    case Walking(_) => 1
    case Retaining(_, _, _) => 1
    case Spawning(_, _, _) => 2
    case Unspawning(_, _, _) => 2
    case UnspawnFreeing(_, _, _) => 0
    case Replying(_, _) => 1
    case Closing => 1
    case Releasing => 1
    case Freeing => 0
    case Gone => 0
  }

  predicate ReaderFrees(r: Reader) {
    r.UnspawnFreeing? || r.Freeing?
  }

  predicate Connected(r: Reader) {
    !(r.Releasing? || r.Freeing? || r.Gone?)
  }

  predicate HoldsRef(w: Worker) {
    w.pc.Working? || w.pc.Pushing? || w.pc.WorkerReleasing?
  }

  predicate MustFree(w: Worker) {
    w.pc.WorkerFreeing?
  }

  function Count(ws: seq<Worker>, p: Worker -> bool): nat {
    if ws == [] then 0 else (if p(ws[0]) then 1 else 0) + Count(ws[1..], p)
  }

  lemma {:induction false} CountUpdate(ws: seq<Worker>, i: nat, w: Worker, p: Worker -> bool)
    requires i < |ws|
    ensures Count(ws[i := w], p) == Count(ws, p) - (if p(ws[i]) then 1 else 0) + (if p(w) then 1 else 0)
    ensures p(ws[i]) ==> Count(ws, p) > 0
  {
    if i == 0 {
      assert ws[i := w][1..] == ws[1..];
    } else {
      assert ws[i := w][1..] == ws[1..][i - 1 := w];
      CountUpdate(ws[1..], i - 1, w, p);
    }
  }

  lemma {:induction false} CountSnoc(ws: seq<Worker>, w: Worker, p: Worker -> bool)
    ensures Count(ws + [w], p) == Count(ws, p) + if p(w) then 1 else 0
  {
    if ws == [] {
      assert ws + [w] == [w];
    } else {
      assert (ws + [w])[1..] == ws[1..] + [w];
      CountSnoc(ws[1..], w, p);
    }
  }

  lemma CountZero(ws: seq<Worker>, i: nat, p: Worker -> bool)
    requires i < |ws| && Count(ws, p) == 0
    ensures !p(ws[i])
  {
    CountUpdate(ws, i, ws[i], p);
  }

  /** The count is the references held; nobody frees while one is held, and exactly one thread has
      freed or is about to free when none is; the descriptor is open exactly until the reader's close. */
  ghost predicate Lifetime(s: State) {
    var c := s.client;
    && c.refs == ReaderRefs(s.reader) + Count(s.workers, HoldsRef)
    && c.frees + (if ReaderFrees(s.reader) then 1 else 0) + Count(s.workers, MustFree)
       == (if c.refs == 0 then 1 else 0)
    && c.faults == 0
    && (c.open <==> Connected(s.reader))
    && c.closes == (if c.open then 0 else 1)
    && !s.reader.UnspawnFreeing?
  }

  lemma WorkerStep(s: State, t: State, i: nat, pc: WorkerPc)
    requires i < |s.workers| && t.workers == s.workers[i := s.workers[i].(pc := pc)]
    ensures var w := s.workers[i].(pc := pc);
            && Count(t.workers, HoldsRef) == Count(s.workers, HoldsRef)
                 - (if HoldsRef(s.workers[i]) then 1 else 0) + (if HoldsRef(w) then 1 else 0)
            && Count(t.workers, MustFree) == Count(s.workers, MustFree)
                 - (if MustFree(s.workers[i]) then 1 else 0) + (if MustFree(w) then 1 else 0)
    ensures HoldsRef(s.workers[i]) ==> Count(s.workers, HoldsRef) > 0
    ensures MustFree(s.workers[i]) ==> Count(s.workers, MustFree) > 0
  {
    CountUpdate(s.workers, i, s.workers[i].(pc := pc), HoldsRef);
    CountUpdate(s.workers, i, s.workers[i].(pc := pc), MustFree);
  }

  lemma LifetimeReaderStep(s: State, step: Step)
    requires Lifetime(s) && Enabled(s, step)
    requires !step.WorkDone? && !step.PushFrame? && !step.PushesDone? && !step.WorkerDrop? && !step.WorkerFree?
    ensures Lifetime(Apply(s, step))
  {
    if step == SpawnWorker(true) {
      var w := Worker(s.reader.at, s.reader.spawn.job, Working);
      CountSnoc(s.workers, w, HoldsRef);
      CountSnoc(s.workers, w, MustFree);
    }
  }

  lemma LifetimeWorkerStep(s: State, step: Step)
    requires Lifetime(s) && Enabled(s, step)
    requires step.WorkDone? || step.PushFrame? || step.PushesDone? || step.WorkerDrop? || step.WorkerFree?
    ensures Lifetime(Apply(s, step))
  {
    var t := Apply(s, step);
    WorkerStep(s, t, step.i, t.workers[step.i].pc);
  }

  lemma LifetimeStep(s: State, step: Step)
    requires Lifetime(s) && Enabled(s, step)
    ensures Lifetime(Apply(s, step))
  {
    if step.WorkDone? || step.PushFrame? || step.PushesDone? || step.WorkerDrop? || step.WorkerFree? {
      LifetimeWorkerStep(s, step);
    } else {
      LifetimeReaderStep(s, step);
    }
  }

  /** The invariant holds after every run. */
  lemma {:induction false} LifetimeAlways(run: seq<Step>)
    ensures After(run).Some? ==> Lifetime(After(run).value)
  {
    if run == [] {
    } else {
      LifetimeAlways(run[..|run| - 1]);
      if After(run).Some? {
        LifetimeStep(After(run[..|run| - 1]).value, run[|run| - 1]);
      }
    }
  }

  ghost predicate AllWorkersGone(ws: seq<Worker>) {
    forall i :: 0 <= i < |ws| ==> ws[i].pc.WorkerGone?
  }

  lemma {:induction false} CountNone(ws: seq<Worker>, p: Worker -> bool)
    requires forall i :: 0 <= i < |ws| ==> !p(ws[i])
    ensures Count(ws, p) == 0
  {
    if ws == [] {
    } else {
      CountNone(ws[1..], p);
    }
  }

  /** In every reachable state: no access after free, at most one free and one close, the free only at
      count zero; and once every thread is done, exactly one of each has happened. */
  lemma FreedExactlyOnce(run: seq<Step>)
    requires After(run).Some?
    ensures var s := After(run).value;
            && s.client.faults == 0 && s.client.frees <= 1 && s.client.closes <= 1
            && (s.client.frees > 0 ==> s.client.refs == 0)
            && (s.reader.Gone? && AllWorkersGone(s.workers) ==> s.client.frees == 1 && s.client.closes == 1)
            && (s.client.frees == 1 ==> s.reader.Gone? && AllWorkersGone(s.workers))
  {
    LifetimeAlways(run);
    var s := After(run).value;
    if s.reader.Gone? && AllWorkersGone(s.workers) {
      CountNone(s.workers, HoldsRef);
      CountNone(s.workers, MustFree);
    }
    if s.client.frees == 1 {
      forall i | 0 <= i < |s.workers|
        ensures s.workers[i].pc.WorkerGone?
      {
        CountZero(s.workers, i, HoldsRef);
        CountZero(s.workers, i, MustFree);
      }
    }
  }

  lemma ClosedStep(s: State, step: Step)
    requires Enabled(s, step) && !s.client.open
    ensures Apply(s, step).client.wire == s.client.wire && !Apply(s, step).client.open
  {
  }

  /** Nothing reaches the socket after the close, however the run goes on. */
  lemma {:induction false} NoWriteAfterClose(run: seq<Step>, more: seq<Step>)
    requires After(run + more).Some? && After(run).Some? && !After(run).value.client.open
    ensures After(run + more).value.client.wire == After(run).value.client.wire
    ensures !After(run + more).value.client.open
    decreases |more|
  {
    if more == [] {
      assert run + more == run;
    } else {
      var fewer := more[..|more| - 1];
      assert (run + more)[..|run + more| - 1] == run + fewer;
      NoWriteAfterClose(run, fewer);
      ClosedStep(After(run + fewer).value, more[|more| - 1]);
    }
  }
}
