/** The results of workers as the phone decodes them from the bytes of the connection. */
module SessionPushes {
  import opened Bytes
  import opened Protocol
  import opened Dispatch
  import opened Session
  import opened SessionTraffic
  import ScanPush

  /** A push of this kind with this sequence number. */
  predicate IsPush(f: Frame, id: byte, seqNo: byte) {
    f.kind == TYPE_REQ && f.commandSet == CMDSET_NETWORK && f.commandId == id && f.seqNo == seqNo
  }

  /** Those among decoded frames, in order. */
  ghost function PushesIn(fs: seq<Frame>, id: byte, seqNo: byte): seq<Frame> {
    if fs == [] then []
    else
      var n := |fs| - 1;
      if IsPush(fs[n], id, seqNo) then PushesIn(fs[..n], id, seqNo) + [fs[n]] else PushesIn(fs[..n], id, seqNo)
  }

  function PushId(job: Job): byte {
    if job.ConnectJob? then CMD_PUSH_RESULT else CMD_PUSH_SCAN_RESULT
  }

  /** What the frames of a finished or unfinished worker look like. */
  lemma PushShape(job: Job, result: JobResult, k: nat)
    requires Fits(job, result) && WellFormed(result) && k < |Pushes(job, result)|
    ensures IsPush(Pushes(job, result)[k], PushId(job), job.seqNo)
  {
    PushesValid(job, result);
  }

  lemma {:induction false} SentByHolds(log: seq<Sent>, n: nat) returns (k: nat)
    requires n < |log|
    ensures k < |SentBy(log, log[n].source)| && SentBy(log, log[n].source)[k] == log[n].frame
  {
    var last := |log| - 1;
    if n == last {
      k := |SentBy(log, log[n].source)| - 1;
    } else {
      k := SentByHolds(log[..last], n);
      assert log[..last][n] == log[n];
    }
  }

  /** Every frame in the log that is not a reply is a push of the kind and number of the worker that sent it. */
  lemma LoggedPush(s: State, n: nat)
    requires WorkersOk(s) && n < |s.log| && s.log[n].source.FromWorker?
    ensures var j := s.log[n].source.index;
            && j < |s.workers|
            && var job := s.workers[j].job;
               IsPush(s.log[n].frame, PushId(job), job.seqNo)
  {
    var j := s.log[n].source.index;
    var k := SentByHolds(s.log, n);
    assert SentBy(s.log, FromWorker(j)) != [];
    var w := s.workers[j];
    assert Delivered(w, SentBy(s.log, FromWorker(j)));
    PushShape(w.job, w.pc.result, k);
  }

  /** No other worker of the same kind has the same sequence number. */
  ghost predicate OnlyOne(ws: seq<Worker>, i: nat) {
    && i < |ws|
    && forall j :: 0 <= j < |ws| && j != i && ws[j].job.ConnectJob? == ws[i].job.ConnectJob? ==>
         ws[j].job.seqNo != ws[i].job.seqNo
  }

  lemma LoggedPushIs(s: State, n: nat, i: nat)
    requires WorkersOk(s) && LogOk(s.log) && n < |s.log| && OnlyOne(s.workers, i)
    ensures IsPush(s.log[n].frame, PushId(s.workers[i].job), s.workers[i].job.seqNo)
            <==> s.log[n].source == FromWorker(i)
  {
    assert EntryOk(s.log[n]);
    if s.log[n].source.FromWorker? {
      LoggedPush(s, n);
    }
  }

  lemma {:induction false} PushesAreSent(log: seq<Sent>, i: nat, id: byte, seqNo: byte)
    requires forall n :: 0 <= n < |log| ==> (IsPush(log[n].frame, id, seqNo) <==> log[n].source == FromWorker(i))
    ensures PushesIn(FramesOf(log), id, seqNo) == SentBy(log, FromWorker(i))
  {
    if log == [] {
    } else {
      var front := log[..|log| - 1];
      PushesAreSent(front, i, id, seqNo);
      assert FramesOf(log)[..|log| - 1] == FramesOf(front);
    }
  }

  /** When every write went out whole, the pushes of a worker's kind and number among the frames decoded from
      the socket are exactly what that worker sent, if no other worker of its kind has its number. */
  lemma PushesFromWire(run: seq<Step>, i: nat)
    requires After(run).Some? && Complete(After(run).value.log) && OnlyOne(After(run).value.workers, i)
    ensures var s := After(run).value;
            PushesIn(Walk(s.client.wire).frames, PushId(s.workers[i].job), s.workers[i].job.seqNo)
            == SentBy(s.log, FromWorker(i))
  {
    TrafficAlways(run);
    var s := After(run).value;
    assert s.log[..|s.log|] == s.log;
    WireIsFrames(run, |s.log|);
    forall n | 0 <= n < |s.log|
      ensures IsPush(s.log[n].frame, PushId(s.workers[i].job), s.workers[i].job.seqNo)
              <==> s.log[n].source == FromWorker(i)
    {
      LoggedPushIs(s, n, i);
    }
    PushesAreSent(s.log, i, PushId(s.workers[i].job), s.workers[i].job.seqNo);
  }

  /** End to end for SCAN: the scan pushes with its number, decoded from the bytes, reassemble to the list the
      worker found. */
  lemma ScanFromWire(run: seq<Step>, i: nat)
    requires After(run).Some? && Complete(After(run).value.log) && OnlyOne(After(run).value.workers, i)
    requires After(run).value.workers[i].job.ScanJob? && Finished(After(run).value.workers[i])
    ensures var s := After(run).value;
            var w := s.workers[i];
            && w.pc.result.ScanDone?
            && ScanPush.Reassemble(
                 PayloadsOf(PushesIn(Walk(s.client.wire).frames, CMD_PUSH_SCAN_RESULT, w.job.seqNo)), 0)
               == Some(w.pc.result.entries)
  {
    PushesFromWire(run, i);
    ScanWorkerDelivers(run, i);
  }

  /** End to end for CONNECT: the bytes hold exactly one result push with its number, and it carries the outcome
      of the switch. */
  lemma ResultFromWire(run: seq<Step>, i: nat)
    requires After(run).Some? && Complete(After(run).value.log) && OnlyOne(After(run).value.workers, i)
    requires After(run).value.workers[i].job.ConnectJob? && Finished(After(run).value.workers[i])
    ensures var s := After(run).value;
            var w := s.workers[i];
            && w.pc.result.ConnectDone?
            && PushesIn(Walk(s.client.wire).frames, CMD_PUSH_RESULT, w.job.seqNo)
               == [Push(w.job.seqNo, CMD_PUSH_RESULT, [ErrCode(w.pc.result.status)])]
  {
    PushesFromWire(run, i);
    ConnectWorkerPushesOnce(run, i);
  }
}
