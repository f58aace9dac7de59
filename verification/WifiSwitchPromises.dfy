/** What the callers of the STA/AP switch are promised, over whole runs: how CONNECT, SWITCH_TO_AP, the boot thread
    and the monitor end, given what their own commands return and however the other threads are interleaved. */
module WifiSwitchPromises {
  import opened Bytes
  import opened Dispatch
  import opened WifiSwitch
  import opened WifiSwitchSafety
  import opened WifiSwitchRuns
  import opened WifiSwitchOutcomes

  /** Thread `i` is at `pc` after `run`. */
  ghost predicate IsAt(radio: Radio, run: seq<Step>, i: nat, pc: Pc) {
    && !(radio.hostapd && radio.wpa)
    && After(radio, run).Some?
    && i < |After(radio, run).value.threads|
    && After(radio, run).value.threads[i].pc == pc
  }

  /** Where thread `i` is after `n` more steps of its own that return `ch`. */
  ghost function Where(radio: Radio, run: seq<Step>, i: nat, ch: Choices, n: nat): Driven
    requires After(radio, run).Some? && i < |After(radio, run).value.threads|
  {
    Drive(After(radio, run).value.threads[i], After(radio, run).value.radio, ch, n)
  }

  /** However the run goes on with other threads in between, as long as nothing dies: once thread `i` has made `n`
      steps that return `ch`, it is at `pc`, holds the mutex, and the radio is `r`. */
  ghost predicate Arrives(radio: Radio, run: seq<Step>, i: nat, ch: Choices, n: nat, pc: Pc, r: Radio) {
    forall more ::
      After(radio, run + more).Some? && Quiet(more) && Follows(more, i, ch) && OwnSteps(more, i) == n ==>
        var s := After(radio, run + more).value;
        i < |s.threads| && s.holder == Some(i) && s.threads[i].pc == pc && s.radio == r
  }

  lemma HolderArrives(radio: Radio, run: seq<Step>, i: nat, ch: Choices, n: nat, pc: Pc)
    requires IsAt(radio, run, i, pc) && Locks(pc) == 1 && Locks(Where(radio, run, i, ch, n).t.pc) == 1
    ensures var d := Where(radio, run, i, ch, n); Arrives(radio, run, i, ch, n, d.t.pc, d.r)
  {
    var s, d := After(radio, run).value, Where(radio, run, i, ch, n);
    SwitchAlways(radio, run);
    forall more |
      After(radio, run + more).Some? && Quiet(more) && Follows(more, i, ch) && OwnSteps(more, i) == n
      ensures var s' := After(radio, run + more).value;
              i < |s'.threads| && s'.holder == Some(i) && s'.threads[i].pc == d.t.pc && s'.radio == d.r
    {
      AfterResumes(radio, run, more);
      HolderIsAlone(s, more, i, ch);
    }
  }

  // ---------- there is such a continuation ----------

  /** `n` steps of thread `i` and of nobody else. */
  function Alone(i: nat, ch: Choices, n: nat): seq<Step> {
    if n == 0 then [] else Alone(i, ch, n - 1) + [ThreadStep(i, ch(n - 1))]
  }

  lemma {:induction false} AloneFollows(i: nat, ch: Choices, n: nat)
    ensures Quiet(Alone(i, ch, n)) && Follows(Alone(i, ch, n), i, ch) && OwnSteps(Alone(i, ch, n), i) == n
  {
    if n == 0 {
    } else {
      AloneFollows(i, ch, n - 1);
      var steps := Alone(i, ch, n);
      assert steps[..|steps| - 1] == Alone(i, ch, n - 1);
    }
  }

  lemma HolderMoves(s: State, i: nat, c: Choice)
    requires Sound(s) == 1 && s.holder == Some(i)
    ensures OneStep(s, ThreadStep(i, c)).Some?
  {
    assert InLock(s.threads[i].pc);
  }

  lemma {:induction false} AloneRuns(s: State, i: nat, ch: Choices, n: nat)
    requires Sound(s) == 1 && s.holder == Some(i) && i < |s.threads|
    requires Locks(Drive(s.threads[i], s.radio, ch, n).t.pc) == 1
    ensures Resume(s, Alone(i, ch, n)).Some?
  {
    if n == 0 {
    } else {
      var front, steps := Alone(i, ch, n - 1), Alone(i, ch, n);
      HeldBefore(s.threads[i], s.radio, ch, n - 1);
      AloneRuns(s, i, ch, n - 1);
      AloneFollows(i, ch, n - 1);
      HolderIsAlone(s, front, i, ch);
      HolderMoves(Resume(s, front).value, i, ch(n - 1));
      assert steps[..|steps| - 1] == front && Final(steps) == ThreadStep(i, ch(n - 1));
      assert Resume(s, steps) == ResumeSome(s, steps) == ResumeLast(s, steps);
    }
  }

  /** A holder can make its steps on its own, whatever they return. */
  lemma HolderGoesOn(radio: Radio, run: seq<Step>, i: nat, ch: Choices, n: nat, pc: Pc)
    requires IsAt(radio, run, i, pc) && Locks(pc) == 1 && Locks(Where(radio, run, i, ch, n).t.pc) == 1
    ensures After(radio, run + Alone(i, ch, n)).Some?
  {
    SwitchAlways(radio, run);
    AloneRuns(After(radio, run).value, i, ch, n);
    AfterResumes(radio, run, Alone(i, ch, n));
  }

  // ---------- wifi_switch_run_now ----------

  /** CONNECT from its look at the access point on.  The join begins with its step `w.join`, so that JoinEnds says
      which of its commands failed first; after a failed join, an access point that was up before is brought up again
      from step `w.ap` on. */
  lemma ConnectEnds(radio: Radio, run: seq<Step>, i: nat, ch: Choices) returns (w: Way, r: Radio)
    requires IsAt(radio, run, i, AtRun(RunCheckAp))
    ensures Arrives(radio, run, i, ch, w.end, AtRun(RunUnlock(w.status)), r) && w.end <= 28
    ensures var up := After(radio, run).value.radio.hostapd;
            && Where(radio, run, i, ch, w.join).t.pc == InSta(StaKillWpa, RunSta(up))
            && JoinEnds(ch, w.join, w.status)
            && (w.status == WifiOk ==> r == Radio(false, true, true))
            && (w.status != WifiOk && up ==>
                  && Where(radio, run, i, ch, w.ap).t.pc == InAp(ApKillWpa, RunRestore(w.status))
                  && !r.wpa && (ApStarts(ch, w.ap) ==> r.hostapd))
  {
    var s := After(radio, run).value;
    w := RunNowEnds(s.threads[i], s.radio, ch, 0);
    r := Where(radio, run, i, ch, w.end).r;
    HolderArrives(radio, run, i, ch, w.end, AtRun(RunCheckAp));
  }

  /** Before that: no credentials, or a radio that is not ready, end the call without a command. */
  lemma ConnectChecks(radio: Radio, run: seq<Step>, i: nat, ch: Choices) returns (n: nat)
    requires IsAt(radio, run, i, AtRun(RunCreds))
    ensures var s := After(radio, run).value;
            && s.threads[i].kind.RunNow? && n <= 2
            && Arrives(radio, run, i, ch, n,
                 AtRun(if !s.threads[i].kind.hasSsid && !ch(0).ok then RunUnlock(WifiUnknown)
                       else if !ch(1).ok then RunUnlock(WifiConnectFail)
                       else RunCheckAp), s.radio)
  {
    var s := After(radio, run).value;
    SwitchAlways(radio, run);
    assert ThreadOk(s.radio, s.losses, s.threads[i]);
    n := RunNowChecks(s.threads[i], s.radio, ch, 0);
    HolderArrives(radio, run, i, ch, n, AtRun(RunCreds));
  }

  ghost predicate AllWell(ch: Choices) {
    forall n :: ch(n).ok && ch(n).alive
  }

  /** When every command goes well, CONNECT succeeds and leaves the supplicant running alone with an address. */
  lemma ConnectSucceeds(radio: Radio, run: seq<Step>, i: nat, ch: Choices) returns (n: nat)
    requires IsAt(radio, run, i, AtRun(RunCheckAp)) && AllWell(ch)
    ensures Arrives(radio, run, i, ch, n, AtRun(RunUnlock(WifiOk)), Radio(false, true, true)) && n <= 28
    ensures After(radio, run + Alone(i, ch, n)).Some?
  {
    var s := After(radio, run).value;
    var w := RunNowEnds(s.threads[i], s.radio, ch, 0);
    var a := w.join;
    n := w.end;
    assert Prepared(ch, a) && ch(a + 8).ok && ch(a + 9).ok && ch(a + 9).alive && ch(a + 10).ok;
    HolderArrives(radio, run, i, ch, n, AtRun(RunCheckAp));
    HolderGoesOn(radio, run, i, ch, n, AtRun(RunCheckAp));
  }

  // ---------- wifi_switch_thread ----------

  /** The boot thread ends its critical section with the stored network joined, or with the access point brought up
      from its step `w.ap` on: always when there are no credentials, and after every join that failed. */
  lemma BootSettles(radio: Radio, run: seq<Step>, i: nat, ch: Choices, have: bool) returns (w: Way, r: Radio)
    requires IsAt(radio, run, i, AtBoot(BootBand(have)))
    ensures Arrives(radio, run, i, ch, w.end, AtBoot(BootUnlock), r) && w.end <= 30
    ensures have ==>
              Where(radio, run, i, ch, w.join).t.pc == InSta(StaKillWpa, BootSta) && JoinEnds(ch, w.join, w.status)
    ensures have && w.status == WifiOk ==> r == Radio(false, true, true)
    ensures !have || w.status != WifiOk ==>
              && Where(radio, run, i, ch, w.ap).t.pc == InAp(ApKillWpa, BootAp)
              && !r.wpa && (ApStarts(ch, w.ap) ==> r.hostapd)
  {
    var s := After(radio, run).value;
    w := BootEnds(s.threads[i], s.radio, ch, 0, have);
    r := Where(radio, run, i, ch, w.end).r;
    HolderArrives(radio, run, i, ch, w.end, AtBoot(BootBand(have)));
  }

  // ---------- wifi_reconnect_monitor ----------

  /** The monitor's recovery, with stored credentials: the network is joined again, or the access point is brought
      up from step `w.ap` on. */
  lemma RecoverySettles(radio: Radio, run: seq<Step>, i: nat, ch: Choices) returns (w: Way, r: Radio)
    requires IsAt(radio, run, i, AtMonitor(MonitorCreds)) && ch(0).ok
    ensures Arrives(radio, run, i, ch, w.end, AtMonitor(MonitorUnlock), r) && w.end <= 22
    ensures Where(radio, run, i, ch, w.join).t.pc == InSta(StaKillWpa, MonitorSta) && JoinEnds(ch, w.join, w.status)
    ensures w.status == WifiOk ==> r == Radio(false, true, true)
    ensures w.status != WifiOk ==>
              && Where(radio, run, i, ch, w.ap).t.pc == InAp(ApKillWpa, MonitorAp)
              && !r.wpa && (ApStarts(ch, w.ap) ==> r.hostapd)
  {
    var s := After(radio, run).value;
    w := RecoveryEnds(s.threads[i], s.radio, ch, 0);
    r := Where(radio, run, i, ch, w.end).r;
    HolderArrives(radio, run, i, ch, w.end, AtMonitor(MonitorCreds));
  }

  /** Without credentials: an access point that is up is left alone, and otherwise it is brought up. */
  lemma RecoveryWithoutCreds(radio: Radio, run: seq<Step>, i: nat, ch: Choices) returns (w: Way, r: Radio)
    requires IsAt(radio, run, i, AtMonitor(MonitorCreds)) && !ch(0).ok
    ensures Arrives(radio, run, i, ch, w.end, AtMonitor(MonitorUnlock), r) && w.end <= 10
    ensures var was := After(radio, run).value.radio;
            if was.hostapd then r == was
            else
              && Where(radio, run, i, ch, w.ap).t.pc == InAp(ApKillWpa, MonitorNoCreds)
              && !r.wpa && (ApStarts(ch, w.ap) ==> r.hostapd)
  {
    var s := After(radio, run).value;
    w := NoCredsEnds(s.threads[i], s.radio, ch, 0);
    r := Where(radio, run, i, ch, w.end).r;
    HolderArrives(radio, run, i, ch, w.end, AtMonitor(MonitorCreds));
  }

  // ---------- wifi_switch_ensure_ap_mode ----------

  /** SWITCH_TO_AP answers success exactly when the access point is up already or everything it takes to bring it
      up goes well, and then it is up. */
  lemma EnsureEndsUp(radio: Radio, run: seq<Step>, i: nat, ch: Choices) returns (w: Way, r: Radio)
    requires IsAt(radio, run, i, AtEnsure(EnsureCheckAp))
    ensures Arrives(radio, run, i, ch, w.end, AtEnsure(EnsureUnlock(w.status)), r) && w.end <= 10
    ensures var was := After(radio, run).value.radio;
            && (!was.hostapd && ch(1).ok ==> Where(radio, run, i, ch, w.ap).t.pc == InAp(ApKillWpa, EnsureUp))
            && w.status == (if was.hostapd || (ch(1).ok && ApStarts(ch, w.ap)) then WifiOk else WifiConnectFail)
            && (was.hostapd || !ch(1).ok ==> r == was)
            && (w.status == WifiOk ==> r.hostapd)
  {
    var s := After(radio, run).value;
    w := EnsureEnds(s.threads[i], s.radio, ch, 0);
    r := Where(radio, run, i, ch, w.end).r;
    HolderArrives(radio, run, i, ch, w.end, AtEnsure(EnsureCheckAp));
  }

  // ---------- into and out of the critical section ----------

  /** The thread's answer is the status it unlocks with, and the mutex is free again. */
  ghost predicate Answers(s: State, s': State, i: nat, st: WifiStatus)
    requires i < |s'.threads|
  {
    && s'.threads[i].result == Some(st) && s'.threads[i].pc == Finished
    && s'.holder == None && s'.radio == s.radio
  }

  lemma UnlockAnswers(s: State, i: nat, c: Choice)
    requires Enabled(s, ThreadStep(i, c))
    ensures var pc, s' := s.threads[i].pc, Apply(s, ThreadStep(i, c));
            && (forall st :: pc == AtRun(RunUnlock(st)) ==> Answers(s, s', i, st))
            && (forall st :: pc == AtEnsure(EnsureUnlock(st)) ==> Answers(s, s', i, st))
            && (forall ok :: pc == AtScan(ScanUnlock(ok)) ==> Answers(s, s', i, if ok then WifiOk else WifiUnknown))
            && (pc == AtBoot(BootUnlock) || pc == AtMonitor(MonitorUnlock) ==>
                  s'.threads[i].pc == AtMonitor(PollAp) && s'.holder == None && s'.radio == s.radio)
  {
  }

  /** The boot thread remembers whether it could read credentials, and gives up when wlan0 does not appear. */
  lemma BootRemembersCreds(s: State, i: nat, c: Choice)
    requires Enabled(s, ThreadStep(i, c))
    ensures var pc, pc' := s.threads[i].pc, Apply(s, ThreadStep(i, c)).threads[i].pc;
            && (pc == AtBoot(BootCreds) ==> pc' == AtBoot(BootWait(c.ok)))
            && (forall have :: pc == AtBoot(BootWait(have)) ==>
                  pc' == if c.ok then AtBoot(BootLock(have)) else Finished)
  {
  }

  /** A thread that takes the mutex goes on with the first thing its entry point does under it. */
  lemma LockedAt(s: State, i: nat, c: Choice)
    requires Enabled(s, ThreadStep(i, c)) && s.holder.None? && Locks(s.threads[i].pc) == 0
    ensures var pc, s' := s.threads[i].pc, Apply(s, ThreadStep(i, c));
            if s'.holder.None? then true
            else
              && s'.holder == Some(i) && s'.radio == s.radio && s'.threads[i].apAtLock == s.radio.hostapd
              && s'.threads[i].pc == match pc
                   case AtBoot(b) => AtBoot(BootBand(b.BootLock? && b.haveCreds))
                   case AtMonitor(_) => AtMonitor(MonitorCreds)
                   case AtRun(_) => AtRun(RunCreds)
                   case AtEnsure(_) => AtEnsure(EnsureCheckAp)
                   case _ => AtScan(ScanRun)
  {
  }

  /** A poll is written down as what the radio shows at that step. */
  lemma PollsAreHonest(s: State, i: nat, c: Choice)
    requires Enabled(s, ThreadStep(i, c))
    ensures var t, t' := s.threads[i], Apply(s, ThreadStep(i, c)).threads[i];
            && (t'.polls == t.polls + [SawAp] <==> t.pc == AtMonitor(PollAp) && s.radio.hostapd)
            && (t'.polls == t.polls + [SawConnection] <==> t.pc == AtMonitor(PollConnected) && s.radio.ipv4 && c.ok)
            && (t'.polls == t.polls + [SawNeither] <==> t.pc == AtMonitor(PollConnected) && !(s.radio.ipv4 && c.ok))
  {
    var t, k := s.threads[i], Move(s.threads[i], s.radio, s.holder.None?, c);
    NotedPoll(t.polls, k.note, SawAp);
    NotedPoll(t.polls, k.note, SawConnection);
    NotedPoll(t.polls, k.note, SawNeither);
    PollNotes(t, s.radio, s.holder.None?, c);
  }

  lemma NotedPoll(polls: seq<Poll>, note: Note, p: Poll)
    ensures NextPolls(polls, note) == polls + [p] <==> note == Polled(p)
  {
    if note.Polled? {
      assert (polls + [note.poll])[|polls|] == note.poll && (polls + [p])[|polls|] == p;
    } else {
      assert |polls + [p]| == |polls| + 1;
    }
  }

  lemma PollNotes(t: Thread, r: Radio, free: bool, c: Choice)
    requires CanMove(t, free)
    ensures var note := Move(t, r, free, c).note;
            && (note == Polled(SawAp) <==> t.pc == AtMonitor(PollAp) && r.hostapd)
            && (note == Polled(SawConnection) <==> t.pc == AtMonitor(PollConnected) && r.ipv4 && c.ok)
            && (note == Polled(SawNeither) <==> t.pc == AtMonitor(PollConnected) && !(r.ipv4 && c.ok))
  {
  }

  /** The second poll in a row that sees neither leads to the mutex. */
  lemma SecondMissRecovers(s: State, i: nat, c: Choice)
    requires Enabled(s, ThreadStep(i, c)) && s.threads[i].pc.AtMonitor?
    ensures var t, t' := s.threads[i], Apply(s, ThreadStep(i, c)).threads[i];
            && (t.pc == AtMonitor(PollAp) && !s.radio.hostapd ==> t'.pc == AtMonitor(PollConnected))
            && (t.pc == AtMonitor(PollConnected) && !(s.radio.ipv4 && c.ok) ==>
                  t'.pc == AtMonitor(if t.missCount == 0 then PollAp else MonitorTryLock))
  {
  }
}
