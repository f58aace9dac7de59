/** What holds in every state of every run of the STA/AP switch: mutual exclusion, one daemon on the radio
    at a time, answers and recovery only when the code promises them. */
module WifiSwitchRuns {
  import opened Bytes
  import opened Dispatch
  import opened WifiSwitch
  import opened WifiSwitchSafety

  /** All that is known of one thread. */
  ghost predicate ThreadOk(r: Radio, losses: Losses, t: Thread) {
    && RadioOk(r, t.pc)
    && BooksOk(t)
    && MonitorOk(t.pc, t.missCount, t.polls)
    && Reached(t.lossesAtLock, losses)
    && OutcomeOk(t.pc, r, t.apAtLock, t.restoreFailed, Since(t.lossesAtLock, losses))
  }

  predicate Reached(was: Losses, now: Losses) {
    was.hostapd <= now.hostapd && was.wpa <= now.wpa && was.address <= now.address
  }

  /** A stepped thread, with what it notes when it takes the lock. */
  function Stepped(t: Thread, k: Control, r: Radio, losses: Losses): Thread {
    var u := Record(t, k);
    if k.lockOp.Acquire? then u.(apAtLock := r.hostapd, lossesAtLock := losses) else u
  }

  lemma OutsideOutcome(pc: Pc, r: Radio, ap: bool, failed: bool, calm: Calm)
    requires !InLock(pc)
    ensures OutcomeOk(pc, r, ap, failed, calm)
  {
  }

  lemma SteppedOutcome(t: Thread, r: Radio, losses: Losses, free: bool, c: Choice)
    requires ThreadOk(r, losses, t) && CanMove(t, free)
    ensures var k := Move(t, r, free, c);
            var u := Stepped(t, k, r, losses);
            OutcomeOk(u.pc, k.radio, u.apAtLock, u.restoreFailed, Since(u.lossesAtLock, losses))
  {
    var k := Move(t, r, free, c);
    MoveSafe(t, r, free, c);
    if InLock(t.pc) {
      MoveOutcome(t, r, free, c, t.apAtLock, t.restoreFailed, Since(t.lossesAtLock, losses));
    } else if k.lockOp.Acquire? {
      EnterOutcome(t, r, free, c, t.restoreFailed);
    } else {
      OutsideOutcome(k.pc, k.radio, t.apAtLock, NextFailed(t.restoreFailed, k.note), Since(t.lossesAtLock, losses));
    }
  }

  lemma SteppedOk(t: Thread, r: Radio, losses: Losses, free: bool, c: Choice)
    requires ThreadOk(r, losses, t) && CanMove(t, free)
    ensures var k := Move(t, r, free, c);
            SafeControl(t.pc, r, free, k) && ThreadOk(k.radio, losses, Stepped(t, k, r, losses))
  {
    MoveSafe(t, r, free, c);
    MoveBooks(t, r, free, c);
    MovePolls(t, r, free, c);
    SteppedOutcome(t, r, losses, free, c);
  }

  /** Nothing a thread knows outside the lock depends on the radio. */
  lemma OthersOk(r: Radio, losses: Losses, t: Thread, r': Radio)
    requires ThreadOk(r, losses, t) && !InLock(t.pc) && !(r'.hostapd && r'.wpa)
    ensures ThreadOk(r', losses, t)
  {
    OutsideOutcome(t.pc, r', t.apAtLock, t.restoreFailed, Since(t.lossesAtLock, losses));
  }

  /** What is lost is counted, so what is known without it stays known. */
  lemma LossOk(r: Radio, losses: Losses, t: Thread, r': Radio, losses': Losses)
    requires ThreadOk(r, losses, t) && Reached(losses, losses')
    requires if losses.hostapd < losses'.hostapd then !r'.hostapd else r'.hostapd == r.hostapd
    requires if losses.wpa < losses'.wpa then !r'.wpa else r'.wpa == r.wpa
    requires if losses.address < losses'.address then !r'.ipv4 else r'.ipv4 == r.ipv4
    ensures ThreadOk(r', losses', t)
  {
  }

  lemma StartOk(r: Radio, losses: Losses, kind: Kind)
    requires !(r.hostapd && r.wpa)
    ensures ThreadOk(r, losses, Start(kind)) && !InLock(Start(kind).pc)
  {
  }

  ghost predicate Exclusive(holder: Option<nat>, threads: seq<Thread>) {
    && (forall i :: 0 <= i < |threads| ==> (InLock(threads[i].pc) <==> holder == Some(i)))
    && (holder.Some? ==> holder.value < |threads|)
  }

  ghost predicate SwitchOk(s: State) {
    && !(s.radio.hostapd && s.radio.wpa)
    && Exclusive(s.holder, s.threads)
    && (forall i :: 0 <= i < |s.threads| ==> ThreadOk(s.radio, s.losses, s.threads[i]))
    && s.strayCommands == 0
    && s.strayUnlocks == 0
  }

  lemma ThreadStepOk(s: State, i: nat, c: Choice)
    requires SwitchOk(s) && Enabled(s, ThreadStep(i, c))
    ensures SwitchOk(Apply(s, ThreadStep(i, c)))
  {
    var t := s.threads[i];
    var k := Move(t, s.radio, s.holder.None?, c);
    SteppedOk(t, s.radio, s.losses, s.holder.None?, c);
    var s' := Apply(s, ThreadStep(i, c));
    assert s'.threads == s.threads[i := Stepped(t, k, s.radio, s.losses)];
    forall j | 0 <= j < |s'.threads|
      ensures ThreadOk(s'.radio, s'.losses, s'.threads[j])
      ensures InLock(s'.threads[j].pc) <==> s'.holder == Some(j)
    {
      if j != i && !InLock(s.threads[j].pc) {
        OthersOk(s.radio, s.losses, s.threads[j], s'.radio);
      }
    }
  }

  lemma EnvironmentOk(s: State, step: Step)
    requires SwitchOk(s) && Enabled(s, step) && !step.ThreadStep?
    ensures SwitchOk(Apply(s, step))
  {
    var s' := Apply(s, step);
    forall j | 0 <= j < |s'.threads|
      ensures ThreadOk(s'.radio, s'.losses, s'.threads[j])
      ensures InLock(s'.threads[j].pc) <==> s'.holder == Some(j)
    {
      if j == |s.threads| {
        StartOk(s.radio, s.losses, step.kind);
      } else if !step.NewThread? {
        LossOk(s.radio, s.losses, s.threads[j], s'.radio, s'.losses);
      }
    }
  }

  lemma {:induction false} SwitchAlways(radio: Radio, run: seq<Step>)
    requires !(radio.hostapd && radio.wpa)
    ensures After(radio, run).Some? ==> SwitchOk(After(radio, run).value)
  {
    if run == [] {
      StartOk(radio, NO_LOSSES, Boot);
    } else if After(radio, run).Some? {
      SwitchAlways(radio, run[..|run| - 1]);
      var s := After(radio, run[..|run| - 1]).value;
      var step := run[|run| - 1];
      if step.ThreadStep? { ThreadStepOk(s, step.i, step.choice); } else { EnvironmentOk(s, step); }
    }
  }

  // ---------- main results ----------

  lemma MutualExclusion(radio: Radio, run: seq<Step>)
    requires !(radio.hostapd && radio.wpa) && After(radio, run).Some?
    ensures var s := After(radio, run).value;
            && !(s.radio.hostapd && s.radio.wpa)
            && (forall i, j | 0 <= i < j < |s.threads| :: !(InLock(s.threads[i].pc) && InLock(s.threads[j].pc)))
            && s.strayCommands == 0
            && s.strayUnlocks == 0
  {
    SwitchAlways(radio, run);
  }

  /** The radio changes only through the holder of the mutex, or because something died on its own. */
  lemma OnlyHolderMovesRadio(radio: Radio, run: seq<Step>, step: Step)
    requires !(radio.hostapd && radio.wpa) && After(radio, run).Some? && Enabled(After(radio, run).value, step)
    ensures var s := After(radio, run).value;
            Apply(s, step).radio != s.radio ==>
              (step.ThreadStep? && s.holder == Some(step.i)) || step.HostapdDies? || step.WpaDies? || step.AddressLost?
  {
    SwitchAlways(radio, run);
    var s := After(radio, run).value;
    if step.ThreadStep? {
      MoveSafe(s.threads[step.i], s.radio, s.holder.None?, step.choice);
    }
  }

  /** A thread that is out of the critical section has released the mutex as often as it took it; CONNECT
      and SWITCH_TO_AP answer BUSY exactly when they never got it, and then have sent no command. */
  lemma ReturnedThreads(radio: Radio, run: seq<Step>, i: nat)
    requires !(radio.hostapd && radio.wpa) && After(radio, run).Some?
    requires i < |After(radio, run).value.threads|
    ensures var t := After(radio, run).value.threads[i];
            && (!InLock(t.pc) ==> t.locks == t.unlocks)
            && (t.pc.Finished? && (t.kind.RunNow? || t.kind.EnsureAp?) ==>
                  t.result.Some? && (t.result == Some(WifiBusy) <==> t.locks == 0))
            && (t.result == Some(WifiBusy) && !t.kind.Scan? && !t.kind.Boot? ==> t.commands == 0)
  {
    SwitchAlways(radio, run);
    var s := After(radio, run).value;
    assert ThreadOk(s.radio, s.losses, s.threads[i]);
  }

  /** At its trylock an entry point is refused exactly when some thread is in the critical section. */
  lemma BusyIffHeld(radio: Radio, run: seq<Step>, i: nat, c: Choice)
    requires !(radio.hostapd && radio.wpa) && After(radio, run).Some?
    requires i < |After(radio, run).value.threads|
    requires var pc := After(radio, run).value.threads[i].pc; pc == AtRun(RunTryLock) || pc == AtEnsure(EnsureTryLock)
    ensures var s := After(radio, run).value;
            var s' := Apply(s, ThreadStep(i, c));
            if exists j :: 0 <= j < |s.threads| && InLock(s.threads[j].pc)
            then s'.threads[i].result == Some(WifiBusy) && s'.radio == s.radio && s'.holder == s.holder
            else s'.threads[i].result.None? && s'.holder == Some(i)
  {
    SwitchAlways(radio, run);
    var s := After(radio, run).value;
    assert ThreadOk(s.radio, s.losses, s.threads[i]);
    if s.holder.Some? {
      assert InLock(s.threads[s.holder.value].pc);
    }
  }

  /** The monitor touches the mutex or the radio only right after two polls in a row that saw neither an
      access point nor a connection. */
  lemma RecoveryAfterTwoMisses(radio: Radio, run: seq<Step>, i: nat)
    requires !(radio.hostapd && radio.wpa) && After(radio, run).Some?
    requires i < |After(radio, run).value.threads|
    ensures var t := After(radio, run).value.threads[i]; Recovering(t.pc) ==> TwoMisses(t.polls)
  {
    SwitchAlways(radio, run);
    var s := After(radio, run).value;
    assert ThreadOk(s.radio, s.losses, s.threads[i]);
  }

  /** When CONNECT is about to release the mutex.  Success means that hostapd is down, whatever else
      happened; that the supplicant runs unless it died since the lock was taken; and that wlan0 has an
      address unless one was lost since then.  Failure means that an access point that was up when the lock
      was taken is up, unless bringing it back failed or hostapd died since then. */
  lemma RunNowOutcome(radio: Radio, run: seq<Step>, i: nat)
    requires !(radio.hostapd && radio.wpa) && After(radio, run).Some?
    requires i < |After(radio, run).value.threads|
    ensures var s := After(radio, run).value;
            var t := s.threads[i];
            t.pc.AtRun? && t.pc.run.RunUnlock? ==>
              if t.pc.run.status == WifiOk then
                && !s.radio.hostapd
                && (s.radio.wpa || t.lossesAtLock.wpa < s.losses.wpa)
                && (s.radio.ipv4 || t.lossesAtLock.address < s.losses.address)
              else
                t.apAtLock ==> s.radio.hostapd || t.restoreFailed || t.lossesAtLock.hostapd < s.losses.hostapd
  {
    SwitchAlways(radio, run);
    var s := After(radio, run).value;
    assert ThreadOk(s.radio, s.losses, s.threads[i]);
  }

  /** When SWITCH_TO_AP is about to release the mutex with success, the supplicant is down, and the access
      point is up unless hostapd died since the lock was taken. */
  lemma EnsureApOutcome(radio: Radio, run: seq<Step>, i: nat)
    requires !(radio.hostapd && radio.wpa) && After(radio, run).Some?
    requires i < |After(radio, run).value.threads|
    ensures var s := After(radio, run).value;
            var t := s.threads[i];
            t.pc == AtEnsure(EnsureUnlock(WifiOk)) ==>
              !s.radio.wpa && (s.radio.hostapd || t.lossesAtLock.hostapd < s.losses.hostapd)
  {
    SwitchAlways(radio, run);
    var s := After(radio, run).value;
    assert ThreadOk(s.radio, s.losses, s.threads[i]);
  }

  // ---------- the mutex is always released ----------

  function StaRank(step: StaStep): nat {
    match step
    case StaKillWpa => 11
    case StaKillHostapd => 10
    case StaFlush => 9
    case StaLinkUp => 8
    case StaScan => 7
    case StaWriteConf => 6
    case StaStartWpa => 5
    case StaCheckWpa => 4
    case StaAssociate => 3
    case StaDhcp => 2
    case StaCheckIp => 1
  }

  function ApRank(step: ApStep): nat {
    match step
    case ApKillWpa => 8
    case ApKillHostapd => 7
    case ApFlush => 6
    case ApAddAddress => 5
    case ApRewriteConf => 4
    case ApKillHostapdAgain => 3
    case ApStartHostapd => 2
    case ApCheckHostapd => 1
  }

  function BootRank(b: BootPc): nat {
    match b
    case BootBand(_) => 31
    case BootPhaseA => 22
    case BootKillWpa => 10
    case _ => 1
  }

  function MonitorRank(m: MonitorPc): nat {
    match m
    case MonitorCreds => 24
    case MonitorKillWpa => 23
    case MonitorKillHostapd => 22
    case MonitorCheckAp => 10
    case _ => 1
  }

  const LONGEST_HOLD := 33

  /** A bound on the steps until the mutex is released. */
  function Rank(pc: Pc): nat {
    match pc
    case AtBoot(b) => BootRank(b)
    case AtMonitor(m) => MonitorRank(m)
    case AtRun(p) =>
      (match p case RunCreds => 33 case RunReady => 32 case RunCheckAp => 31 case _ => 1)
    case AtEnsure(e) =>
      (match e case EnsureCheckAp => 11 case EnsureReady => 10 case _ => 1)
    case AtScan(s) => if s.ScanRun? then 2 else 1
    case InSta(step, _) => 10 + StaRank(step)
    case InAp(step, ret) => (if ret.BootWarm? || ret.RunWarm? then 22 else 1) + ApRank(step)
    case Finished => 0
  }

  lemma StaRankDrops(step: StaStep, ret: StaReturn, r: Radio, c: Choice)
    ensures Rank(StaControl(step, ret, r, c).pc) < Rank(InSta(step, ret))
  {
  }

  lemma ApRankDrops(step: ApStep, ret: ApReturn, r: Radio, c: Choice)
    ensures Rank(ApControl(step, ret, r, c).pc) < Rank(InAp(step, ret))
  {
  }

  lemma BootRankDrops(b: BootPc, r: Radio, c: Choice)
    requires InLock(AtBoot(b))
    ensures var k := BootControl(b, r, c); k.lockOp.Unlock? || Rank(k.pc) < Rank(AtBoot(b))
  {
  }

  lemma MonitorRankDrops(m: MonitorPc, missCount: nat, r: Radio, free: bool, c: Choice)
    requires InLock(AtMonitor(m))
    ensures var k := MonitorControl(m, missCount, r, free, c); k.lockOp.Unlock? || Rank(k.pc) < Rank(AtMonitor(m))
  {
  }

  lemma RankDrops(t: Thread, r: Radio, free: bool, c: Choice)
    requires CanMove(t, free) && InLock(t.pc)
    ensures var k := Move(t, r, free, c); k.lockOp.Unlock? || Rank(k.pc) < Rank(t.pc)
    ensures 0 < Rank(t.pc) <= LONGEST_HOLD
  {
    match t.pc
    case AtBoot(b) => BootRankDrops(b, r, c);
    case AtMonitor(m) => MonitorRankDrops(m, t.missCount, r, free, c);
    case AtRun(p) =>
    case AtEnsure(e) =>
    case AtScan(s) =>
    case InSta(step, ret) => StaRankDrops(step, ret, r, c);
    case InAp(step, ret) => ApRankDrops(step, ret, r, c);
  }

  /** How often thread `i` steps. */
  function OwnSteps(steps: seq<Step>, i: nat): nat {
    if steps == [] then 0
    else OwnSteps(steps[..|steps| - 1], i) + (if Final(steps).ThreadStep? && Final(steps).i == i then 1 else 0)
  }

  function Final(steps: seq<Step>): Step
    requires steps != []
  {
    steps[|steps| - 1]
  }

  lemma {:induction false} PrefixRuns(radio: Radio, run: seq<Step>, n: nat)
    requires After(radio, run).Some? && n <= |run|
    ensures After(radio, run[..n]).Some?
  {
    if n == |run| {
      assert run[..n] == run;
    } else {
      PrefixRuns(radio, run[..|run| - 1], n);
      assert run[..|run| - 1][..n] == run[..n];
    }
  }

  /** Thread `i` holds the mutex after `run` and still after each of the further steps. */
  ghost predicate HeldThroughout(radio: Radio, run: seq<Step>, more: seq<Step>, i: nat) {
    forall n :: 0 <= n <= |more| ==>
      After(radio, run + more[..n]).Some? && After(radio, run + more[..n]).value.holder == Some(i)
  }

  ghost function RankAfter(radio: Radio, run: seq<Step>, i: nat): nat {
    match After(radio, run)
    case None => 0
    case Some(s) => if i < |s.threads| then Rank(s.threads[i].pc) else 0
  }

  /** One more step of a run: only the holder's own steps move its program point, and those come closer to
      the release. */
  lemma RankStep(radio: Radio, run: seq<Step>, step: Step, i: nat)
    requires !(radio.hostapd && radio.wpa) && After(radio, run + [step]).Some? && After(radio, run).Some?
    requires After(radio, run).value.holder == Some(i) && After(radio, run + [step]).value.holder == Some(i)
    ensures RankAfter(radio, run + [step], i) + (if step.ThreadStep? && step.i == i then 1 else 0)
         <= RankAfter(radio, run, i)
  {
    SwitchAlways(radio, run);
    assert (run + [step])[..|run|] == run;
    var s := After(radio, run).value;
    assert InLock(s.threads[i].pc);
    if step.ThreadStep? && step.i == i {
      RankDrops(s.threads[i], s.radio, false, step.choice);
    }
  }

  lemma {:induction false} HeldRank(radio: Radio, run: seq<Step>, more: seq<Step>, i: nat)
    requires !(radio.hostapd && radio.wpa) && HeldThroughout(radio, run, more, i)
    ensures OwnSteps(more, i) + RankAfter(radio, run + more, i) <= RankAfter(radio, run, i)
    decreases |more|
  {
    if more == [] {
      assert run + more == run;
    } else {
      var front := more[..|more| - 1];
      assert forall n :: 0 <= n <= |front| ==> front[..n] == more[..n];
      HeldRank(radio, run, front, i);
      assert run + front + [Final(more)] == run + more;
      assert more[..|front|] == front && more[..|more|] == more;
      RankStep(radio, run + front, Final(more), i);
    }
  }

  lemma RankBound(radio: Radio, run: seq<Step>, i: nat)
    requires !(radio.hostapd && radio.wpa) && After(radio, run).Some?
    requires After(radio, run).value.holder == Some(i)
    ensures 0 < RankAfter(radio, run, i) <= LONGEST_HOLD
  {
    SwitchAlways(radio, run);
    var s := After(radio, run).value;
    assert InLock(s.threads[i].pc);
    RankDrops(s.threads[i], s.radio, false, Choice(true, true, true));
  }

  /** The holder of the mutex is never stuck: whatever its next command returns, it can take its step. */
  lemma HolderCanMove(radio: Radio, run: seq<Step>, c: Choice)
    requires !(radio.hostapd && radio.wpa) && After(radio, run).Some? && After(radio, run).value.holder.Some?
    ensures var s := After(radio, run).value; Enabled(s, ThreadStep(s.holder.value, c))
  {
    SwitchAlways(radio, run);
    var s := After(radio, run).value;
    assert InLock(s.threads[s.holder.value].pc);
  }

  lemma AllPrefixesRun(radio: Radio, run: seq<Step>, more: seq<Step>)
    requires After(radio, run + more).Some?
    ensures forall n :: 0 <= n <= |more| ==> After(radio, run + more[..n]).Some?
  {
    forall n | 0 <= n <= |more|
      ensures After(radio, run + more[..n]).Some?
    {
      PrefixRuns(radio, run + more, |run| + n);
      assert (run + more)[..|run| + n] == run + more[..n];
    }
  }

  lemma NotHeldThroughout(radio: Radio, run: seq<Step>, more: seq<Step>, i: nat)
    requires !(radio.hostapd && radio.wpa) && OwnSteps(more, i) >= LONGEST_HOLD
    ensures !HeldThroughout(radio, run, more, i)
  {
    if HeldThroughout(radio, run, more, i) {
      assert more[..0] == [] && run + [] == run && more[..|more|] == more;
      HeldRank(radio, run, more, i);
      RankBound(radio, run, i);
      RankBound(radio, run + more, i);
    }
  }

  /** However a run goes on, with other threads stepping and starting and daemons dying in between, a holder
      of the mutex that gets 33 steps of its own has let go of it by then, whatever its commands return.
      Nothing is said about who takes it next. */
  lemma MutexIsReleased(radio: Radio, run: seq<Step>, more: seq<Step>, i: nat)
    requires !(radio.hostapd && radio.wpa) && After(radio, run + more).Some? && OwnSteps(more, i) >= LONGEST_HOLD
    ensures exists n :: 0 <= n <= |more| && After(radio, run + more[..n]).Some?
                        && After(radio, run + more[..n]).value.holder != Some(i)
  {
    AllPrefixesRun(radio, run, more);
    NotHeldThroughout(radio, run, more, i);
  }
}
