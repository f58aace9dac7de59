/** What each use of the STA/AP switch comes to, as a function of what its commands return: nobody else touches
    the radio while a thread holds the mutex, so its steps between taking and releasing it are those of a thread
    on its own. */
module WifiSwitchOutcomes {
  import opened Bytes
  import opened Dispatch
  import opened WifiSwitch
  import opened WifiSwitchSafety
  import opened WifiSwitchRuns

  /** What the commands of one thread return, one after the other. */
  type Choices = nat -> Choice

  const OFF := Radio(false, false, false)

  datatype Driven = Driven(t: Thread, r: Radio)

  function DriveOnce(d: Driven, c: Choice): Driven {
    if !CanMove(d.t, false) then d
    else
      var m := Move(d.t, d.r, false, c);
      Driven(Record(d.t, m), m.radio)
  }

  /** A thread under the mutex after `n` steps on its own.  The definition goes through two further names, so that
      a step is unfolded only where a proof asks for it. */
  function Drive(t: Thread, r: Radio, ch: Choices, n: nat): Driven
    decreases n, 2
  {
    if n == 0 then Driven(t, r) else DriveSome(t, r, ch, n)
  }

  function DriveSome(t: Thread, r: Radio, ch: Choices, n: nat): Driven
    requires n > 0
    decreases n, 1
  {
    DriveLast(t, r, ch, n)
  }

  function DriveLast(t: Thread, r: Radio, ch: Choices, n: nat): Driven
    requires n > 0
    decreases n, 0
  {
    DriveOnce(Drive(t, r, ch, n - 1), ch(n - 1))
  }

  lemma DriveNext(t: Thread, r: Radio, ch: Choices, n: nat)
    ensures Drive(t, r, ch, n + 1) == DriveOnce(Drive(t, r, ch, n), ch(n))
  {
    assert Drive(t, r, ch, n + 1) == DriveSome(t, r, ch, n + 1);
    assert DriveSome(t, r, ch, n + 1) == DriveLast(t, r, ch, n + 1);
  }

  /** The step seen from outside: program point and radio. */
  lemma DriveStep(t: Thread, r: Radio, ch: Choices, n: nat)
    requires CanMove(Drive(t, r, ch, n).t, false)
    ensures var d, d' := Drive(t, r, ch, n), Drive(t, r, ch, n + 1);
            && d'.t.pc == Move(d.t, d.r, false, ch(n)).pc
            && d'.r == Move(d.t, d.r, false, ch(n)).radio && d'.t.kind == d.t.kind
  {
    DriveNext(t, r, ch, n);
  }

  // ---------- the holder of the mutex is alone with the radio ----------

  /** The steps of thread `i` among `steps` return what `ch` says. */
  ghost predicate Follows(steps: seq<Step>, i: nat, ch: Choices) {
    if steps == [] then true
    else
      var front := steps[..|steps| - 1];
      && Follows(front, i, ch)
      && (Final(steps).ThreadStep? && Final(steps).i == i ==> Final(steps).choice == ch(OwnSteps(front, i)))
  }

  /** Nothing dies and no address is lost on its own. */
  ghost predicate Quiet(steps: seq<Step>) {
    forall n :: 0 <= n < |steps| ==> steps[n].ThreadStep? || steps[n].NewThread?
  }

  function Locks(pc: Pc): nat {
    if InLock(pc) then 1 else 0
  }

  /** 1 if the invariant of the switch holds. */
  ghost function Sound(s: State): nat {
    if SwitchOk(s) then 1 else 0
  }

  function OneStep(s: State, step: Step): Option<State> {
    if Enabled(s, step) then Some(Apply(s, step)) else None
  }

  lemma OtherStepAside(s: State, step: Step, i: nat)
    requires Sound(s) == 1 && OneStep(s, step).Some? && s.holder == Some(i) && i < |s.threads|
    requires step.NewThread? || (step.ThreadStep? && step.i != i)
    ensures var s' := OneStep(s, step).value;
            s'.holder == Some(i) && i < |s'.threads| && s'.threads[i] == s.threads[i] && s'.radio == s.radio
  {
    if step.ThreadStep? {
      assert !InLock(s.threads[step.i].pc);
      assert ThreadOk(s.radio, s.losses, s.threads[step.i]);
      MoveSafe(s.threads[step.i], s.radio, false, step.choice);
    }
  }

  lemma OwnStepDrives(s: State, i: nat, c: Choice)
    requires SwitchOk(s) && Enabled(s, ThreadStep(i, c)) && s.holder == Some(i)
    requires InLock(Record(s.threads[i], Move(s.threads[i], s.radio, false, c)).pc)
    ensures var s', m := Apply(s, ThreadStep(i, c)), Move(s.threads[i], s.radio, false, c);
            s'.holder == Some(i) && s'.threads[i] == Record(s.threads[i], m) && s'.radio == m.radio
  {
    assert InLock(s.threads[i].pc);
    assert ThreadOk(s.radio, s.losses, s.threads[i]);
    MoveSafe(s.threads[i], s.radio, false, c);
  }

  /** A thread on its own does not get the mutex back, so that holding it now is having held it all along. */
  lemma OutStaysOut(t: Thread, r: Radio, c: Choice)
    requires Locks(t.pc) == 0
    ensures Locks(DriveOnce(Driven(t, r), c).t.pc) == 0
  {
  }

  lemma HeldBefore(t: Thread, r: Radio, ch: Choices, n: nat)
    requires Locks(Drive(t, r, ch, n + 1).t.pc) == 1
    ensures Locks(Drive(t, r, ch, n).t.pc) == 1
  {
    var d := Drive(t, r, ch, n);
    DriveNext(t, r, ch, n);
    if Locks(d.t.pc) == 0 {
      OutStaysOut(d.t, d.r, ch(n));
    }
  }

  lemma SoundStep(s: State, step: Step)
    requires Sound(s) == 1 && OneStep(s, step).Some?
    ensures Sound(OneStep(s, step).value) == 1
  {
    if step.ThreadStep? { ThreadStepOk(s, step.i, step.choice); } else { EnvironmentOk(s, step); }
  }

  /** The state after `more`, starting from `s`; None if some step is not possible. */
  function Resume(s: State, more: seq<Step>): Option<State>
    decreases |more|, 2
  {
    if more == [] then Some(s) else ResumeSome(s, more)
  }

  function ResumeSome(s: State, more: seq<Step>): Option<State>
    requires more != []
    decreases |more|, 1
  {
    ResumeLast(s, more)
  }

  function ResumeLast(s: State, more: seq<Step>): Option<State>
    requires more != []
    decreases |more|, 0
  {
    match Resume(s, more[..|more| - 1])
    case None => None
    case Some(u) => OneStep(u, Final(more))
  }

  lemma ResumeNext(s: State, more: seq<Step>)
    requires more != [] && Resume(s, more).Some?
    ensures var u := Resume(s, more[..|more| - 1]);
            u.Some? && Resume(s, more) == OneStep(u.value, Final(more))
  {
    assert Resume(s, more) == ResumeSome(s, more);
    assert ResumeSome(s, more) == ResumeLast(s, more);
  }

  lemma {:induction false} AfterResumes(radio: Radio, run: seq<Step>, more: seq<Step>)
    requires After(radio, run).Some?
    ensures After(radio, run + more) == Resume(After(radio, run).value, more)
    decreases |more|
  {
    if more == [] {
      assert run + more == run;
    } else {
      var s, front := After(radio, run).value, more[..|more| - 1];
      AfterResumes(radio, run, front);
      assert (run + more)[..|run + more| - 1] == run + front;
      assert Resume(s, more) == ResumeSome(s, more);
      assert ResumeSome(s, more) == ResumeLast(s, more);
    }
  }

  /** The steps of a continuation before its last, and its last. */
  lemma LastOf(more: seq<Step>, i: nat, ch: Choices)
    requires Quiet(more) && Follows(more, i, ch) && more != []
    ensures var front, step := more[..|more| - 1], Final(more);
            && Quiet(front) && Follows(front, i, ch) && (step.ThreadStep? || step.NewThread?)
            && (step.ThreadStep? && step.i == i ==> step.choice == ch(OwnSteps(front, i)))
            && OwnSteps(more, i) == OwnSteps(front, i) + (if step.ThreadStep? && step.i == i then 1 else 0)
  {
  }

  lemma OwnStepAlone(t: Thread, r: Radio, s: State, i: nat, ch: Choices, n: nat)
    requires Sound(s) == 1 && OneStep(s, ThreadStep(i, ch(n))).Some? && s.holder == Some(i) && i < |s.threads|
    requires Drive(t, r, ch, n) == Driven(s.threads[i], s.radio) && Locks(Drive(t, r, ch, n + 1).t.pc) == 1
    ensures var s' := OneStep(s, ThreadStep(i, ch(n))).value;
            && s'.holder == Some(i) && i < |s'.threads|
            && Driven(s'.threads[i], s'.radio) == Drive(t, r, ch, n + 1)
  {
    DriveNext(t, r, ch, n);
    OwnStepDrives(s, i, ch(n));
  }

  /** Whatever else is going on, as long as nothing dies: the thread and the radio are where the thread's own
      steps have brought them. */
  lemma {:induction false} HolderIsAlone(s: State, more: seq<Step>, i: nat, ch: Choices)
    requires Sound(s) == 1 && Resume(s, more).Some? && s.holder == Some(i) && i < |s.threads|
    requires Quiet(more) && Follows(more, i, ch)
    requires Locks(Drive(s.threads[i], s.radio, ch, OwnSteps(more, i)).t.pc) == 1
    ensures Sound(Resume(s, more).value) == 1
    ensures var s' := Resume(s, more).value;
            && s'.holder == Some(i) && i < |s'.threads|
            && Driven(s'.threads[i], s'.radio) == Drive(s.threads[i], s.radio, ch, OwnSteps(more, i))
    decreases |more|
  {
    if more == [] {
    } else {
      var front, step := more[..|more| - 1], Final(more);
      LastOf(more, i, ch);
      ResumeNext(s, more);
      if step.ThreadStep? && step.i == i {
        HeldBefore(s.threads[i], s.radio, ch, OwnSteps(front, i));
      }
      HolderIsAlone(s, front, i, ch);
      var u := Resume(s, front).value;
      SoundStep(u, step);
      if step.ThreadStep? && step.i == i {
        OwnStepAlone(s.threads[i], s.radio, u, i, ch, OwnSteps(front, i));
      } else {
        OtherStepAside(u, step, i);
      }
    }
  }

  // ---------- try_sta_only ----------

  /** The link came up, the network was found, its configuration was written and the supplicant was alive, when
      the join begins with step `k`. */
  predicate Prepared(ch: Choices, k: nat) {
    ch(k + 3).ok && ch(k + 4).ok && ch(k + 5).ok && ch(k + 6).alive
  }

  /** How a join that begins with step `k` ends, by what went wrong first. */
  ghost predicate JoinEnds(ch: Choices, k: nat, st: WifiStatus) {
    && (st == WifiNoSsid <==> ch(k + 3).ok && !ch(k + 4).ok)
    && (st == WifiUnknown <==> ch(k + 3).ok && ch(k + 4).ok && !ch(k + 5).ok)
    && (st == WifiBadPassword <==> Prepared(ch, k) && !ch(k + 8).ok && ch(k + 8).badPassword)
    && (st == WifiOk <==> Prepared(ch, k) && ch(k + 8).ok && ch(k + 9).ok && ch(k + 9).alive && ch(k + 10).ok)
    && st != WifiBusy
  }

  lemma JoinClears(t: Thread, r: Radio, ch: Choices, k: nat, ret: StaReturn)
    requires Drive(t, r, ch, k).t.pc == InSta(StaKillWpa, ret)
    ensures Drive(t, r, ch, k + 3).t.pc == InSta(StaLinkUp, ret) && Drive(t, r, ch, k + 3).r == OFF
  {
    DriveStep(t, r, ch, k);
    DriveStep(t, r, ch, k + 1);
    DriveStep(t, r, ch, k + 2);
  }

  lemma JoinFinds(t: Thread, r: Radio, ch: Choices, k: nat, ret: StaReturn)
    requires Drive(t, r, ch, k).t.pc == InSta(StaKillWpa, ret) && ch(k + 3).ok && ch(k + 4).ok
    ensures Drive(t, r, ch, k + 5).t.pc == InSta(StaWriteConf, ret) && Drive(t, r, ch, k + 5).r == OFF
  {
    JoinClears(t, r, ch, k, ret);
    DriveStep(t, r, ch, k + 3);
    DriveStep(t, r, ch, k + 4);
  }

  lemma JoinWrites(t: Thread, r: Radio, ch: Choices, k: nat, ret: StaReturn)
    requires Drive(t, r, ch, k).t.pc == InSta(StaKillWpa, ret) && ch(k + 3).ok && ch(k + 4).ok && ch(k + 5).ok
    ensures Drive(t, r, ch, k + 7).t.pc == InSta(StaCheckWpa, ret)
    ensures Drive(t, r, ch, k + 7).r == Radio(false, ch(k + 6).alive, false)
  {
    JoinFinds(t, r, ch, k, ret);
    DriveStep(t, r, ch, k + 5);
    DriveStep(t, r, ch, k + 6);
  }

  lemma JoinStarts(t: Thread, r: Radio, ch: Choices, k: nat, ret: StaReturn)
    requires Drive(t, r, ch, k).t.pc == InSta(StaKillWpa, ret) && Prepared(ch, k)
    ensures Drive(t, r, ch, k + 8).t.pc == InSta(StaAssociate, ret)
    ensures Drive(t, r, ch, k + 8).r == Radio(false, true, false)
  {
    JoinWrites(t, r, ch, k, ret);
    DriveStep(t, r, ch, k + 7);
  }

  lemma SearchFails(t: Thread, r: Radio, ch: Choices, k: nat, ret: StaReturn) returns (n: nat, st: WifiStatus)
    requires Drive(t, r, ch, k).t.pc == InSta(StaKillWpa, ret) && !(ch(k + 3).ok && ch(k + 4).ok)
    ensures k < n <= k + 5 && JoinEnds(ch, k, st)
    ensures Drive(t, r, ch, n).t.pc == AfterSta(ret, st) && !Drive(t, r, ch, n).r.hostapd
  {
    JoinClears(t, r, ch, k, ret);
    DriveStep(t, r, ch, k + 3);
    n, st := k + 4, WifiConnectFail;
    if ch(k + 3).ok {
      DriveStep(t, r, ch, k + 4);
      n, st := k + 5, WifiNoSsid;
    }
  }

  lemma StartFails(t: Thread, r: Radio, ch: Choices, k: nat, ret: StaReturn) returns (n: nat, st: WifiStatus)
    requires Drive(t, r, ch, k).t.pc == InSta(StaKillWpa, ret) && ch(k + 3).ok && ch(k + 4).ok && !Prepared(ch, k)
    ensures k < n <= k + 8 && JoinEnds(ch, k, st)
    ensures Drive(t, r, ch, n).t.pc == AfterSta(ret, st) && !Drive(t, r, ch, n).r.hostapd
  {
    n, st := k + 6, WifiUnknown;
    if ch(k + 5).ok {
      JoinWrites(t, r, ch, k, ret);
      DriveStep(t, r, ch, k + 7);
      n, st := k + 8, WifiConnectFail;
    } else {
      JoinFinds(t, r, ch, k, ret);
      DriveStep(t, r, ch, k + 5);
    }
  }

  lemma JoinRefused(t: Thread, r: Radio, ch: Choices, k: nat, ret: StaReturn) returns (n: nat, st: WifiStatus)
    requires Drive(t, r, ch, k).t.pc == InSta(StaKillWpa, ret) && Prepared(ch, k) && !ch(k + 8).ok
    ensures k < n <= k + 9 && JoinEnds(ch, k, st) && st != WifiOk
    ensures Drive(t, r, ch, n).t.pc == AfterSta(ret, st) && !Drive(t, r, ch, n).r.hostapd
  {
    JoinStarts(t, r, ch, k, ret);
    DriveStep(t, r, ch, k + 8);
    n, st := k + 9, if ch(k + 8).badPassword then WifiBadPassword else WifiConnectFail;
  }

  lemma JoinAssociates(t: Thread, r: Radio, ch: Choices, k: nat, ret: StaReturn)
    requires Drive(t, r, ch, k).t.pc == InSta(StaKillWpa, ret) && Prepared(ch, k) && ch(k + 8).ok
    ensures Drive(t, r, ch, k + 10).t.pc
         == if ch(k + 9).ok then InSta(StaCheckIp, ret) else AfterSta(ret, WifiConnectFail)
    ensures Drive(t, r, ch, k + 10).r == Radio(false, true, ch(k + 9).ok && ch(k + 9).alive)
  {
    JoinStarts(t, r, ch, k, ret);
    DriveStep(t, r, ch, k + 8);
    DriveStep(t, r, ch, k + 9);
  }

  lemma JoinFinishes(t: Thread, r: Radio, ch: Choices, k: nat, ret: StaReturn) returns (n: nat, st: WifiStatus)
    requires Drive(t, r, ch, k).t.pc == InSta(StaKillWpa, ret) && Prepared(ch, k) && ch(k + 8).ok
    ensures k < n <= k + 11 && JoinEnds(ch, k, st)
    ensures Drive(t, r, ch, n).t.pc == AfterSta(ret, st) && !Drive(t, r, ch, n).r.hostapd
    ensures st == WifiOk ==> Drive(t, r, ch, n).r == Radio(false, true, true)
  {
    JoinAssociates(t, r, ch, k, ret);
    n, st := k + 10, WifiConnectFail;
    if ch(k + 9).ok {
      DriveStep(t, r, ch, k + 10);
      n, st := k + 11, if ch(k + 9).alive && ch(k + 10).ok then WifiOk else WifiConnectFail;
    }
  }

  /** A join takes the status of the first command that fails back to its caller; hostapd is down then, and after
      a success the supplicant runs and there is an address. */
  lemma JoinReturns(t: Thread, r: Radio, ch: Choices, k: nat, ret: StaReturn) returns (n: nat, st: WifiStatus)
    requires Drive(t, r, ch, k).t.pc == InSta(StaKillWpa, ret)
    ensures k < n <= k + 11 && JoinEnds(ch, k, st)
    ensures Drive(t, r, ch, n).t.pc == AfterSta(ret, st) && !Drive(t, r, ch, n).r.hostapd
    ensures st == WifiOk ==> Drive(t, r, ch, n).r == Radio(false, true, true)
  {
    if Prepared(ch, k) && ch(k + 8).ok {
      n, st := JoinFinishes(t, r, ch, k, ret);
    } else if Prepared(ch, k) {
      n, st := JoinRefused(t, r, ch, k, ret);
    } else if ch(k + 3).ok && ch(k + 4).ok {
      n, st := StartFails(t, r, ch, k, ret);
    } else {
      n, st := SearchFails(t, r, ch, k, ret);
    }
  }

  // ---------- enter_ap_mode ----------

  /** The configuration was rewritten, hostapd started and was seen alive, when `k` is the first step. */
  predicate ApStarts(ch: Choices, k: nat) {
    ch(k + 4).ok && ch(k + 6).ok && ch(k + 6).alive
  }

  lemma ApClears(t: Thread, r: Radio, ch: Choices, k: nat, ret: ApReturn)
    requires Drive(t, r, ch, k).t.pc == InAp(ApKillWpa, ret)
    ensures Drive(t, r, ch, k + 4).t.pc == InAp(ApRewriteConf, ret)
    ensures Drive(t, r, ch, k + 4).r == Radio(false, false, ch(k + 3).ok)
  {
    DriveStep(t, r, ch, k);
    DriveStep(t, r, ch, k + 1);
    DriveStep(t, r, ch, k + 2);
    DriveStep(t, r, ch, k + 3);
  }

  lemma ApRestarts(t: Thread, r: Radio, ch: Choices, k: nat, ret: ApReturn)
    requires Drive(t, r, ch, k).t.pc == InAp(ApKillWpa, ret) && ch(k + 4).ok
    ensures Drive(t, r, ch, k + 6).t.pc == InAp(ApStartHostapd, ret)
    ensures Drive(t, r, ch, k + 6).r == Radio(false, false, ch(k + 3).ok)
  {
    ApClears(t, r, ch, k, ret);
    DriveStep(t, r, ch, k + 4);
    DriveStep(t, r, ch, k + 5);
  }

  lemma ApComesUp(t: Thread, r: Radio, ch: Choices, k: nat, ret: ApReturn)
    requires Drive(t, r, ch, k).t.pc == InAp(ApKillWpa, ret) && ch(k + 4).ok
    ensures Drive(t, r, ch, k + 7).t.pc == if ch(k + 6).ok then InAp(ApCheckHostapd, ret) else AfterAp(ret, false)
    ensures Drive(t, r, ch, k + 7).r == Radio(ch(k + 6).alive, false, ch(k + 3).ok)
  {
    ApRestarts(t, r, ch, k, ret);
    DriveStep(t, r, ch, k + 6);
  }

  /** Bringing the access point up ends with the supplicant down, and with hostapd up if all went well. */
  lemma ApReturns(t: Thread, r: Radio, ch: Choices, k: nat, ret: ApReturn) returns (n: nat)
    requires Drive(t, r, ch, k).t.pc == InAp(ApKillWpa, ret)
    ensures k < n <= k + 8
    ensures Drive(t, r, ch, n).t.pc == AfterAp(ret, ApStarts(ch, k)) && !Drive(t, r, ch, n).r.wpa
    ensures ApStarts(ch, k) ==> Drive(t, r, ch, n).r == Radio(true, false, ch(k + 3).ok)
  {
    if ch(k + 4).ok {
      ApComesUp(t, r, ch, k, ret);
      n := k + 7;
      if ch(k + 6).ok {
        DriveStep(t, r, ch, k + 7);
        n := k + 8;
      }
    } else {
      ApClears(t, r, ch, k, ret);
      DriveStep(t, r, ch, k + 4);
      n := k + 5;
    }
  }

  /** Where the own steps of a call lead: its join begins with step `join`, bringing up the AP with step `ap`, and
      after `end` steps it is about to release the mutex with `status`. */
  datatype Way = Way(join: nat, ap: nat, end: nat, status: WifiStatus)

  // ---------- wifi_switch_run_now ----------

  /** From the look at the access point, warming the radio up if it is down, to the join. */
  lemma RunNowWarms(t: Thread, r: Radio, ch: Choices, k: nat) returns (a: nat)
    requires Drive(t, r, ch, k).t.pc == AtRun(RunCheckAp)
    ensures k < a <= k + 9
    ensures Drive(t, r, ch, a).t.pc == InSta(StaKillWpa, RunSta(Drive(t, r, ch, k).r.hostapd))
  {
    DriveStep(t, r, ch, k);
    a := k + 1;
    if !Drive(t, r, ch, k).r.hostapd {
      a := ApReturns(t, r, ch, k + 1, RunWarm);
    }
  }

  /** A join that fails where the access point was up before brings that up again. */
  lemma RunNowEnds(t: Thread, r: Radio, ch: Choices, k: nat) returns (w: Way)
    requires Drive(t, r, ch, k).t.pc == AtRun(RunCheckAp)
    ensures k < w.join < w.ap <= w.end <= k + 28 && JoinEnds(ch, w.join, w.status)
    ensures Drive(t, r, ch, w.join).t.pc == InSta(StaKillWpa, RunSta(Drive(t, r, ch, k).r.hostapd))
    ensures Drive(t, r, ch, w.end).t.pc == AtRun(RunUnlock(w.status))
    ensures w.status == WifiOk ==> Drive(t, r, ch, w.end).r == Radio(false, true, true)
    ensures w.status != WifiOk && Drive(t, r, ch, k).r.hostapd ==>
              && Drive(t, r, ch, w.ap).t.pc == InAp(ApKillWpa, RunRestore(w.status))
              && !Drive(t, r, ch, w.end).r.wpa && (ApStarts(ch, w.ap) ==> Drive(t, r, ch, w.end).r.hostapd)
  {
    var ap := Drive(t, r, ch, k).r.hostapd;
    var a := RunNowWarms(t, r, ch, k);
    var e, st := JoinReturns(t, r, ch, a, RunSta(ap));
    var n := e;
    if st != WifiOk && ap {
      n := ApReturns(t, r, ch, e, RunRestore(st));
    }
    w := Way(a, e, n, st);
  }

  /** The two checks before that: credentials, and the radio being ready. */
  lemma RunNowChecks(t: Thread, r: Radio, ch: Choices, k: nat) returns (n: nat)
    requires Drive(t, r, ch, k).t.pc == AtRun(RunCreds) && Drive(t, r, ch, k).t.kind.RunNow?
    ensures k < n <= k + 2 && Drive(t, r, ch, n).r == Drive(t, r, ch, k).r
    ensures Drive(t, r, ch, n).t.pc
         == AtRun(if !Drive(t, r, ch, k).t.kind.hasSsid && !ch(k).ok then RunUnlock(WifiUnknown)
                  else if !ch(k + 1).ok then RunUnlock(WifiConnectFail)
                  else RunCheckAp)
  {
    DriveStep(t, r, ch, k);
    n := k + 1;
    if Drive(t, r, ch, k).t.kind.hasSsid || ch(k).ok {
      DriveStep(t, r, ch, k + 1);
      n := k + 2;
    }
  }

  // ---------- wifi_switch_thread ----------

  /** The boot thread joins the stored network or starts the access point: always when there are no credentials, and
      after every join that failed. */
  lemma BootEnds(t: Thread, r: Radio, ch: Choices, k: nat, have: bool) returns (w: Way)
    requires Drive(t, r, ch, k).t.pc == AtBoot(BootBand(have))
    ensures k < w.end <= k + 30 && Drive(t, r, ch, w.end).t.pc == AtBoot(BootUnlock)
    ensures have ==> Drive(t, r, ch, w.join).t.pc == InSta(StaKillWpa, BootSta) && JoinEnds(ch, w.join, w.status)
    ensures have && w.status == WifiOk ==> Drive(t, r, ch, w.end).r == Radio(false, true, true)
    ensures !have || w.status != WifiOk ==>
              && Drive(t, r, ch, w.ap).t.pc == InAp(ApKillWpa, BootAp) && !Drive(t, r, ch, w.end).r.wpa
              && (ApStarts(ch, w.ap) ==> Drive(t, r, ch, w.end).r.hostapd)
  {
    DriveStep(t, r, ch, k);
    var a, e, st := k, k + 1, WifiUnknown;
    if have {
      w := BootJoins(t, r, ch, k);
      a, e, st := w.join, w.ap, w.status;
      if st != WifiOk {
        DriveStep(t, r, ch, e);
        e := e + 1;
      }
    }
    var n := e;
    if !have || st != WifiOk {
      n := ApReturns(t, r, ch, e, BootAp);
    }
    w := Way(a, e, n, st);
  }

  lemma BootJoins(t: Thread, r: Radio, ch: Choices, k: nat) returns (w: Way)
    requires Drive(t, r, ch, k).t.pc == AtBoot(BootBand(true))
    ensures k < w.join < w.ap <= k + 21 && JoinEnds(ch, w.join, w.status)
    ensures Drive(t, r, ch, w.join).t.pc == InSta(StaKillWpa, BootSta)
    ensures Drive(t, r, ch, w.ap).t.pc == AfterSta(BootSta, w.status)
    ensures w.status == WifiOk ==> Drive(t, r, ch, w.ap).r == Radio(false, true, true)
  {
    DriveStep(t, r, ch, k);
    var a := k + 1;
    if ch(k).ok {
      a := ApReturns(t, r, ch, k + 1, BootWarm);
    }
    DriveStep(t, r, ch, a);
    a := a + 1;
    var e, st := JoinReturns(t, r, ch, a, BootSta);
    w := Way(a, e, e, st);
  }

  // ---------- wifi_reconnect_monitor ----------

  lemma RecoveryClears(t: Thread, r: Radio, ch: Choices, k: nat) returns (a: nat)
    requires Drive(t, r, ch, k).t.pc == AtMonitor(MonitorCreds) && ch(k).ok
    ensures k < a <= k + 3 && Drive(t, r, ch, a).t.pc == InSta(StaKillWpa, MonitorSta)
  {
    DriveStep(t, r, ch, k);
    DriveStep(t, r, ch, k + 1);
    DriveStep(t, r, ch, k + 2);
    a := k + 3;
  }

  /** A recovery with credentials joins the stored network again or falls back to the access point. */
  lemma RecoveryEnds(t: Thread, r: Radio, ch: Choices, k: nat) returns (w: Way)
    requires Drive(t, r, ch, k).t.pc == AtMonitor(MonitorCreds) && ch(k).ok
    ensures k < w.join < w.ap <= w.end <= k + 22 && Drive(t, r, ch, w.end).t.pc == AtMonitor(MonitorUnlock)
    ensures Drive(t, r, ch, w.join).t.pc == InSta(StaKillWpa, MonitorSta) && JoinEnds(ch, w.join, w.status)
    ensures w.status == WifiOk ==> Drive(t, r, ch, w.end).r == Radio(false, true, true)
    ensures w.status != WifiOk ==>
              && Drive(t, r, ch, w.ap).t.pc == InAp(ApKillWpa, MonitorAp) && !Drive(t, r, ch, w.end).r.wpa
              && (ApStarts(ch, w.ap) ==> Drive(t, r, ch, w.end).r.hostapd)
  {
    var a := RecoveryClears(t, r, ch, k);
    var e, st := JoinReturns(t, r, ch, a, MonitorSta);
    var n := e;
    if st != WifiOk {
      n := ApReturns(t, r, ch, e, MonitorAp);
    }
    w := Way(a, e, n, st);
  }

  /** Without credentials it leaves an access point that is up alone, and otherwise brings it up. */
  lemma NoCredsEnds(t: Thread, r: Radio, ch: Choices, k: nat) returns (w: Way)
    requires Drive(t, r, ch, k).t.pc == AtMonitor(MonitorCreds) && !ch(k).ok
    ensures k < w.ap <= w.end <= k + 10 && Drive(t, r, ch, w.end).t.pc == AtMonitor(MonitorUnlock)
    ensures Drive(t, r, ch, k).r.hostapd ==> Drive(t, r, ch, w.end).r == Drive(t, r, ch, k).r
    ensures !Drive(t, r, ch, k).r.hostapd ==>
              && Drive(t, r, ch, w.ap).t.pc == InAp(ApKillWpa, MonitorNoCreds) && !Drive(t, r, ch, w.end).r.wpa
              && (ApStarts(ch, w.ap) ==> Drive(t, r, ch, w.end).r.hostapd)
  {
    DriveStep(t, r, ch, k);
    DriveStep(t, r, ch, k + 1);
    var e, n := k + 2, k + 2;
    if !Drive(t, r, ch, k).r.hostapd {
      n := ApReturns(t, r, ch, e, MonitorNoCreds);
    }
    w := Way(k, e, n, WifiOk);
  }

  // ---------- wifi_switch_ensure_ap_mode and wifi_switch_scan ----------

  /** SWITCH_TO_AP does nothing when the access point is up, and brings it up otherwise. */
  lemma EnsureEnds(t: Thread, r: Radio, ch: Choices, k: nat) returns (w: Way)
    requires Drive(t, r, ch, k).t.pc == AtEnsure(EnsureCheckAp)
    ensures k < w.ap <= w.end <= k + 10 && Drive(t, r, ch, w.end).t.pc == AtEnsure(EnsureUnlock(w.status))
    ensures var up := Drive(t, r, ch, k).r.hostapd;
            && (!up && ch(k + 1).ok ==> Drive(t, r, ch, w.ap).t.pc == InAp(ApKillWpa, EnsureUp))
            && w.status == (if up || (ch(k + 1).ok && ApStarts(ch, w.ap)) then WifiOk else WifiConnectFail)
            && (up || !ch(k + 1).ok ==> Drive(t, r, ch, w.end).r == Drive(t, r, ch, k).r)
            && (w.status == WifiOk ==> Drive(t, r, ch, w.end).r.hostapd)
  {
    DriveStep(t, r, ch, k);
    w := Way(k, k + 1, k + 1, WifiOk);
    if !Drive(t, r, ch, k).r.hostapd {
      DriveStep(t, r, ch, k + 1);
      w := Way(k, k + 2, k + 2, WifiConnectFail);
      if ch(k + 1).ok {
        var n := ApReturns(t, r, ch, k + 2, EnsureUp);
        w := Way(k, k + 2, n, if ApStarts(ch, k + 2) then WifiOk else WifiConnectFail);
      }
    }
  }
}
