/** The STA/AP switch of system_service/wifi_switch.c as a state machine: the boot thread that turns into
    the reconnect monitor, CONNECT workers, SWITCH_TO_AP callers and scan workers, all contending for one
    mutex and one radio.  Every shell command is one step with an arbitrary outcome. */
module WifiSwitch {
  import opened Bytes
  import opened Dispatch

  /** Which daemons run, and whether wlan0 has an IPv4 address. */
  datatype Radio = Radio(hostapd: bool, wpa: bool, ipv4: bool)

  /** The arbitrary part of a step: did the command succeed, is the daemon it started alive, which of two
      failure codes applies. */
  datatype Choice = Choice(ok: bool, alive: bool, badPassword: bool)

  datatype Kind = Boot | RunNow(hasSsid: bool) | EnsureAp | Scan

  /** Callers of try_sta_only. */
  datatype StaReturn = BootSta | MonitorSta | RunSta(apWasUp: bool)

  /** Callers of enter_ap_mode. */
  datatype ApReturn =
    | BootWarm | BootAp | MonitorNoCreds | MonitorAp | RunWarm | RunRestore(status: WifiStatus) | EnsureUp

  /** The commands of try_sta_only, in order. */
  datatype StaStep =
    | StaKillWpa | StaKillHostapd | StaFlush | StaLinkUp | StaScan | StaWriteConf
    | StaStartWpa | StaCheckWpa | StaAssociate | StaDhcp | StaCheckIp

  /** The commands of enter_ap_mode, in order. */
  datatype ApStep =
    | ApKillWpa | ApKillHostapd | ApFlush | ApAddAddress | ApRewriteConf | ApKillHostapdAgain
    | ApStartHostapd | ApCheckHostapd

  datatype BootPc =
    | BootCreds
    | BootWait(haveCreds: bool)
    | BootLock(haveCreds: bool)
    | BootBand(haveCreds: bool)
    | BootPhaseA
    | BootKillWpa
    | BootUnlock

  datatype MonitorPc =
    | PollAp
    | PollConnected
    | MonitorTryLock
    | MonitorCreds
    | MonitorCheckAp
    | MonitorKillWpa
    | MonitorKillHostapd
    | MonitorUnlock

  datatype RunPc =
    | RunTryLock
    | RunCreds
    | RunReady
    | RunCheckAp
    | RunUnlock(status: WifiStatus)

  datatype EnsurePc =
    | EnsureTryLock
    | EnsureCheckAp
    | EnsureReady
    | EnsureUnlock(status: WifiStatus)

  datatype ScanPc =
    | ScanTryLock
    | ScanRun
    | ScanUnlock(ok: bool)

  datatype Pc =
    | AtBoot(boot: BootPc)
    | AtMonitor(monitor: MonitorPc)
    | AtRun(run: RunPc)
    | AtEnsure(ensure: EnsurePc)
    | AtScan(scan: ScanPc)
    | InSta(sta: StaStep, staReturn: StaReturn)
    | InAp(ap: ApStep, apReturn: ApReturn)
    | Finished

  datatype Poll = SawAp | SawConnection | SawNeither

  /** How often hostapd died, wpa_supplicant died and wlan0 lost its address, each on its own. */
  datatype Losses = Losses(hostapd: nat, wpa: nat, address: nat)

  const NO_LOSSES := Losses(0, 0, 0)

  /** A thread; the fields from `polls` on are histories. */
  datatype Thread = Thread(kind: Kind, pc: Pc, missCount: nat, result: Option<WifiStatus>,
                           polls: seq<Poll>, locks: nat, unlocks: nat, commands: nat,
                           apAtLock: bool, lossesAtLock: Losses, restoreFailed: bool)

  function Start(kind: Kind): Thread {
    var pc := match kind
      case Boot => AtBoot(BootCreds)
      case RunNow(_) => AtRun(RunTryLock)
      case EnsureAp => AtEnsure(EnsureTryLock)
      case Scan => AtScan(ScanTryLock);
    Thread(kind, pc, 0, None, [], 0, 0, 0, false, NO_LOSSES, false)
  }

  datatype LockOp = Keep | Acquire | Unlock

  /** What a step leaves behind besides its new program point: a poll of the monitor, the reset of its
      miss counter, the answer of an entry point, the outcome of restoring the AP. */
  datatype Note = Nothing | Polled(poll: Poll) | ForgetMisses | Answer(status: WifiStatus) | Restored(ok: bool)

  /** One step of a thread; `command` marks the start or stop of a radio daemon. */
  datatype Control = Control(pc: Pc, radio: Radio, lockOp: LockOp, command: bool, note: Note)

  function To(pc: Pc, r: Radio): Control {
    Control(pc, r, Keep, false, Nothing)
  }

  function Daemon(pc: Pc, r: Radio): Control {
    Control(pc, r, Keep, true, Nothing)
  }

  function Enter(pc: Pc, r: Radio): Control {
    Control(pc, r, Acquire, false, Nothing)
  }

  function Leave(pc: Pc, r: Radio, note: Note): Control {
    Control(pc, r, Unlock, false, note)
  }

  function Refuse(r: Radio, st: WifiStatus): Control {
    Control(Finished, r, Keep, false, Answer(st))
  }

  // ---------- try_sta_only ----------

  /** Where a routine goes from one command: to another, or back to its caller. */
  datatype Next<S, R> = Go(step: S) | Return(value: R)

  datatype Outcome<S, R> = Outcome(next: Next<S, R>, radio: Radio, command: bool)

  function Check<S>(r: Radio, ok: bool, step: S, failure: WifiStatus): Outcome<S, WifiStatus> {
    Outcome(if ok then Go(step) else Return(failure), r, false)
  }

  function StaCommand(k: StaStep, r: Radio, c: Choice): Outcome<StaStep, WifiStatus> {
    match k
    case StaKillWpa => Outcome(Go(StaKillHostapd), r.(wpa := false), true)
    case StaKillHostapd => Outcome(Go(StaFlush), r.(hostapd := false), true)
    case StaFlush => Outcome(Go(StaLinkUp), r.(ipv4 := false), false)
    case StaLinkUp => Check(r, c.ok, StaScan, WifiConnectFail)
    case StaScan => Check(r, c.ok, StaWriteConf, WifiNoSsid)
    case StaWriteConf => Check(r, c.ok, StaStartWpa, WifiUnknown)
    case StaStartWpa => Outcome(Go(StaCheckWpa), r.(wpa := c.alive), true)
    case StaCheckWpa => Check(r, r.wpa, StaAssociate, WifiConnectFail)
    case StaAssociate => Check(r, c.ok, StaDhcp, if c.badPassword then WifiBadPassword else WifiConnectFail)
    case StaDhcp => Check(if c.ok then r.(ipv4 := c.alive) else r, c.ok, StaCheckIp, WifiConnectFail)
    case StaCheckIp => Outcome(Return(if r.ipv4 && c.ok then WifiOk else WifiConnectFail), r, false)
  }

  function AfterSta(ret: StaReturn, st: WifiStatus): Pc {
    match ret
    case BootSta => AtBoot(if st == WifiOk then BootUnlock else BootKillWpa)
    case MonitorSta => if st == WifiOk then AtMonitor(MonitorUnlock) else InAp(ApKillWpa, MonitorAp)
    case RunSta(apWasUp) =>
      if st != WifiOk && apWasUp then InAp(ApKillWpa, RunRestore(st)) else AtRun(RunUnlock(st))
  }

  function StaControl(k: StaStep, ret: StaReturn, r: Radio, c: Choice): Control {
    var o := StaCommand(k, r, c);
    Control(if o.next.Go? then InSta(o.next.step, ret) else AfterSta(ret, o.next.value),
            o.radio, Keep, o.command, Nothing)
  }

  // ---------- enter_ap_mode ----------

  function ApCommand(k: ApStep, r: Radio, c: Choice): Outcome<ApStep, bool> {
    match k
    case ApKillWpa => Outcome(Go(ApKillHostapd), r.(wpa := false), true)
    case ApKillHostapd => Outcome(Go(ApFlush), r.(hostapd := false), true)
    case ApFlush => Outcome(Go(ApAddAddress), r.(ipv4 := false), false)
    case ApAddAddress => Outcome(Go(ApRewriteConf), r.(ipv4 := c.ok), false)
    case ApRewriteConf => Outcome(if c.ok then Go(ApKillHostapdAgain) else Return(false), r, false)
    case ApKillHostapdAgain => Outcome(Go(ApStartHostapd), r.(hostapd := false), true)
    case ApStartHostapd => Outcome(if c.ok then Go(ApCheckHostapd) else Return(false), r.(hostapd := c.alive), true)
    case ApCheckHostapd => Outcome(Return(r.hostapd), r, false)
  }

  function AfterAp(ret: ApReturn, ok: bool): Pc {
    match ret
    case BootWarm => AtBoot(BootPhaseA)
    case BootAp => AtBoot(BootUnlock)
    case MonitorNoCreds => AtMonitor(MonitorUnlock)
    case MonitorAp => AtMonitor(MonitorUnlock)
    case RunWarm => InSta(StaKillWpa, RunSta(false))
    case RunRestore(st) => AtRun(RunUnlock(st))
    case EnsureUp => AtEnsure(EnsureUnlock(if ok then WifiOk else WifiConnectFail))
  }

  function ApControl(k: ApStep, ret: ApReturn, r: Radio, c: Choice): Control {
    var o := ApCommand(k, r, c);
    Control(if o.next.Go? then InAp(o.next.step, ret) else AfterAp(ret, o.next.value),
            o.radio, Keep, o.command,
            if o.next.Return? && ret.RunRestore? then Restored(o.next.value) else Nothing)
  }

  // ---------- wifi_switch_thread and wifi_reconnect_monitor ----------

  function BootControl(b: BootPc, r: Radio, c: Choice): Control {
    match b
    case BootCreds => To(AtBoot(BootWait(c.ok)), r)
    case BootWait(have) => To(if c.ok then AtBoot(BootLock(have)) else Finished, r)
    case BootLock(have) => Enter(AtBoot(BootBand(have)), r)
    case BootBand(have) =>
      // c.ok: the configured band is 5G
      To(if !have then InAp(ApKillWpa, BootAp)
         else if c.ok then InAp(ApKillWpa, BootWarm)
         else AtBoot(BootPhaseA), r)
    case BootPhaseA => To(InSta(StaKillWpa, BootSta), r)
    case BootKillWpa => Daemon(InAp(ApKillWpa, BootAp), r.(wpa := false))
    case BootUnlock => Leave(AtMonitor(PollAp), r, Nothing)
  }

  function MonitorControl(m: MonitorPc, missCount: nat, r: Radio, free: bool, c: Choice): Control {
    match m
    case PollAp =>
      if r.hostapd then Control(AtMonitor(PollAp), r, Keep, false, Polled(SawAp))
      else To(AtMonitor(PollConnected), r)
    case PollConnected =>
      if r.ipv4 && c.ok then Control(AtMonitor(PollAp), r, Keep, false, Polled(SawConnection))
      else
        var next := if missCount + 1 < 2 then PollAp else MonitorTryLock;
        Control(AtMonitor(next), r, Keep, false, Polled(SawNeither))
    case MonitorTryLock =>
      if free then Enter(AtMonitor(MonitorCreds), r)
      else Control(AtMonitor(PollAp), r, Keep, false, ForgetMisses)
    case MonitorCreds => To(AtMonitor(if c.ok then MonitorKillWpa else MonitorCheckAp), r)
    case MonitorCheckAp => To(if r.hostapd then AtMonitor(MonitorUnlock) else InAp(ApKillWpa, MonitorNoCreds), r)
    case MonitorKillWpa => Daemon(AtMonitor(MonitorKillHostapd), r.(wpa := false))
    case MonitorKillHostapd => Daemon(InSta(StaKillWpa, MonitorSta), r.(hostapd := false, ipv4 := false))
    case MonitorUnlock => Leave(AtMonitor(PollAp), r, ForgetMisses)
  }

  // ---------- wifi_switch_run_now, wifi_switch_ensure_ap_mode, wifi_switch_scan ----------

  function RunControl(p: RunPc, hasSsid: bool, r: Radio, free: bool, c: Choice): Control {
    match p
    case RunTryLock => if free then Enter(AtRun(RunCreds), r) else Refuse(r, WifiBusy)
    case RunCreds => To(AtRun(if hasSsid || c.ok then RunReady else RunUnlock(WifiUnknown)), r)
    case RunReady => To(AtRun(if c.ok then RunCheckAp else RunUnlock(WifiConnectFail)), r)
    case RunCheckAp => To(if r.hostapd then InSta(StaKillWpa, RunSta(true)) else InAp(ApKillWpa, RunWarm), r)
    case RunUnlock(st) => Leave(Finished, r, Answer(st))
  }

  function EnsureControl(e: EnsurePc, r: Radio, free: bool, c: Choice): Control {
    match e
    case EnsureTryLock => if free then Enter(AtEnsure(EnsureCheckAp), r) else Refuse(r, WifiBusy)
    case EnsureCheckAp => To(AtEnsure(if r.hostapd then EnsureUnlock(WifiOk) else EnsureReady), r)
    case EnsureReady => To(if c.ok then InAp(ApKillWpa, EnsureUp) else AtEnsure(EnsureUnlock(WifiConnectFail)), r)
    case EnsureUnlock(st) => Leave(Finished, r, Answer(st))
  }

  /** The scan reports one failure for a held mutex and for a failed scan. */
  function ScanControl(s: ScanPc, r: Radio, free: bool, c: Choice): Control {
    match s
    case ScanTryLock => if free then Enter(AtScan(ScanRun), r) else Refuse(r, WifiUnknown)
    case ScanRun => To(AtScan(ScanUnlock(c.ok)), r)
    case ScanUnlock(ok) => Leave(Finished, r, Answer(if ok then WifiOk else WifiUnknown))
  }

  /** A blocking lock waits; everything else can always go on until it is finished. */
  predicate CanMove(t: Thread, free: bool) {
    !t.pc.Finished? && (t.pc.AtBoot? && t.pc.boot.BootLock? ==> free)
  }

  function Move(t: Thread, r: Radio, free: bool, c: Choice): Control
    requires CanMove(t, free)
  {
    match t.pc
    case AtBoot(b) => BootControl(b, r, c)
    case AtMonitor(m) => MonitorControl(m, t.missCount, r, free, c)
    case AtRun(p) => RunControl(p, t.kind.RunNow? && t.kind.hasSsid, r, free, c)
    case AtEnsure(e) => EnsureControl(e, r, free, c)
    case AtScan(s) => ScanControl(s, r, free, c)
    case InSta(k, ret) => StaControl(k, ret, r, c)
    case InAp(k, ret) => ApControl(k, ret, r, c)
  }

  function NextPolls(polls: seq<Poll>, note: Note): seq<Poll> {
    if note.Polled? then polls + [note.poll] else polls
  }

  function NextMissCount(missCount: nat, note: Note): nat {
    if note == Polled(SawNeither) then missCount + 1
    else if note.Polled? || note.ForgetMisses? then 0
    else missCount
  }

  /** The thread after a step, histories included. */
  function Record(t: Thread, k: Control): Thread {
    t.(pc := k.pc,
       commands := t.commands + (if k.command then 1 else 0),
       locks := t.locks + (if k.lockOp.Acquire? then 1 else 0),
       unlocks := t.unlocks + (if k.lockOp.Unlock? then 1 else 0),
       polls := NextPolls(t.polls, k.note),
       missCount := NextMissCount(t.missCount, k.note),
       result := if k.note.Answer? then Some(k.note.status) else t.result,
       restoreFailed := if k.note.Restored? then !k.note.ok else t.restoreFailed)
  }

  // ---------- the whole system ----------

  /** `losses` is a history; `strayCommands` and `strayUnlocks` count daemon commands and unlocks by a thread
      that does not hold the mutex. */
  datatype State = State(radio: Radio, holder: Option<nat>, threads: seq<Thread>,
                         losses: Losses, strayCommands: nat, strayUnlocks: nat)

  datatype Step =
    | ThreadStep(i: nat, choice: Choice)
    | NewThread(kind: Kind)
    | HostapdDies
    | WpaDies
    | AddressLost

  function Initial(radio: Radio): State {
    State(radio, None, [Start(Boot)], NO_LOSSES, 0, 0)
  }

  predicate Enabled(s: State, step: Step) {
    match step
    case ThreadStep(i, _) => i < |s.threads| && CanMove(s.threads[i], s.holder.None?)
    case NewThread(kind) => !kind.Boot?
    case HostapdDies => s.radio.hostapd
    case WpaDies => s.radio.wpa
    case AddressLost => s.radio.ipv4
  }

  function Apply(s: State, step: Step): State
    requires Enabled(s, step)
  {
    match step
    case ThreadStep(i, c) =>
      var e := Move(s.threads[i], s.radio, s.holder.None?, c);
      var u := Record(s.threads[i], e);
      var t := if e.lockOp.Acquire? then u.(apAtLock := s.radio.hostapd, lossesAtLock := s.losses) else u;
      State(e.radio,
            match e.lockOp { case Keep => s.holder case Acquire => Some(i) case Unlock => None },
            s.threads[i := t], s.losses,
            s.strayCommands + (if e.command && s.holder != Some(i) then 1 else 0),
            s.strayUnlocks + (if e.lockOp.Unlock? && s.holder != Some(i) then 1 else 0))
    case NewThread(kind) => s.(threads := s.threads + [Start(kind)])
    case HostapdDies =>
      s.(radio := s.radio.(hostapd := false), losses := s.losses.(hostapd := s.losses.hostapd + 1))
    case WpaDies =>
      s.(radio := s.radio.(wpa := false), losses := s.losses.(wpa := s.losses.wpa + 1))
    case AddressLost =>
      s.(radio := s.radio.(ipv4 := false), losses := s.losses.(address := s.losses.address + 1))
  }

  /** The state after `run`; None if some step is not possible. */
  function After(radio: Radio, run: seq<Step>): Option<State> {
    if run == [] then Some(Initial(radio))
    else
      var step := run[|run| - 1];
      match After(radio, run[..|run| - 1])
      case None => None
      case Some(s) => if Enabled(s, step) then Some(Apply(s, step)) else None
  }
}
