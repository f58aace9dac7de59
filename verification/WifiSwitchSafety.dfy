/** Safety of the STA/AP switch over every interleaving. */
module WifiSwitchSafety {
  import opened Bytes
  import opened Dispatch
  import opened WifiSwitch

  /** Between taking and releasing the switch mutex. */
  predicate InLock(pc: Pc) {
    match pc
    case AtBoot(b) => !b.BootCreds? && !b.BootWait? && !b.BootLock?
    case AtMonitor(m) => !m.PollAp? && !m.PollConnected? && !m.MonitorTryLock?
    case AtRun(p) => !p.RunTryLock?
    case AtEnsure(e) => !e.EnsureTryLock?
    case AtScan(s) => !s.ScanTryLock?
    case InSta(_, _) => true
    case InAp(_, _) => true
    case Finished => false
  }

  /** hostapd has been stopped by this thread and not started again. */
  predicate HostapdStopped(pc: Pc) {
    pc.InSta? && !pc.sta.StaKillWpa? && !pc.sta.StaKillHostapd?
  }

  predicate WpaStopped(pc: Pc) {
    pc.InAp? && !pc.ap.ApKillWpa?
  }

  predicate RadioOk(r: Radio, pc: Pc) {
    && !(r.hostapd && r.wpa)
    && (HostapdStopped(pc) ==> !r.hostapd)
    && (WpaStopped(pc) ==> !r.wpa)
  }

  /** A step outside the lock leaves the radio alone and takes the lock only if it is free; a step inside
      keeps the two daemons apart; the lock is held exactly between taking and releasing it. */
  ghost predicate SafeControl(pc: Pc, r: Radio, free: bool, k: Control) {
    && (!InLock(pc) ==> k.radio == r && !k.command && !k.lockOp.Unlock?)
    && (InLock(pc) ==> !k.lockOp.Acquire?)
    && (k.lockOp.Acquire? ==> free)
    && (InLock(k.pc) <==> (InLock(pc) && !k.lockOp.Unlock?) || k.lockOp.Acquire?)
    && RadioOk(k.radio, k.pc)
  }

  lemma StaSafe(step: StaStep, ret: StaReturn, r: Radio, free: bool, c: Choice)
    requires RadioOk(r, InSta(step, ret))
    ensures SafeControl(InSta(step, ret), r, free, StaControl(step, ret, r, c))
  {
  }

  lemma ApSafe(step: ApStep, ret: ApReturn, r: Radio, free: bool, c: Choice)
    requires RadioOk(r, InAp(step, ret))
    ensures SafeControl(InAp(step, ret), r, free, ApControl(step, ret, r, c))
  {
  }

  lemma BootSafe(b: BootPc, r: Radio, c: Choice)
    requires RadioOk(r, AtBoot(b))
    ensures SafeControl(AtBoot(b), r, true, BootControl(b, r, c))
    ensures !b.BootLock? ==> SafeControl(AtBoot(b), r, false, BootControl(b, r, c))
  {
  }

  lemma MonitorSafe(m: MonitorPc, missCount: nat, r: Radio, free: bool, c: Choice)
    requires RadioOk(r, AtMonitor(m))
    ensures SafeControl(AtMonitor(m), r, free, MonitorControl(m, missCount, r, free, c))
  {
  }

  lemma RunSafe(p: RunPc, hasSsid: bool, r: Radio, free: bool, c: Choice)
    requires RadioOk(r, AtRun(p))
    ensures SafeControl(AtRun(p), r, free, RunControl(p, hasSsid, r, free, c))
  {
  }

  lemma EnsureSafe(e: EnsurePc, r: Radio, free: bool, c: Choice)
    requires RadioOk(r, AtEnsure(e))
    ensures SafeControl(AtEnsure(e), r, free, EnsureControl(e, r, free, c))
  {
  }

  lemma ScanSafe(s: ScanPc, r: Radio, free: bool, c: Choice)
    requires RadioOk(r, AtScan(s))
    ensures SafeControl(AtScan(s), r, free, ScanControl(s, r, free, c))
  {
  }

  lemma MoveSafe(t: Thread, r: Radio, free: bool, c: Choice)
    requires CanMove(t, free) && RadioOk(r, t.pc)
    ensures SafeControl(t.pc, r, free, Move(t, r, free, c))
  {
    match t.pc
    case AtBoot(b) => BootSafe(b, r, c);
    case AtMonitor(m) => MonitorSafe(m, t.missCount, r, free, c);
    case AtRun(p) => RunSafe(p, t.kind.RunNow? && t.kind.hasSsid, r, free, c);
    case AtEnsure(e) => EnsureSafe(e, r, free, c);
    case AtScan(s) => ScanSafe(s, r, free, c);
    case InSta(step, ret) => StaSafe(step, ret, r, free, c);
    case InAp(step, ret) => ApSafe(step, ret, r, free, c);
  }

  // ---------- bookkeeping of one thread ----------

  /** Program points of each entry point; none but a failed trylock yields BUSY. */
  predicate Belongs(kind: Kind, pc: Pc) {
    match pc
    case AtBoot(_) => kind.Boot?
    case AtMonitor(_) => kind.Boot?
    case AtRun(p) => kind.RunNow? && (p.RunUnlock? ==> p.status != WifiBusy)
    case AtEnsure(e) => kind.EnsureAp? && (e.EnsureUnlock? ==> e.status != WifiBusy)
    case AtScan(_) => kind.Scan?
    case InSta(_, ret) => if ret.RunSta? then kind.RunNow? else kind.Boot?
    case InAp(_, ret) =>
      if ret.EnsureUp? then kind.EnsureAp?
      else if ret.RunWarm? then kind.RunNow?
      else if ret.RunRestore? then kind.RunNow? && ret.status != WifiBusy
      else kind.Boot?
    case Finished => true
  }

  predicate AtTryLock(pc: Pc) {
    match pc
    case AtRun(p) => p.RunTryLock?
    case AtEnsure(e) => e.EnsureTryLock?
    case AtScan(s) => s.ScanTryLock?
    case _ => false
  }

  /** Locks taken and released, and the result, of one thread. */
  predicate BooksOk(t: Thread) {
    && Belongs(t.kind, t.pc)
    && t.locks == t.unlocks + (if InLock(t.pc) then 1 else 0)
    && (t.locks == 0 ==> t.commands == 0)
    && (!t.kind.Boot? ==>
          && (t.result.Some? <==> t.pc.Finished?)
          && (AtTryLock(t.pc) ==> t.locks == 0)
          && (InLock(t.pc) ==> t.locks == 1)
          && (t.pc.Finished? ==> t.locks <= 1)
          && (t.pc.Finished? && !t.kind.Scan? ==> (t.result == Some(WifiBusy) <==> t.locks == 0)))
  }

  lemma StaBelongs(step: StaStep, ret: StaReturn, kind: Kind, r: Radio, c: Choice)
    requires Belongs(kind, InSta(step, ret))
    ensures Belongs(kind, StaControl(step, ret, r, c).pc)
  {
  }

  lemma ApBelongs(step: ApStep, ret: ApReturn, kind: Kind, r: Radio, c: Choice)
    requires Belongs(kind, InAp(step, ret))
    ensures Belongs(kind, ApControl(step, ret, r, c).pc)
  {
  }

  lemma MonitorBelongs(m: MonitorPc, missCount: nat, r: Radio, free: bool, c: Choice)
    ensures Belongs(Boot, MonitorControl(m, missCount, r, free, c).pc)
  {
  }

  lemma BootBelongs(b: BootPc, r: Radio, c: Choice)
    ensures Belongs(Boot, BootControl(b, r, c).pc)
  {
  }

  lemma RunBelongs(p: RunPc, kind: Kind, hasSsid: bool, r: Radio, free: bool, c: Choice)
    requires Belongs(kind, AtRun(p))
    ensures Belongs(kind, RunControl(p, hasSsid, r, free, c).pc)
  {
  }

  lemma EnsureBelongs(e: EnsurePc, r: Radio, free: bool, c: Choice)
    requires Belongs(EnsureAp, AtEnsure(e))
    ensures Belongs(EnsureAp, EnsureControl(e, r, free, c).pc)
  {
  }

  lemma MoveBelongs(t: Thread, r: Radio, free: bool, c: Choice)
    requires Belongs(t.kind, t.pc) && CanMove(t, free)
    ensures Belongs(t.kind, Move(t, r, free, c).pc)
  {
    match t.pc
    case AtBoot(b) => BootBelongs(b, r, c);
    case AtMonitor(m) => MonitorBelongs(m, t.missCount, r, free, c);
    case AtRun(p) => RunBelongs(p, t.kind, t.kind.RunNow? && t.kind.hasSsid, r, free, c);
    case AtEnsure(e) => EnsureBelongs(e, r, free, c);
    case AtScan(s) =>
    case InSta(step, ret) => StaBelongs(step, ret, t.kind, r, c);
    case InAp(step, ret) => ApBelongs(step, ret, t.kind, r, c);
  }

  /** An entry point answers when it finishes: at a failed trylock, or when it releases the lock. */
  ghost predicate AnswerOk(kind: Kind, pc: Pc, k: Control) {
    && !AtTryLock(k.pc)
    && (kind.Boot? ==> !k.note.Answer?)
    && (!kind.Boot? ==> (k.note.Answer? <==> k.pc.Finished?))
    && (k.note.Answer? ==>
          if InLock(pc) then k.lockOp.Unlock? && k.note.status != WifiBusy
          else AtTryLock(pc) && k.lockOp.Keep? && (kind.Scan? || k.note.status == WifiBusy))
  }

  lemma StaAnswers(step: StaStep, ret: StaReturn, kind: Kind, r: Radio, c: Choice)
    ensures AnswerOk(kind, InSta(step, ret), StaControl(step, ret, r, c))
  {
  }

  lemma ApAnswers(step: ApStep, ret: ApReturn, kind: Kind, r: Radio, c: Choice)
    ensures AnswerOk(kind, InAp(step, ret), ApControl(step, ret, r, c))
  {
  }

  lemma MoveAnswers(t: Thread, r: Radio, free: bool, c: Choice)
    requires Belongs(t.kind, t.pc) && CanMove(t, free)
    ensures AnswerOk(t.kind, t.pc, Move(t, r, free, c))
  {
    match t.pc
    case AtBoot(b) =>
    case AtMonitor(m) =>
    case AtRun(p) =>
    case AtEnsure(e) =>
    case AtScan(s) =>
    case InSta(step, ret) => StaAnswers(step, ret, t.kind, r, c);
    case InAp(step, ret) => ApAnswers(step, ret, t.kind, r, c);
  }

  lemma MoveBooks(t: Thread, r: Radio, free: bool, c: Choice)
    requires BooksOk(t) && CanMove(t, free) && RadioOk(r, t.pc)
    ensures BooksOk(Record(t, Move(t, r, free, c)))
  {
    MoveSafe(t, r, free, c);
    MoveBelongs(t, r, free, c);
    MoveAnswers(t, r, free, c);
  }

  // ---------- the monitor ----------

  ghost predicate TwoMisses(polls: seq<Poll>) {
    |polls| >= 2 && polls[|polls| - 1] == SawNeither && polls[|polls| - 2] == SawNeither
  }

  /** From the monitor's trylock to its unlock. */
  predicate Recovering(pc: Pc) {
    match pc
    case AtMonitor(m) => !m.PollAp? && !m.PollConnected? && !m.MonitorUnlock?
    case InSta(_, ret) => ret.MonitorSta?
    case InAp(_, ret) => ret.MonitorNoCreds? || ret.MonitorAp?
    case _ => false
  }

  predicate Polling(pc: Pc) {
    pc.AtMonitor? && (pc.monitor.PollAp? || pc.monitor.PollConnected?)
  }

  predicate Booting(pc: Pc) {
    match pc
    case AtBoot(_) => true
    case InSta(_, ret) => ret.BootSta?
    case InAp(_, ret) => ret.BootWarm? || ret.BootAp?
    case _ => false
  }

  ghost predicate MonitorOk(pc: Pc, missCount: nat, polls: seq<Poll>) {
    && (missCount >= 1 ==> |polls| >= 1 && polls[|polls| - 1] == SawNeither)
    && (Polling(pc) ==> missCount < 2)
    && (Booting(pc) ==> missCount == 0)
    && (Recovering(pc) ==> TwoMisses(polls))
  }

  lemma StaKeepsPhase(step: StaStep, ret: StaReturn, r: Radio, c: Choice)
    ensures var pc := StaControl(step, ret, r, c).pc;
            (Recovering(pc) ==> ret.MonitorSta?) && !Polling(pc) && (Booting(pc) ==> ret.BootSta?)
  {
  }

  lemma ApKeepsPhase(step: ApStep, ret: ApReturn, r: Radio, c: Choice)
    ensures var k := ApControl(step, ret, r, c);
            && (Recovering(k.pc) ==> Recovering(InAp(step, ret))) && !Polling(k.pc)
            && (Booting(k.pc) ==> Booting(InAp(step, ret))) && !k.note.Polled? && !k.note.ForgetMisses?
  {
  }

  lemma MonitorPolls(m: MonitorPc, missCount: nat, polls: seq<Poll>, r: Radio, free: bool, c: Choice)
    requires MonitorOk(AtMonitor(m), missCount, polls)
    ensures var k := MonitorControl(m, missCount, r, free, c);
            MonitorOk(k.pc, NextMissCount(missCount, k.note), NextPolls(polls, k.note))
  {
  }

  lemma BootPolls(b: BootPc, missCount: nat, polls: seq<Poll>, r: Radio, c: Choice)
    requires MonitorOk(AtBoot(b), missCount, polls)
    ensures MonitorOk(BootControl(b, r, c).pc, missCount, polls) && BootControl(b, r, c).note.Nothing?
  {
  }

  lemma EntryPolls(pc: Pc, hasSsid: bool, missCount: nat, polls: seq<Poll>, r: Radio, free: bool, c: Choice)
    requires pc.AtRun? || pc.AtEnsure? || pc.AtScan?
    requires MonitorOk(pc, missCount, polls)
    ensures pc.AtRun? ==> KeepsPolls(RunControl(pc.run, hasSsid, r, free, c), missCount, polls)
    ensures pc.AtEnsure? ==> KeepsPolls(EnsureControl(pc.ensure, r, free, c), missCount, polls)
    ensures pc.AtScan? ==> KeepsPolls(ScanControl(pc.scan, r, free, c), missCount, polls)
  {
  }

  ghost predicate KeepsPolls(k: Control, missCount: nat, polls: seq<Poll>) {
    MonitorOk(k.pc, NextMissCount(missCount, k.note), NextPolls(polls, k.note))
  }

  lemma StaPolls(step: StaStep, ret: StaReturn, missCount: nat, polls: seq<Poll>, r: Radio, c: Choice)
    requires MonitorOk(InSta(step, ret), missCount, polls)
    ensures KeepsPolls(StaControl(step, ret, r, c), missCount, polls)
  {
    StaKeepsPhase(step, ret, r, c);
  }

  lemma ApPolls(step: ApStep, ret: ApReturn, missCount: nat, polls: seq<Poll>, r: Radio, c: Choice)
    requires MonitorOk(InAp(step, ret), missCount, polls)
    ensures KeepsPolls(ApControl(step, ret, r, c), missCount, polls)
  {
    ApKeepsPhase(step, ret, r, c);
  }

  lemma MovePolls(t: Thread, r: Radio, free: bool, c: Choice)
    requires MonitorOk(t.pc, t.missCount, t.polls) && CanMove(t, free)
    ensures KeepsPolls(Move(t, r, free, c), t.missCount, t.polls)
  {
    match t.pc
    case AtBoot(b) => BootPolls(b, t.missCount, t.polls, r, c);
    case AtMonitor(m) => MonitorPolls(m, t.missCount, t.polls, r, free, c);
    case InSta(step, ret) => StaPolls(step, ret, t.missCount, t.polls, r, c);
    case InAp(step, ret) => ApPolls(step, ret, t.missCount, t.polls, r, c);
    case AtRun(_) => EntryPolls(t.pc, t.kind.RunNow? && t.kind.hasSsid, t.missCount, t.polls, r, free, c);
    case AtEnsure(_) => EntryPolls(t.pc, false, t.missCount, t.polls, r, free, c);
    case AtScan(_) => EntryPolls(t.pc, false, t.missCount, t.polls, r, free, c);
  }

  // ---------- the outcomes of wifi_switch_run_now and wifi_switch_ensure_ap_mode ----------

  /** Which daemons have not died, and whether no address was lost, since a thread took the lock. */
  datatype Calm = Calm(hostapd: bool, wpa: bool, address: bool)

  const ALL_CALM := Calm(true, true, true)

  function Since(was: Losses, now: Losses): Calm {
    Calm(was.hostapd == now.hostapd, was.wpa == now.wpa, was.address == now.address)
  }

  /** wpa_supplicant was seen alive. */
  predicate SawWpa(step: StaStep) {
    step.StaAssociate? || step.StaDhcp? || step.StaCheckIp?
  }

  /** What the two calls know of the radio under the lock; `ap` is whether hostapd ran when the lock was
      taken, `failed` whether bringing it back went wrong. */
  predicate OutcomeOk(pc: Pc, r: Radio, ap: bool, failed: bool, calm: Calm) {
    match pc
    case AtRun(p) =>
      (match p
       case RunTryLock => true
       case RunUnlock(st) =>
         if st == WifiOk then !r.hostapd && (calm.wpa ==> r.wpa) && (calm.address ==> r.ipv4)
         else ap && !failed && calm.hostapd ==> r.hostapd
       case _ => calm.hostapd ==> r.hostapd == ap)
    case AtEnsure(e) => e.EnsureUnlock? && e.status == WifiOk ==> !r.wpa && (calm.hostapd ==> r.hostapd)
    case InSta(step, ret) =>
      ret.RunSta? ==> (calm.hostapd ==> ret.apWasUp == ap) && (SawWpa(step) && calm.wpa ==> r.wpa)
    case InAp(_, ret) => (ret.RunWarm? && calm.hostapd ==> !ap) && (ret.RunRestore? ==> ret.status != WifiOk)
    case _ => true
  }

  function NextFailed(failed: bool, note: Note): bool {
    if note.Restored? then !note.ok else failed
  }

  ghost predicate KeepsOutcome(k: Control, ap: bool, failed: bool, calm: Calm) {
    OutcomeOk(k.pc, k.radio, ap, NextFailed(failed, k.note), calm)
  }

  lemma StaOutcome(step: StaStep, ret: StaReturn, r: Radio, ap: bool, failed: bool, calm: Calm, c: Choice)
    requires RadioOk(r, InSta(step, ret)) && OutcomeOk(InSta(step, ret), r, ap, failed, calm)
    ensures KeepsOutcome(StaControl(step, ret, r, c), ap, failed, calm)
  {
  }

  lemma ApOutcome(step: ApStep, ret: ApReturn, r: Radio, ap: bool, failed: bool, calm: Calm, c: Choice)
    requires RadioOk(r, InAp(step, ret)) && OutcomeOk(InAp(step, ret), r, ap, failed, calm)
    ensures KeepsOutcome(ApControl(step, ret, r, c), ap, failed, calm)
  {
  }

  lemma MonitorOutcome(m: MonitorPc, missCount: nat, r: Radio, free: bool, c: Choice, ap: bool, failed: bool,
                       calm: Calm)
    ensures KeepsOutcome(MonitorControl(m, missCount, r, free, c), ap, failed, calm)
  {
  }

  lemma BootOutcome(b: BootPc, r: Radio, c: Choice, ap: bool, failed: bool, calm: Calm)
    ensures KeepsOutcome(BootControl(b, r, c), ap, failed, calm)
  {
  }

  lemma RunOutcome(p: RunPc, hasSsid: bool, r: Radio, free: bool, c: Choice, ap: bool, failed: bool, calm: Calm)
    requires InLock(AtRun(p)) && OutcomeOk(AtRun(p), r, ap, failed, calm)
    ensures KeepsOutcome(RunControl(p, hasSsid, r, free, c), ap, failed, calm)
  {
  }

  lemma EnsureOutcome(e: EnsurePc, r: Radio, free: bool, c: Choice, ap: bool, failed: bool, calm: Calm)
    requires RadioOk(r, AtEnsure(e)) && OutcomeOk(AtEnsure(e), r, ap, failed, calm)
    ensures KeepsOutcome(EnsureControl(e, r, free, c), ap, failed, calm)
  {
  }

  /** A step under the lock. */
  lemma MoveOutcome(t: Thread, r: Radio, free: bool, c: Choice, ap: bool, failed: bool, calm: Calm)
    requires CanMove(t, free) && InLock(t.pc) && RadioOk(r, t.pc) && OutcomeOk(t.pc, r, ap, failed, calm)
    ensures KeepsOutcome(Move(t, r, free, c), ap, failed, calm)
  {
    match t.pc
    case AtBoot(b) => BootOutcome(b, r, c, ap, failed, calm);
    case AtMonitor(m) => MonitorOutcome(m, t.missCount, r, free, c, ap, failed, calm);
    case AtRun(p) => RunOutcome(p, t.kind.RunNow? && t.kind.hasSsid, r, free, c, ap, failed, calm);
    case AtEnsure(e) => EnsureOutcome(e, r, free, c, ap, failed, calm);
    case AtScan(s) =>
    case InSta(step, ret) => StaOutcome(step, ret, r, ap, failed, calm, c);
    case InAp(step, ret) => ApOutcome(step, ret, r, ap, failed, calm, c);
  }

  /** The step that takes the lock: nothing was lost yet and `ap` is what is seen now. */
  lemma EnterOutcome(t: Thread, r: Radio, free: bool, c: Choice, failed: bool)
    requires CanMove(t, free) && !InLock(t.pc)
    ensures KeepsOutcome(Move(t, r, free, c), r.hostapd, failed, ALL_CALM)
  {
    match t.pc
    case AtBoot(b) => BootOutcome(b, r, c, r.hostapd, failed, ALL_CALM);
    case AtMonitor(m) => MonitorOutcome(m, t.missCount, r, free, c, r.hostapd, failed, ALL_CALM);
    case _ =>
  }
}
