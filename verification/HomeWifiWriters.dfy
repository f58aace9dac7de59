/** Several threads storing credentials at once: wifi_switch_persist_home_wifi is called by detached CONNECT
    workers, under no lock of its own, and all of them use the same temporary file. */
module HomeWifiWriters {
  import opened Bytes
  import opened Text
  import opened HomeWifi

  /** Files by number, and which of them the two names stand for.  A writer keeps its file when the name
      moves. */
  datatype Files = Files(blocks: seq<string>, conf: Option<nat>, tmp: Option<nat>)

  datatype Saver = Saver(ssid: string, pwd: string, pc: Pc, fd: nat)

  /** `stored` is the pair of the last call that returned success. */
  datatype World = World(files: Files, writers: seq<Saver>, stored: Option<(string, string)>)

  /** A call begins, a system call of writer `i` ends, or the service dies and starts again. */
  datatype Step = Begin(ssid: string, pwd: string) | Do(i: nat, outcome: Outcome) | Crash

  ghost predicate FilesOk(f: Files) {
    && (f.conf.Some? ==> f.conf.value < |f.blocks|)
    && (f.tmp.Some? ==> f.tmp.value < |f.blocks|)
    && (f.conf.Some? ==> f.conf != f.tmp)
  }

  function Conf(f: Files): Option<string> {
    if f.conf.Some? && f.conf.value < |f.blocks| then Some(f.blocks[f.conf.value]) else None
  }

  function Data(ssid: string, pwd: string): string {
    var text := Render(ssid, Some(pwd));
    if text.Some? then text.value else ""
  }

  /** Bytes written at a position; a gap is filled with NULs. */
  function PutAt(content: string, at: nat, bytes: string): string {
    var padded := if |content| < at then content + seq(at - |content|, _ => '\0') else content;
    padded[..at] + bytes + (if |padded| > at + |bytes| then padded[at + |bytes|..] else "")
  }

  /** Has opened the temporary file and may still rename it. */
  predicate Committed(w: Saver) {
    w.pc.Writing? || w.pc == CloseTmp(true) || w.pc.RenameTmp?
  }

  predicate CanWrite(f: Files, w: Saver) {
    w.pc.Writing? ==> w.fd < |f.blocks| && w.pc.done <= |Data(w.ssid, w.pwd)|
  }

  /** fopen(tmp, "w"): empties the file the name stands for, or makes a new one. */
  function Open(f: Files): (Files, nat) {
    if f.tmp.Some? && f.tmp.value < |f.blocks| then (f.(blocks := f.blocks[f.tmp.value := ""]), f.tmp.value)
    else (Files(f.blocks + [""], f.conf, Some(|f.blocks|)), |f.blocks|)
  }

  /** One system call of a writer, as in HomeWifi.DiskStep but on shared files. */
  function Call(f: Files, w: Saver, o: Outcome): (Files, Saver)
    requires CanWrite(f, w)
  {
    match w.pc
    case OpenTmp =>
      if !o.ok then (f, w.(pc := UnlinkTmp)) else (Open(f).0, w.(pc := Writing(0), fd := Open(f).1))
    case Writing(done) =>
      var data := Data(w.ssid, w.pwd);
      var now := Min(done + o.n, |data|);
      (f.(blocks := f.blocks[w.fd := PutAt(f.blocks[w.fd], done, data[done..now])]),
       w.(pc := if !o.ok then CloseTmp(false) else if now == |data| then CloseTmp(true) else Writing(now)))
    case CloseTmp(whole) => (f, w.(pc := if whole && o.ok then RenameTmp else UnlinkTmp))
    case RenameTmp =>
      if o.ok && f.tmp.Some? then (Files(f.blocks, f.tmp, None), w.(pc := Gone(true)))
      else (f, w.(pc := UnlinkTmp))
    case UnlinkTmp => (if o.ok then f.(tmp := None) else f, w.(pc := Gone(false)))
    case Gone(_) => (f, w)
  }

  predicate Enabled(w: World, step: Step) {
    match step
    case Begin(ssid, pwd) => Render(ssid, Some(pwd)).Some?
    case Do(i, _) => i < |w.writers| && !w.writers[i].pc.Gone? && CanWrite(w.files, w.writers[i])
    case Crash => true
  }

  function Apply(w: World, step: Step): World
    requires Enabled(w, step)
  {
    match step
    case Begin(ssid, pwd) => w.(writers := w.writers + [Saver(ssid, pwd, OpenTmp, 0)])
    case Do(i, o) =>
      var (f, x) := Call(w.files, w.writers[i], o);
      World(f, w.writers[i := x], if x.pc == Gone(true) then Some((x.ssid, x.pwd)) else w.stored)
    case Crash => w.(writers := [])
  }

  /** The world after the steps; None if one of them is not possible. */
  function RunFrom(w: World, steps: seq<Step>): Option<World> {
    if steps == [] then Some(w)
    else
      match RunFrom(w, steps[..|steps| - 1])
      case None => None
      case Some(x) => if Enabled(x, steps[|steps| - 1]) then Some(Apply(x, steps[|steps| - 1])) else None
  }

  predicate SamePair(a: Saver, b: Saver) {
    a.ssid == b.ssid && a.pwd == b.pwd
  }

  /** What `x` may be doing while `j` opens the file: nothing that could still rename it, or it has opened the
      same file for the same pair and not written yet. */
  predicate Tolerates(f: Files, x: Saver, j: Saver) {
    Committed(x) ==> x.pc == Writing(0) && f.tmp.Some? && SamePair(x, j)
  }

  predicate Opens(w: World, step: Step) {
    step.Do? && step.outcome.ok && step.i < |w.writers| && w.writers[step.i].pc.OpenTmp?
  }

  /** The temporary file is opened only while every other writer tolerates it. */
  predicate Harmless(w: World, step: Step) {
    Opens(w, step) ==> forall i :: 0 <= i < |w.writers| ==> Tolerates(w.files, w.writers[i], w.writers[step.i])
  }

  /** All steps from the `from`-th on keep to that. */
  ghost predicate AllHarmless(w: World, steps: seq<Step>, from: nat) {
    forall n :: from <= n < |steps| && RunFrom(w, steps[..n]).Some? ==>
      Harmless(RunFrom(w, steps[..n]).value, steps[n])
  }

  /** The temporary file is opened only while no writer may still rename it. */
  predicate Alone(w: World, step: Step) {
    Opens(w, step) ==> forall i :: 0 <= i < |w.writers| ==> !Committed(w.writers[i])
  }

  ghost predicate OneAtATime(w: World, steps: seq<Step>) {
    forall n :: 0 <= n < |steps| && RunFrom(w, steps[..n]).Some? ==> Alone(RunFrom(w, steps[..n]).value, steps[n])
  }

  ghost predicate AllBeginStorable(steps: seq<Step>, ssidSize: nat, pwdSize: nat) {
    forall n :: 0 <= n < |steps| && steps[n].Begin? ==>
      Storable(Attempt(steps[n].ssid, steps[n].pwd, []), ssidSize, pwdSize)
  }

  /** A reader sees the pair of the last call that returned success, or what was there at the start. */
  ghost predicate SeesStored(w: World, was: Option<string>, ssidSize: nat, pwdSize: nat)
    requires ssidSize > 0 && pwdSize > 0
  {
    Read(Conf(w.files), ssidSize, pwdSize) == if w.stored.Some? then w.stored else Read(was, ssidSize, pwdSize)
  }

  // ---------- what harmless opens keep ----------

  /** The file that all committed writers share, the pair they are storing, and how much of its text is there. */
  datatype Share = Share(fd: nat, ssid: string, pwd: string, m: nat)

  ghost predicate ShareOk(f: Files, g: Share) {
    && g.fd < |f.blocks| && g.m <= |Data(g.ssid, g.pwd)|
    && f.blocks[g.fd] == Data(g.ssid, g.pwd)[..g.m]
    && (f.tmp == Some(g.fd) || f.tmp.None?)
    && (f.conf == Some(g.fd) ==> g.m == |Data(g.ssid, g.pwd)|)
  }

  /** A committed writer is one of those, and no further than the file: its text is whole once the writer is
      past writing, or once the file has been renamed. */
  ghost predicate MemberOk(f: Files, w: Saver, g: Share) {
    Committed(w) ==>
      && ShareOk(f, g) && w.fd == g.fd && w.ssid == g.ssid && w.pwd == g.pwd
      && if w.pc.Writing? then w.pc.done <= g.m else g.m == |Data(g.ssid, g.pwd)|
  }

  ghost predicate PairOk(ssid: string, pwd: string, ssidSize: nat, pwdSize: nat) {
    Storable(Attempt(ssid, pwd, []), ssidSize, pwdSize)
  }

  ghost predicate Pairs(w: World, ssidSize: nat, pwdSize: nat) {
    && (forall i :: 0 <= i < |w.writers| ==> PairOk(w.writers[i].ssid, w.writers[i].pwd, ssidSize, pwdSize))
    && (w.stored.Some? ==> PairOk(w.stored.value.0, w.stored.value.1, ssidSize, pwdSize))
  }

  ghost predicate WorldOk(w: World, was: Option<string>, g: Share) {
    && FilesOk(w.files)
    && (forall i :: 0 <= i < |w.writers| ==> MemberOk(w.files, w.writers[i], g))
    && Conf(w.files) == if w.stored.Some? then Some(Data(w.stored.value.0, w.stored.value.1)) else was
  }

  function Max(a: nat, b: nat): nat {
    if a <= b then b else a
  }

  /** Writing what is there already, or going on from it. */
  lemma PutWithin(data: string, m: nat, done: nat, now: nat)
    requires done <= m <= |data| && done <= now <= |data|
    ensures PutAt(data[..m], done, data[done..now]) == data[..Max(m, now)]
  {
    assert data[..m][..done] + data[done..now] == data[..now];
    if m > now {
      assert data[..m][now..] == data[now..m];
      assert data[..now] + data[now..m] == data[..m];
    }
  }

  /** The share after a call. */
  function NextShare(f: Files, w: Saver, o: Outcome, g: Share): Share {
    if w.pc.OpenTmp? && o.ok then Share(Open(f).1, w.ssid, w.pwd, 0)
    else if w.pc.Writing? then g.(m := Max(g.m, Min(w.pc.done + o.n, |Data(w.ssid, w.pwd)|)))
    else g
  }

  ghost predicate CallKeeps(f: Files, w: Saver, o: Outcome, g: Share, other: Saver)
    requires CanWrite(f, w)
  {
    MemberOk(Call(f, w, o).0, other, NextShare(f, w, o, g))
  }

  /** The shared file after a write. */
  lemma WriteShares(f: Files, w: Saver, o: Outcome, g: Share)
    requires FilesOk(f) && ShareOk(f, g) && w.pc.Writing? && w.pc.done <= g.m
    requires w.fd == g.fd && w.ssid == g.ssid && w.pwd == g.pwd
    ensures CanWrite(f, w)
    ensures var f' := Call(f, w, o).0;
            ShareOk(f', NextShare(f, w, o, g)) && FilesOk(f') && Conf(f') == Conf(f)
  {
    var data := Data(w.ssid, w.pwd);
    var now := Min(w.pc.done + o.n, |data|);
    PutWithin(data, g.m, w.pc.done, now);
    assert Call(f, w, o).0 == f.(blocks := f.blocks[g.fd := data[..Max(g.m, now)]]);
  }

  lemma WriteOk(f: Files, w: Saver, o: Outcome, g: Share)
    requires FilesOk(f) && MemberOk(f, w, g) && w.pc.Writing?
    ensures CanWrite(f, w)
    ensures var (f', w') := Call(f, w, o);
            && ShareOk(f', NextShare(f, w, o, g)) && FilesOk(f') && Conf(f') == Conf(f)
            && MemberOk(f', w', NextShare(f, w, o, g)) && !w'.pc.Gone?
  {
    WriteShares(f, w, o, g);
  }

  lemma WriteKeeps(f: Files, w: Saver, o: Outcome, g: Share, other: Saver)
    requires FilesOk(f) && MemberOk(f, w, g) && MemberOk(f, other, g) && w.pc.Writing?
    ensures CanWrite(f, w) && CallKeeps(f, w, o, g, other)
  {
    WriteOk(f, w, o, g);
  }

  lemma OpenOk(f: Files, w: Saver, o: Outcome, g: Share)
    requires FilesOk(f) && w.pc.OpenTmp?
    ensures var (f', w') := Call(f, w, o);
            && FilesOk(f') && Conf(f') == Conf(f) && !w'.pc.Gone? && MemberOk(f', w', NextShare(f, w, o, g))
  {
    assert Data(w.ssid, w.pwd)[..0] == "";
  }

  lemma OpenKeeps(f: Files, w: Saver, o: Outcome, g: Share, other: Saver)
    requires FilesOk(f) && MemberOk(f, other, g) && w.pc.OpenTmp? && (o.ok ==> Tolerates(f, other, w))
    ensures CallKeeps(f, w, o, g, other)
  {
    assert Data(w.ssid, w.pwd)[..0] == "";
  }

  /** Closing, renaming and unlinking. */
  lemma EndOk(f: Files, w: Saver, o: Outcome, g: Share)
    requires FilesOk(f) && MemberOk(f, w, g) && !w.pc.OpenTmp? && !w.pc.Writing? && !w.pc.Gone?
    ensures var (f', w') := Call(f, w, o);
            && FilesOk(f') && MemberOk(f', w', g)
            && Conf(f') == if w'.pc == Gone(true) then Some(Data(w.ssid, w.pwd)) else Conf(f)
  {
    var data := Data(w.ssid, w.pwd);
    assert data[..|data|] == data;
  }

  lemma EndKeeps(f: Files, w: Saver, o: Outcome, g: Share, other: Saver)
    requires FilesOk(f) && MemberOk(f, w, g) && MemberOk(f, other, g)
    requires !w.pc.OpenTmp? && !w.pc.Writing? && !w.pc.Gone?
    ensures CallKeeps(f, w, o, g, other)
  {
  }

  /** One call keeps the files in order; the file under its own name changes by a rename only, and then it is
      the whole text of that writer. */
  lemma CallOk(f: Files, w: Saver, o: Outcome, g: Share)
    requires FilesOk(f) && MemberOk(f, w, g) && CanWrite(f, w) && !w.pc.Gone?
    ensures var (f', w') := Call(f, w, o);
            && FilesOk(f') && MemberOk(f', w', NextShare(f, w, o, g))
            && Conf(f') == if w'.pc == Gone(true) then Some(Data(w.ssid, w.pwd)) else Conf(f)
  {
    if w.pc.Writing? {
      WriteOk(f, w, o, g);
    } else if w.pc.OpenTmp? {
      OpenOk(f, w, o, g);
    } else {
      EndOk(f, w, o, g);
    }
  }

  lemma OtherOk(f: Files, w: Saver, o: Outcome, g: Share, other: Saver)
    requires FilesOk(f) && MemberOk(f, w, g) && MemberOk(f, other, g) && CanWrite(f, w) && !w.pc.Gone?
    requires w.pc.OpenTmp? && o.ok ==> Tolerates(f, other, w)
    ensures CallKeeps(f, w, o, g, other)
  {
    if w.pc.Writing? {
      WriteKeeps(f, w, o, g, other);
    } else if w.pc.OpenTmp? {
      OpenKeeps(f, w, o, g, other);
    } else {
      EndKeeps(f, w, o, g, other);
    }
  }

  lemma DoOk(w: World, i: nat, o: Outcome, was: Option<string>, g: Share)
    requires WorldOk(w, was, g) && Enabled(w, Do(i, o)) && Harmless(w, Do(i, o))
    ensures WorldOk(Apply(w, Do(i, o)), was, NextShare(w.files, w.writers[i], o, g))
  {
    var x := w.writers[i];
    CallOk(w.files, x, o, g);
    CallNames(w.files, x, o);
    var w' := Apply(w, Do(i, o));
    assert w'.writers == w.writers[i := Call(w.files, x, o).1];
    forall j | 0 <= j < |w.writers| && j != i
      ensures MemberOk(w'.files, w'.writers[j], NextShare(w.files, x, o, g))
    {
      OtherOk(w.files, x, o, g, w.writers[j]);
    }
  }

  lemma StepOk(w: World, step: Step, was: Option<string>, g: Share) returns (g': Share)
    requires WorldOk(w, was, g) && Enabled(w, step) && Harmless(w, step)
    ensures WorldOk(Apply(w, step), was, g')
  {
    g' := g;
    if step.Do? {
      DoOk(w, step.i, step.outcome, was, g);
      g' := NextShare(w.files, w.writers[step.i], step.outcome, g);
    }
  }

  lemma CallNames(f: Files, w: Saver, o: Outcome)
    requires CanWrite(f, w)
    ensures Call(f, w, o).1.ssid == w.ssid && Call(f, w, o).1.pwd == w.pwd
  {
  }

  lemma PairsStep(w: World, step: Step, ssidSize: nat, pwdSize: nat)
    requires Pairs(w, ssidSize, pwdSize) && Enabled(w, step)
    requires step.Begin? ==> PairOk(step.ssid, step.pwd, ssidSize, pwdSize)
    ensures Pairs(Apply(w, step), ssidSize, pwdSize)
  {
    if step.Do? { CallNames(w.files, w.writers[step.i], step.outcome); }
  }

  lemma {:induction false} WorldAlways(w: World, was: Option<string>, g: Share, steps: seq<Step>,
                                       ssidSize: nat, pwdSize: nat)
    returns (g': Share)
    requires WorldOk(w, was, g) && Pairs(w, ssidSize, pwdSize)
    requires AllHarmless(w, steps, 0) && AllBeginStorable(steps, ssidSize, pwdSize) && RunFrom(w, steps).Some?
    ensures WorldOk(RunFrom(w, steps).value, was, g') && Pairs(RunFrom(w, steps).value, ssidSize, pwdSize)
  {
    if steps == [] {
      g' := g;
    } else {
      var front, step := steps[..|steps| - 1], steps[|steps| - 1];
      assert forall n :: 0 <= n < |front| ==> front[..n] == steps[..n] && front[n] == steps[n];
      g' := WorldAlways(w, was, g, front, ssidSize, pwdSize);
      assert steps[..|front|] == front;
      g' := StepOk(RunFrom(w, front).value, step, was, g');
      PairsStep(RunFrom(w, front).value, step, ssidSize, pwdSize);
    }
  }

  lemma StoredIsSeen(w: World, was: Option<string>, g: Share, ssidSize: nat, pwdSize: nat)
    requires ssidSize > 0 && pwdSize > 0 && WorldOk(w, was, g) && Pairs(w, ssidSize, pwdSize)
    ensures SeesStored(w, was, ssidSize, pwdSize)
  {
    if w.stored.Some? {
      PersistRoundTrip(w.stored.value.0, w.stored.value.1, ssidSize, pwdSize);
    }
  }

  function Start(f: Files): World {
    World(f, [], None)
  }

  const NOTHING := Share(0, "", "", 0)

  /** Whatever fails and whenever the service dies: as long as every open of the temporary file is harmless, a
      reader sees the pair of the last call that returned success. */
  lemma HarmlessOpensAreSafe(f: Files, steps: seq<Step>, ssidSize: nat, pwdSize: nat)
    requires ssidSize > 0 && pwdSize > 0 && FilesOk(f)
    requires AllHarmless(Start(f), steps, 0) && AllBeginStorable(steps, ssidSize, pwdSize)
    requires RunFrom(Start(f), steps).Some?
    ensures SeesStored(RunFrom(Start(f), steps).value, Conf(f), ssidSize, pwdSize)
  {
    var g := WorldAlways(Start(f), Conf(f), NOTHING, steps, ssidSize, pwdSize);
    StoredIsSeen(RunFrom(Start(f), steps).value, Conf(f), g, ssidSize, pwdSize);
  }

  /** In particular when no call opens the file while another may still rename it. */
  lemma OneWriterIsSafe(f: Files, steps: seq<Step>, ssidSize: nat, pwdSize: nat)
    requires ssidSize > 0 && pwdSize > 0 && FilesOk(f)
    requires OneAtATime(Start(f), steps) && AllBeginStorable(steps, ssidSize, pwdSize)
    requires RunFrom(Start(f), steps).Some?
    ensures SeesStored(RunFrom(Start(f), steps).value, Conf(f), ssidSize, pwdSize)
  {
    forall n | 0 <= n < |steps| && RunFrom(Start(f), steps[..n]).Some?
      ensures Harmless(RunFrom(Start(f), steps[..n]).value, steps[n])
    {
      assert Alone(RunFrom(Start(f), steps[..n]).value, steps[n]);
    }
    HarmlessOpensAreSafe(f, steps, ssidSize, pwdSize);
  }

  lemma CallStays(f: Files, w: Saver, o: Outcome)
    requires CanWrite(f, w)
    ensures |f.blocks| <= |Call(f, w, o).0.blocks| && CanWrite(Call(f, w, o).0, Call(f, w, o).1)
  {
  }

  /** In every run, overlapping or not, a call that has not returned can take its next step. */
  lemma {:induction false} NeverStuck(f: Files, steps: seq<Step>)
    requires RunFrom(Start(f), steps).Some?
    ensures var w := RunFrom(Start(f), steps).value;
            forall i :: 0 <= i < |w.writers| ==> CanWrite(w.files, w.writers[i])
  {
    if steps == [] {
    } else {
      NeverStuck(f, steps[..|steps| - 1]);
      var w, step := RunFrom(Start(f), steps[..|steps| - 1]).value, steps[|steps| - 1];
      if step.Do? { CallStays(w.files, w.writers[step.i], step.outcome); }
    }
  }

  // ---------- overlapping writers ----------

  /** A call that succeeds; a write puts down everything that is left. */
  const OK := Outcome(true, RENDER_BUFFER)

  lemma RunSnoc(w: World, steps: seq<Step>, step: Step)
    requires RunFrom(w, steps).Some? && Enabled(RunFrom(w, steps).value, step)
    ensures RunFrom(w, steps + [step]) == Some(Apply(RunFrom(w, steps).value, step))
  {
    assert (steps + [step])[..|steps|] == steps;
  }

  lemma DataFits(ssid: string, pwd: string)
    ensures |Data(ssid, pwd)| < RENDER_BUFFER
  {
  }

  /** No step but the first opens the file, and none fails. */
  ghost predicate OpensOnce(w: World, steps: seq<Step>, j: nat) {
    && steps != [] && steps[0] == Do(j, OK) && RunFrom(w, steps).Some?
    && forall n :: 1 <= n < |steps| ==> NoOpen(RunFrom(w, steps[..n]), steps[n])
  }

  predicate NoOpen(w: Option<World>, step: Step) {
    w.Some? && step.Do? && step.outcome == OK && step.i < |w.value.writers| && !w.value.writers[step.i].pc.OpenTmp?
  }

  lemma OpensOnceStart(w: World, j: nat)
    requires Enabled(w, Do(j, OK))
    ensures OpensOnce(w, [Do(j, OK)], j) && RunFrom(w, [Do(j, OK)]) == Some(Apply(w, Do(j, OK)))
  {
    assert RunFrom(w, []) == Some(w);
    RunSnoc(w, [], Do(j, OK));
    assert [] + [Do(j, OK)] == [Do(j, OK)];
  }

  lemma OpensOnceMore(w: World, steps: seq<Step>, j: nat, i: nat)
    requires OpensOnce(w, steps, j)
    requires Enabled(RunFrom(w, steps).value, Do(i, OK)) && !RunFrom(w, steps).value.writers[i].pc.OpenTmp?
    ensures OpensOnce(w, steps + [Do(i, OK)], j)
    ensures RunFrom(w, steps + [Do(i, OK)]) == Some(Apply(RunFrom(w, steps).value, Do(i, OK)))
  {
    var all := steps + [Do(i, OK)];
    RunSnoc(w, steps, Do(i, OK));
    assert all[..|steps|] == steps;
    forall n | 1 <= n < |all|
      ensures NoOpen(RunFrom(w, all[..n]), all[n])
    {
      if n < |steps| { assert all[..n] == steps[..n] && all[n] == steps[n]; }
    }
  }

  /** Writer `i` goes on from closing to renaming and returns success. */
  lemma Finish(w: World, before: seq<Step>, j: nat, i: nat) returns (steps: seq<Step>)
    requires OpensOnce(w, before, j) && i < |RunFrom(w, before).value.writers|
    requires var x := RunFrom(w, before).value;
             x.files.tmp.Some? && Committed(x.writers[i]) && !x.writers[i].pc.Writing?
    ensures OpensOnce(w, steps, j)
    ensures var x, y := RunFrom(w, before).value, RunFrom(w, steps).value;
            && y.files == Files(x.files.blocks, x.files.tmp, None)
            && y.stored == Some((x.writers[i].ssid, x.writers[i].pwd))
  {
    var x := RunFrom(w, before).value;
    steps := before;
    if x.writers[i].pc == CloseTmp(true) {
      OpensOnceMore(w, steps, j, i);
      steps := steps + [Do(i, OK)];
    }
    OpensOnceMore(w, steps, j, i);
    steps := steps + [Do(i, OK)];
  }

  /** Writer `i` writes all that is left. */
  lemma WriteAll(w: World, before: seq<Step>, j: nat, i: nat) returns (steps: seq<Step>)
    requires OpensOnce(w, before, j) && i < |RunFrom(w, before).value.writers|
    requires var x := RunFrom(w, before).value; x.writers[i].pc.Writing? && CanWrite(x.files, x.writers[i])
    ensures OpensOnce(w, steps, j)
    ensures var x, y := RunFrom(w, before).value, RunFrom(w, steps).value;
            var u, data := x.writers[i], Data(x.writers[i].ssid, x.writers[i].pwd);
            && y.files.conf == x.files.conf && y.files.tmp == x.files.tmp
            && y.files.blocks == x.files.blocks[u.fd := PutAt(x.files.blocks[u.fd], u.pc.done, data[u.pc.done..])]
            && y.writers == x.writers[i := u.(pc := CloseTmp(true))] && y.stored == x.stored
  {
    var u := RunFrom(w, before).value.writers[i];
    DataFits(u.ssid, u.pwd);
    OpensOnceMore(w, before, j, i);
    steps := before + [Do(i, OK)];
    var data := Data(u.ssid, u.pwd);
    assert data[u.pc.done..|data|] == data[u.pc.done..];
  }

  lemma EmptyReadsNone(text: string, ssidSize: nat, pwdSize: nat)
    requires ssidSize > 0 && pwdSize > 0 && (text == "" || text[0] == '\0')
    ensures Read(Some(text), ssidSize, pwdSize).None?
  {
    assert UpToNul(text[..Min(|text|, READ_BUFFER - 1)]) == "";
  }

  /** What follows once `j` has opened the file while `i` was at its last two calls: `i` renames the file of
      `j`, which is empty.  The pairs may be the same. */
  lemma HarmAtTheEnd(w: World, i: nat, j: nat, was: Option<string>, ssidSize: nat, pwdSize: nat)
    returns (steps: seq<Step>)
    requires ssidSize > 0 && pwdSize > 0 && FilesOk(w.files) && i < |w.writers| && j < |w.writers| && i != j
    requires Committed(w.writers[i]) && !w.writers[i].pc.Writing? && w.writers[j].pc.OpenTmp?
    ensures OpensOnce(w, steps, j) && !SeesStored(RunFrom(w, steps).value, was, ssidSize, pwdSize)
    ensures RunFrom(w, steps).value.stored == Some((w.writers[i].ssid, w.writers[i].pwd))
    ensures Read(Conf(RunFrom(w, steps).value.files), ssidSize, pwdSize).None?
  {
    OpensOnceStart(w, j);
    steps := Finish(w, [Do(j, OK)], j, i);
    EmptyReadsNone("", ssidSize, pwdSize);
  }

  /** The file of `i` had lost its name: `i` writes on where nobody looks and renames the file of `j`. */
  lemma HarmUnnamed(w: World, i: nat, j: nat, was: Option<string>, g: Share, ssidSize: nat, pwdSize: nat)
    returns (steps: seq<Step>)
    requires ssidSize > 0 && pwdSize > 0 && WorldOk(w, was, g) && i < |w.writers| && j < |w.writers| && i != j
    requires w.writers[i].pc.Writing? && w.writers[j].pc.OpenTmp? && w.files.tmp.None?
    ensures OpensOnce(w, steps, j) && !SeesStored(RunFrom(w, steps).value, was, ssidSize, pwdSize)
  {
    assert MemberOk(w.files, w.writers[i], g);
    OpensOnceStart(w, j);
    steps := WriteAll(w, [Do(j, OK)], j, i);
    steps := Finish(w, steps, j, i);
    EmptyReadsNone("", ssidSize, pwdSize);
  }

  /** `i` had begun to write: what it puts down next follows a gap. */
  lemma HarmHalfway(w: World, i: nat, j: nat, was: Option<string>, g: Share, ssidSize: nat, pwdSize: nat)
    returns (steps: seq<Step>)
    requires ssidSize > 0 && pwdSize > 0 && WorldOk(w, was, g) && i < |w.writers| && j < |w.writers| && i != j
    requires w.writers[i].pc.Writing? && w.writers[i].pc.done > 0 && w.writers[j].pc.OpenTmp? && w.files.tmp.Some?
    ensures OpensOnce(w, steps, j) && !SeesStored(RunFrom(w, steps).value, was, ssidSize, pwdSize)
  {
    assert MemberOk(w.files, w.writers[i], g);
    OpensOnceStart(w, j);
    steps := WriteAll(w, [Do(j, OK)], j, i);
    var left := Data(w.writers[i].ssid, w.writers[i].pwd)[w.writers[i].pc.done..];
    assert PutAt("", w.writers[i].pc.done, left)[0] == '\0';
    steps := Finish(w, steps, j, i);
    EmptyReadsNone(PutAt("", w.writers[i].pc.done, left), ssidSize, pwdSize);
  }

  lemma PutOver(a: string, b: string)
    requires |a| <= |b|
    ensures PutAt("", 0, b) == b && PutAt(a, 0, b) == b
  {
    assert a[..0] == "" && ""[..0] == "";
  }

  /** Both write different texts to the same file from its start: the longer one stays and the call with the
      other returns success. */
  lemma HarmTogether(w: World, i: nat, j: nat, was: Option<string>, g: Share, ssidSize: nat, pwdSize: nat)
    returns (steps: seq<Step>)
    requires ssidSize > 0 && pwdSize > 0 && WorldOk(w, was, g) && Pairs(w, ssidSize, pwdSize)
    requires i < |w.writers| && j < |w.writers| && i != j
    requires w.writers[i].pc == Writing(0) && w.writers[j].pc.OpenTmp? && w.files.tmp.Some?
    requires !SamePair(w.writers[i], w.writers[j])
    ensures OpensOnce(w, steps, j) && !SeesStored(RunFrom(w, steps).value, was, ssidSize, pwdSize)
  {
    assert MemberOk(w.files, w.writers[i], g);
    OpensOnceStart(w, j);
    var x := Apply(w, Do(j, OK));
    if |Data(x.writers[i].ssid, x.writers[i].pwd)| <= |Data(x.writers[j].ssid, x.writers[j].pwd)| {
      steps := Overwritten(w, [Do(j, OK)], j, i, j);
    } else {
      steps := Overwritten(w, [Do(j, OK)], j, j, i);
    }
    PersistRoundTrip(w.writers[i].ssid, w.writers[i].pwd, ssidSize, pwdSize);
    PersistRoundTrip(w.writers[j].ssid, w.writers[j].pwd, ssidSize, pwdSize);
  }

  /** `first` writes, `second` writes over it, `first` renames. */
  lemma Overwritten(w: World, before: seq<Step>, j: nat, first: nat, second: nat) returns (steps: seq<Step>)
    requires OpensOnce(w, before, j)
    requires var x := RunFrom(w, before).value;
             && first < |x.writers| && second < |x.writers| && first != second
             && x.writers[first].pc == Writing(0) && x.writers[second].pc == Writing(0)
             && x.files.tmp == Some(x.writers[first].fd) == Some(x.writers[second].fd)
             && x.writers[first].fd < |x.files.blocks| && x.files.blocks[x.writers[first].fd] == ""
             && |Data(x.writers[first].ssid, x.writers[first].pwd)|
                <= |Data(x.writers[second].ssid, x.writers[second].pwd)|
    ensures OpensOnce(w, steps, j)
    ensures var x, y := RunFrom(w, before).value, RunFrom(w, steps).value;
            && Conf(y.files) == Some(Data(x.writers[second].ssid, x.writers[second].pwd))
            && y.stored == Some((x.writers[first].ssid, x.writers[first].pwd))
  {
    var x := RunFrom(w, before).value;
    var a := Data(x.writers[first].ssid, x.writers[first].pwd);
    var b := Data(x.writers[second].ssid, x.writers[second].pwd);
    assert a[0..] == a && b[0..] == b;
    PutOver("", a);
    PutOver(a, b);
    steps := WriteAll(w, before, j, first);
    steps := WriteAll(w, steps, j, second);
    steps := Finish(w, steps, j, first);
  }

  /** One writer `i` that does not tolerate the open of `j` is enough: from there on, without a further open and
      without a failure, a reader comes to see something other than what was reported as stored. */
  lemma OverlapHarms(w: World, i: nat, j: nat, was: Option<string>, g: Share, ssidSize: nat, pwdSize: nat)
    returns (steps: seq<Step>)
    requires ssidSize > 0 && pwdSize > 0 && WorldOk(w, was, g) && Pairs(w, ssidSize, pwdSize)
    requires i < |w.writers| && j < |w.writers| && w.writers[j].pc.OpenTmp?
    requires !Tolerates(w.files, w.writers[i], w.writers[j])
    ensures OpensOnce(w, steps, j) && !SeesStored(RunFrom(w, steps).value, was, ssidSize, pwdSize)
  {
    if !w.writers[i].pc.Writing? {
      steps := HarmAtTheEnd(w, i, j, was, ssidSize, pwdSize);
    } else if w.files.tmp.None? {
      steps := HarmUnnamed(w, i, j, was, g, ssidSize, pwdSize);
    } else if w.writers[i].pc.done > 0 {
      steps := HarmHalfway(w, i, j, was, g, ssidSize, pwdSize);
    } else {
      steps := HarmTogether(w, i, j, was, g, ssidSize, pwdSize);
    }
  }

  lemma {:induction false} RunAppend(w: World, a: seq<Step>, b: seq<Step>)
    requires RunFrom(w, a).Some? && RunFrom(RunFrom(w, a).value, b).Some?
    ensures RunFrom(w, a + b) == RunFrom(RunFrom(w, a).value, b)
  {
    if b == [] {
      assert a + b == a;
    } else {
      RunAppend(w, a, b[..|b| - 1]);
      assert (a + b)[..|a + b| - 1] == a + b[..|b| - 1];
    }
  }

  /** Two calls begin, and the first opens the file and writes all of its text. */
  lemma FirstIsWritten(f: Files, a: Attempt, b: Attempt) returns (steps: seq<Step>)
    requires FilesOk(f) && Render(a.ssid, Some(a.pwd)).Some? && Render(b.ssid, Some(b.pwd)).Some?
    ensures RunFrom(Start(f), steps).Some?
    ensures var w := RunFrom(Start(f), steps).value;
            && FilesOk(w.files) && |w.writers| == 2
            && w.writers[0].pc == CloseTmp(true) && w.writers[0].ssid == a.ssid && w.writers[0].pwd == a.pwd
            && w.writers[1] == Saver(b.ssid, b.pwd, OpenTmp, 0)
  {
    var first, second, third := Begin(a.ssid, a.pwd), Begin(b.ssid, b.pwd), Do(0, OK);
    var w0 := Start(f);
    RunSnoc(w0, [], first);
    RunSnoc(w0, [] + [first], second);
    var w2 := Apply(Apply(w0, first), second);
    OpenOk(f, w2.writers[0], OK, NOTHING);
    RunSnoc(w0, [] + [first] + [second], third);
    DataFits(a.ssid, a.pwd);
    RunSnoc(w0, [] + [first] + [second] + [third], third);
    steps := [] + [first] + [second] + [third] + [third];
  }

  /** Overlap is within reach from any files with any two pairs, the same one twice included: the first call
      returns success and nothing is read. */
  lemma OverlapLoses(f: Files, a: Attempt, b: Attempt, ssidSize: nat, pwdSize: nat) returns (steps: seq<Step>)
    requires ssidSize > 0 && pwdSize > 0 && FilesOk(f)
    requires Render(a.ssid, Some(a.pwd)).Some? && Render(b.ssid, Some(b.pwd)).Some?
    ensures RunFrom(Start(f), steps).Some?
    ensures RunFrom(Start(f), steps).value.stored == Some((a.ssid, a.pwd))
    ensures Read(Conf(RunFrom(Start(f), steps).value.files), ssidSize, pwdSize).None?
  {
    var before := FirstIsWritten(f, a, b);
    var w := RunFrom(Start(f), before).value;
    var more := HarmAtTheEnd(w, 0, 1, Conf(f), ssidSize, pwdSize);
    RunAppend(Start(f), before, more);
    steps := before + more;
  }

  // ---------- the exact condition ----------

  /** However things go on after `j` has opened the file, with harmless opens only, a reader sees what was
      stored last. */
  ghost predicate OpenIsSafe(w: World, j: nat, was: Option<string>, ssidSize: nat, pwdSize: nat)
    requires ssidSize > 0 && pwdSize > 0
  {
    forall steps :: Proper(w, steps, j, ssidSize, pwdSize) ==>
      SeesStored(RunFrom(w, steps).value, was, ssidSize, pwdSize)
  }

  ghost predicate Proper(w: World, steps: seq<Step>, j: nat, ssidSize: nat, pwdSize: nat) {
    && steps != [] && steps[0] == Do(j, OK) && RunFrom(w, steps).Some?
    && AllHarmless(w, steps, 1) && AllBeginStorable(steps, ssidSize, pwdSize)
  }

  lemma ToleratedIsSafe(w: World, j: nat, was: Option<string>, g: Share, steps: seq<Step>, ssidSize: nat, pwdSize: nat)
    requires ssidSize > 0 && pwdSize > 0 && WorldOk(w, was, g) && Pairs(w, ssidSize, pwdSize)
    requires Proper(w, steps, j, ssidSize, pwdSize) && Harmless(w, Do(j, OK))
    ensures SeesStored(RunFrom(w, steps).value, was, ssidSize, pwdSize)
  {
    assert steps[..0] == [] && RunFrom(w, steps[..0]) == Some(w);
    var g' := WorldAlways(w, was, g, steps, ssidSize, pwdSize);
    StoredIsSeen(RunFrom(w, steps).value, was, g', ssidSize, pwdSize);
  }

  lemma OpensOnceIsProper(w: World, steps: seq<Step>, j: nat, ssidSize: nat, pwdSize: nat)
    requires OpensOnce(w, steps, j)
    ensures Proper(w, steps, j, ssidSize, pwdSize)
  {
    forall n | 0 <= n < |steps|
      ensures !steps[n].Begin?
      ensures n >= 1 && RunFrom(w, steps[..n]).Some? ==> Harmless(RunFrom(w, steps[..n]).value, steps[n])
    {
      if n >= 1 { assert NoOpen(RunFrom(w, steps[..n]), steps[n]); }
    }
  }

  /** Opening the temporary file is safe exactly when every other writer is past renaming it, or has just
      opened the same file for the same pair. */
  lemma OpenIsSafeExactly(w: World, j: nat, was: Option<string>, g: Share, ssidSize: nat, pwdSize: nat)
    requires ssidSize > 0 && pwdSize > 0 && WorldOk(w, was, g) && Pairs(w, ssidSize, pwdSize)
    requires j < |w.writers| && w.writers[j].pc.OpenTmp?
    ensures OpenIsSafe(w, j, was, ssidSize, pwdSize) <==>
              forall i :: 0 <= i < |w.writers| ==> Tolerates(w.files, w.writers[i], w.writers[j])
  {
    if forall i :: 0 <= i < |w.writers| ==> Tolerates(w.files, w.writers[i], w.writers[j]) {
      forall steps | Proper(w, steps, j, ssidSize, pwdSize)
        ensures SeesStored(RunFrom(w, steps).value, was, ssidSize, pwdSize)
      {
        ToleratedIsSafe(w, j, was, g, steps, ssidSize, pwdSize);
      }
    } else {
      var i :| 0 <= i < |w.writers| && !Tolerates(w.files, w.writers[i], w.writers[j]);
      var steps := OverlapHarms(w, i, j, was, g, ssidSize, pwdSize);
      OpensOnceIsProper(w, steps, j, ssidSize, pwdSize);
    }
  }

  /** The same for every world that a run of harmless opens leads to. */
  lemma OpenAfterRun(f: Files, before: seq<Step>, j: nat, ssidSize: nat, pwdSize: nat)
    requires ssidSize > 0 && pwdSize > 0 && FilesOk(f)
    requires AllHarmless(Start(f), before, 0) && AllBeginStorable(before, ssidSize, pwdSize)
    requires RunFrom(Start(f), before).Some?
    requires var w := RunFrom(Start(f), before).value; j < |w.writers| && w.writers[j].pc.OpenTmp?
    ensures var w := RunFrom(Start(f), before).value;
            OpenIsSafe(w, j, Conf(f), ssidSize, pwdSize) <==>
              forall i :: 0 <= i < |w.writers| ==> Tolerates(w.files, w.writers[i], w.writers[j])
  {
    var g := WorldAlways(Start(f), Conf(f), NOTHING, before, ssidSize, pwdSize);
    OpenIsSafeExactly(RunFrom(Start(f), before).value, j, Conf(f), g, ssidSize, pwdSize);
  }
}
