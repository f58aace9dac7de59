/** Signal delivery of libgdbus/watch.c: a list of callbacks is consumed while the callbacks themselves
    add and remove watches.  `Dispatch` is the list-mutating code; `Walk` is a plain pass over the
    snapshot taken at the start.  The two are proved to do the same. */
module Watch {
  import opened Bytes

  /** A watch: its id and whether it has a signal function. */
  datatype Callback = Callback(id: nat, hasFunc: bool)

  /** struct filter_data, without its match rule. */
  datatype Filter = Filter(callbacks: seq<Callback>, processed: seq<Callback>, lock: bool)

  /** The listeners by match rule, and the last id given out. */
  datatype Table = Table(listeners: map<string, Filter>, lastId: nat)

  /** What a callback may do: add a watch (`granted`: the filter of the rule was there, or the bus accepted the
      rule), or remove one (`unmatched`: the bus accepted dropping the rule). */
  datatype Action =
    | AddWatch(rule: string, hasFunc: bool, granted: bool)
    | RemoveWatch(id: nat, unmatched: bool)

  /** The behaviour of one invocation: its actions, and whether it returns TRUE. */
  datatype Call = Call(actions: seq<Action>, again: bool)

  datatype Event = Called(id: nat) | Added(id: nat, rule: string) | Removed(id: nat)

  // ---------- the code ----------

  function Without(cbs: seq<Callback>, id: nat): seq<Callback> {
    if cbs == [] then []
    else if cbs[0].id == id then cbs[1..]
    else [cbs[0]] + Without(cbs[1..], id)
  }

  predicate Holds(cbs: seq<Callback>, id: nat) {
    exists i :: 0 <= i < |cbs| && cbs[i].id == id
  }

  predicate Owns(f: Filter, id: nat) {
    Holds(f.callbacks, id) || Holds(f.processed, id)
  }

  const FRESH := Filter([], [], false)

  /** filter_data_add_callback, after the filter of the rule was found or made. */
  function Add(t: Table, rule: string, hasFunc: bool): Table {
    var id := t.lastId + 1;
    var f := if rule in t.listeners then t.listeners[rule] else FRESH;
    var cb := Callback(id, hasFunc);
    var g := if f.lock then f.(processed := f.processed + [cb]) else f.(callbacks := f.callbacks + [cb]);
    Table(t.listeners[rule := g], id)
  }

  /** filter_data_remove_callback. */
  function RemoveCallback(t: Table, rule: string, id: nat, unmatched: bool): Table
    requires rule in t.listeners
  {
    var f := t.listeners[rule];
    var g := f.(callbacks := Without(f.callbacks, id), processed := Without(f.processed, id));
    if g.callbacks != [] || g.lock || !unmatched then t.(listeners := t.listeners[rule := g])
    else t.(listeners := t.listeners - {rule})
  }

  ghost predicate Registered(t: Table, rule: string, id: nat) {
    rule in t.listeners && Owns(t.listeners[rule], id)
  }

  /** A table with the events so far. */
  datatype Run = Run(table: Table, trace: seq<Event>)

  /** g_dbus_add_signal_watch or g_dbus_remove_watch from inside a callback. */
  ghost function Act(r: Run, a: Action): Run {
    match a
    case AddWatch(rule, hasFunc, granted) =>
      if granted then Run(Add(r.table, rule, hasFunc), r.trace + [Added(r.table.lastId + 1, rule)]) else r
    case RemoveWatch(id, unmatched) =>
      if exists rule :: Registered(r.table, rule, id) then
        var rule :| Registered(r.table, rule, id);
        Run(RemoveCallback(r.table, rule, id, unmatched), r.trace + [Removed(id)])
      else r
  }

  ghost function ActAll(r: Run, actions: seq<Action>): Run
    decreases |actions|
  {
    if actions == [] then r else ActAll(Act(r, actions[0]), actions[1..])
  }

  /** The filter of `rule` is being delivered. */
  ghost predicate Locked(t: Table, rule: string) {
    rule in t.listeners && t.listeners[rule].lock
  }

  lemma {:induction false} WithoutShrinks(cbs: seq<Callback>, id: nat)
    ensures multiset(Without(cbs, id)) <= multiset(cbs)
    ensures Holds(cbs, id) ==> |Without(cbs, id)| < |cbs|
  {
    if cbs == [] {
    } else {
      assert cbs == [cbs[0]] + cbs[1..];
      HoldsCons(cbs, id);
      WithoutShrinks(cbs[1..], id);
    }
  }

  /** Whatever a callback does, the locked filter stays and its list of callbacks only loses members. */
  lemma ActKeepsLock(r: Run, a: Action, rule: string)
    requires Locked(r.table, rule)
    ensures Locked(Act(r, a).table, rule)
    ensures multiset(Act(r, a).table.listeners[rule].callbacks) <= multiset(r.table.listeners[rule].callbacks)
  {
    if a.RemoveWatch? {
      WithoutShrinks(r.table.listeners[rule].callbacks, a.id);
    }
  }

  lemma {:induction false} ActAllKeepsLock(r: Run, actions: seq<Action>, rule: string)
    requires Locked(r.table, rule)
    ensures Locked(ActAll(r, actions).table, rule)
    ensures multiset(ActAll(r, actions).table.listeners[rule].callbacks)
            <= multiset(r.table.listeners[rule].callbacks)
    decreases |actions|
  {
    if actions == [] {
    } else {
      ActKeepsLock(r, actions[0], rule);
      ActAllKeepsLock(Act(r, actions[0]), actions[1..], rule);
    }
  }

  lemma FewerMembers(a: seq<Callback>, b: seq<Callback>)
    requires multiset(b) <= multiset(a) && a != [] && !Holds(b, a[0].id)
    ensures |b| < |a|
  {
    assert a[0] !in b;
    assert a[0] in multiset(a);
    assert multiset(b) <= multiset(a) - multiset{a[0]};
    assert |multiset(b)| + |multiset(a) - multiset{a[0]} - multiset(b)| == |multiset(a)| - 1;
  }

  /** Moves a called watch behind the ones already processed. */
  function Move(t: Table, rule: string, cb: Callback): Table
    requires rule in t.listeners
  {
    var f := t.listeners[rule];
    t.(listeners := t.listeners[rule := f.(callbacks := Without(f.callbacks, cb.id), processed := f.processed + [cb])])
  }

  /** Delivery ended, or a callback removed its own watch and then returned FALSE, so that the code
      goes on to use a freed callback. */
  datatype Outcome<R> = Done(run: R) | Fault(run: R)

  /** One round of the loop of signal_filter: the first callback is called and does `call`. */
  ghost function Round(r: Run, rule: string, call: Call): (out: Outcome<Run>)
    requires Locked(r.table, rule) && r.table.listeners[rule].callbacks != []
    ensures Locked(out.run.table, rule)
    ensures out.Done? ==> |out.run.table.listeners[rule].callbacks| < |r.table.listeners[rule].callbacks|
  {
    var cbs := r.table.listeners[rule].callbacks;
    var cb := cbs[0];
    assert Holds(cbs, cb.id);
    WithoutShrinks(cbs, cb.id);
    if !cb.hasFunc then Done(r.(table := Move(r.table, rule, cb)))
    else
      var r0 := r.(trace := r.trace + [Called(cb.id)]);
      var r1 := ActAll(r0, call.actions);
      ActAllKeepsLock(r0, call.actions, rule);
      var left := r1.table.listeners[rule].callbacks;
      WithoutShrinks(left, cb.id);
      FewerOrEqual(cbs, left);
      if Holds(left, cb.id) then
        if call.again then Done(r1.(table := Move(r1.table, rule, cb)))
        else Done(Run(RemoveCallback(r1.table, rule, cb.id, true), r1.trace + [Removed(cb.id)]))
      else if call.again then
        FewerMembers(cbs, left);
        Done(r1)
      else Fault(r1)
  }

  /** The loop of signal_filter.  `script(n, id)` is the behaviour of the `n`-th invocation when it is
      an invocation of watch `id`. */
  ghost function Deliver(r: Run, rule: string, script: (nat, nat) -> Call, n: nat): (out: Outcome<Run>)
    requires Locked(r.table, rule)
    ensures Locked(out.run.table, rule)
    decreases |r.table.listeners[rule].callbacks|
  {
    var cbs := r.table.listeners[rule].callbacks;
    if cbs == [] then Done(r)
    else
      var out := Round(r, rule, script(n, cbs[0].id));
      if out.Fault? then out
      else Deliver(out.run, rule, script, if cbs[0].hasFunc then n + 1 else n)
  }

  lemma FewerOrEqual(a: seq<Callback>, b: seq<Callback>)
    requires multiset(b) <= multiset(a)
    ensures |b| <= |a|
  {
    assert |multiset(b)| + |multiset(a) - multiset(b)| == |multiset(a)|;
  }

  function SetLock(t: Table, rule: string): Table
    requires rule in t.listeners
  {
    t.(listeners := t.listeners[rule := t.listeners[rule].(lock := true)])
  }

  /** After delivery the processed watches become the callbacks again. */
  function Restore(t: Table, rule: string): Table
    requires rule in t.listeners
  {
    t.(listeners := t.listeners[rule := Filter(t.listeners[rule].processed, [], false)])
  }

  /** The locked section of message_filter for one matching listener. */
  ghost function Dispatch(t: Table, rule: string, script: (nat, nat) -> Call): Outcome<Run>
    requires rule in t.listeners
  {
    var out := Deliver(Run(SetLock(t, rule), []), rule, script, 0);
    if out.Done? then Done(out.run.(table := Restore(out.run.table, rule))) else out
  }

  // ---------- the reading of it ----------

  /** The registered watches with their rules. */
  datatype Live = Live(watches: map<nat, string>, lastId: nat)

  datatype LiveRun = LiveRun(live: Live, trace: seq<Event>)

  function LiveAct(r: LiveRun, a: Action): LiveRun {
    match a
    case AddWatch(rule, _, granted) =>
      var id := r.live.lastId + 1;
      if granted then LiveRun(Live(r.live.watches[id := rule], id), r.trace + [Added(id, rule)]) else r
    case RemoveWatch(id, _) =>
      if id in r.live.watches then Unregister(r, id) else r
  }

  function Unregister(r: LiveRun, id: nat): LiveRun {
    LiveRun(r.live.(watches := r.live.watches - {id}), r.trace + [Removed(id)])
  }

  function LiveActAll(r: LiveRun, actions: seq<Action>): LiveRun
    decreases |actions|
  {
    if actions == [] then r else LiveActAll(LiveAct(r, actions[0]), actions[1..])
  }

  /** One pass over the watches present at the start, skipping those removed before their turn. */
  function Walk(r: LiveRun, snapshot: seq<Callback>, script: (nat, nat) -> Call, n: nat): Outcome<LiveRun>
    decreases |snapshot|
  {
    if snapshot == [] then Done(r)
    else
      var cb, rest := snapshot[0], snapshot[1..];
      if cb.id !in r.live.watches || !cb.hasFunc then Walk(r, rest, script, n)
      else
        var r1 := LiveActAll(r.(trace := r.trace + [Called(cb.id)]), script(n, cb.id).actions);
        if script(n, cb.id).again then Walk(r1, rest, script, n + 1)
        else if cb.id in r1.live.watches then Walk(Unregister(r1, cb.id), rest, script, n + 1)
        else Fault(r1)
  }

  // ---------- the table stands for the live watches ----------

  ghost predicate Distinct(cbs: seq<Callback>) {
    forall i, j :: 0 <= i < j < |cbs| ==> cbs[i].id != cbs[j].id
  }

  ghost predicate FilterOk(f: Filter, locked: bool) {
    && f.lock == locked
    && Distinct(f.callbacks) && Distinct(f.processed)
    && (forall i, j :: 0 <= i < |f.callbacks| && 0 <= j < |f.processed| ==> f.callbacks[i].id != f.processed[j].id)
    && (!locked ==> f.processed == [])
  }

  ghost predicate Stands(t: Table, l: Live, locked: Option<string>) {
    && t.lastId == l.lastId
    && (forall id :: id in l.watches ==> 0 < id <= l.lastId)
    && (forall rule :: rule in t.listeners ==> FilterOk(t.listeners[rule], locked == Some(rule)))
    && (forall rule, id :: Registered(t, rule, id) <==> id in l.watches && l.watches[id] == rule)
  }

  lemma {:induction false} WithoutHolds(cbs: seq<Callback>, id: nat, other: nat)
    requires Distinct(cbs)
    ensures Distinct(Without(cbs, id))
    ensures Holds(Without(cbs, id), other) <==> Holds(cbs, other) && other != id
    ensures !Holds(cbs, id) ==> Without(cbs, id) == cbs
  {
    if cbs == [] {
    } else {
      WithoutHolds(cbs[1..], id, other);
      HoldsCons(cbs, other);
      HoldsCons(cbs, id);
      if cbs[0].id != id {
        var rest := Without(cbs[1..], id);
        HoldsCons([cbs[0]] + rest, other);
        WithoutSubset(cbs[1..], id);
      }
    }
  }

  lemma HoldsCons(cbs: seq<Callback>, id: nat)
    requires cbs != []
    ensures Holds(cbs, id) <==> cbs[0].id == id || Holds(cbs[1..], id)
  {
    if Holds(cbs, id) && cbs[0].id != id {
      var i :| 0 <= i < |cbs| && cbs[i].id == id;
      assert cbs[1..][i - 1].id == id;
    }
    if Holds(cbs[1..], id) {
      var i :| 0 <= i < |cbs[1..]| && cbs[1..][i].id == id;
      assert cbs[i + 1].id == id;
    }
  }

  lemma {:induction false} WithoutSubset(cbs: seq<Callback>, id: nat)
    ensures forall i :: 0 <= i < |Without(cbs, id)| ==> Without(cbs, id)[i] in cbs
  {
    if cbs == [] || cbs[0].id == id {
    } else {
      WithoutSubset(cbs[1..], id);
    }
  }

  // ---------- the code does what the pass does ----------

  /** The members of `cbs` that are still registered. */
  function Keep(cbs: seq<Callback>, l: Live): seq<Callback> {
    if cbs == [] then []
    else if cbs[0].id in l.watches then [cbs[0]] + Keep(cbs[1..], l)
    else Keep(cbs[1..], l)
  }

  ghost predicate Known(cbs: seq<Callback>, l: Live) {
    forall i :: 0 <= i < |cbs| ==> cbs[i].id <= l.lastId
  }

  /** `l'` comes after `l`: an old id that is registered in `l'` was registered in `l`. */
  ghost predicate Later(l: Live, l': Live) {
    && l.lastId <= l'.lastId
    && forall id :: id in l'.watches && id <= l.lastId ==> id in l.watches
  }

  lemma {:induction false} KeepLater(cbs: seq<Callback>, l: Live, l': Live)
    requires Known(cbs, l) && Later(l, l')
    ensures Keep(Keep(cbs, l), l') == Keep(cbs, l')
  {
    if cbs == [] {
    } else {
      KeepLater(cbs[1..], l, l');
      if cbs[0].id in l.watches {
        assert Keep(cbs, l)[1..] == Keep(cbs[1..], l);
      }
    }
  }

  lemma {:induction false} KeepAll(cbs: seq<Callback>, l: Live)
    requires forall i :: 0 <= i < |cbs| ==> cbs[i].id in l.watches
    ensures Keep(cbs, l) == cbs
  {
    if cbs == [] {
    } else {
      KeepAll(cbs[1..], l);
    }
  }

  lemma {:induction false} KeepWithout(cbs: seq<Callback>, l: Live, id: nat)
    requires Distinct(cbs) && forall i :: 0 <= i < |cbs| ==> cbs[i].id in l.watches
    ensures Keep(cbs, l.(watches := l.watches - {id})) == Without(cbs, id)
  {
    if cbs == [] {
    } else {
      if cbs[0].id == id {
        KeepAll(cbs[1..], l.(watches := l.watches - {id}));
      } else {
        KeepWithout(cbs[1..], l, id);
      }
    }
  }

  lemma IdsKnown(t: Table, l: Live, locked: Option<string>, rule: string)
    requires Stands(t, l, locked) && rule in t.listeners
    ensures forall i :: 0 <= i < |t.listeners[rule].callbacks| ==>
              var id := t.listeners[rule].callbacks[i].id; id in l.watches && l.watches[id] == rule && id <= l.lastId
    ensures forall i :: 0 <= i < |t.listeners[rule].processed| ==>
              var id := t.listeners[rule].processed[i].id; id in l.watches && l.watches[id] == rule && id <= l.lastId
  {
    var f := t.listeners[rule];
    forall i | 0 <= i < |f.callbacks|
      ensures f.callbacks[i].id in l.watches && l.watches[f.callbacks[i].id] == rule
    {
      assert Holds(f.callbacks, f.callbacks[i].id);
      assert Registered(t, rule, f.callbacks[i].id);
    }
    forall i | 0 <= i < |f.processed|
      ensures f.processed[i].id in l.watches && l.watches[f.processed[i].id] == rule
    {
      assert Holds(f.processed, f.processed[i].id);
      assert Registered(t, rule, f.processed[i].id);
    }
  }

  lemma AddStands(t: Table, l: Live, rule: string, hasFunc: bool, locked: Option<string>)
    requires Stands(t, l, locked)
    requires locked.Some? ==> locked.value in t.listeners
    ensures Stands(Add(t, rule, hasFunc), Live(l.watches[l.lastId + 1 := rule], l.lastId + 1), locked)
  {
    var t', id := Add(t, rule, hasFunc), t.lastId + 1;
    var cb := Callback(id, hasFunc);
    var f := if rule in t.listeners then t.listeners[rule] else FRESH;
    if rule in t.listeners {
      IdsKnown(t, l, locked, rule);
    }
    assert FilterOk(t'.listeners[rule], locked == Some(rule));
    forall r2: string, other: nat
      ensures Registered(t', r2, other) <==> Registered(t, r2, other) || (r2 == rule && other == id)
    {
      HoldsSnoc(f.callbacks, cb, other);
      HoldsSnoc(f.processed, cb, other);
    }
    assert !exists r2: string :: Registered(t, r2, id);
  }

  lemma HoldsSnoc(cbs: seq<Callback>, cb: Callback, id: nat)
    ensures Holds(cbs + [cb], id) <==> Holds(cbs, id) || cb.id == id
  {
    var s := cbs + [cb];
    assert s[|cbs|] == cb;
    if Holds(cbs, id) {
      var i :| 0 <= i < |cbs| && cbs[i].id == id;
      assert s[i].id == id;
    }
  }

  lemma RemoveStands(t: Table, l: Live, rule: string, id: nat, unmatched: bool, locked: Option<string>)
    requires Stands(t, l, locked) && Registered(t, rule, id)
    ensures Stands(RemoveCallback(t, rule, id, unmatched), l.(watches := l.watches - {id}), locked)
  {
    var t' := RemoveCallback(t, rule, id, unmatched);
    var f := t.listeners[rule];
    WithoutSubset(f.callbacks, id);
    WithoutSubset(f.processed, id);
    forall other: nat
      ensures Holds(Without(f.callbacks, id), other) <==> Holds(f.callbacks, other) && other != id
      ensures Holds(Without(f.processed, id), other) <==> Holds(f.processed, other) && other != id
      ensures Distinct(Without(f.callbacks, id)) && Distinct(Without(f.processed, id))
    {
      WithoutHolds(f.callbacks, id, other);
      WithoutHolds(f.processed, id, other);
    }
    forall r2: string, other: nat
      ensures Registered(t', r2, other) <==> Registered(t, r2, other) && other != id
    {
      if r2 != rule && Registered(t, r2, other) {
        assert other != id;
      }
    }
  }

  lemma RemoveActs(r: Run, l: Live, id: nat, unmatched: bool, locked: Option<string>)
    requires Stands(r.table, l, locked)
    ensures Act(r, RemoveWatch(id, unmatched))
            == if id in l.watches && Registered(r.table, l.watches[id], id)
               then Run(RemoveCallback(r.table, l.watches[id], id, unmatched), r.trace + [Removed(id)])
               else r
  {
    if id in l.watches {
      assert Registered(r.table, l.watches[id], id);
    }
  }

  /** A locked filter's list of callbacks is what is left of it. */
  lemma ActStands(r: Run, lr: LiveRun, a: Action, rule: string)
    requires Stands(r.table, lr.live, Some(rule)) && r.trace == lr.trace && Locked(r.table, rule)
    ensures Stands(Act(r, a).table, LiveAct(lr, a).live, Some(rule)) && Act(r, a).trace == LiveAct(lr, a).trace
    ensures Later(lr.live, LiveAct(lr, a).live)
  {
    match a
    case AddWatch(r2, hasFunc, _) => AddStands(r.table, lr.live, r2, hasFunc, Some(rule));
    case RemoveWatch(id, unmatched) =>
      RemoveActs(r, lr.live, id, unmatched, Some(rule));
      if id in lr.live.watches {
        assert Registered(r.table, lr.live.watches[id], id);
        RemoveStands(r.table, lr.live, lr.live.watches[id], id, unmatched, Some(rule));
      }
  }

  lemma ActKeeps(r: Run, lr: LiveRun, a: Action, rule: string)
    requires Stands(r.table, lr.live, Some(rule)) && r.trace == lr.trace && Locked(r.table, rule)
    ensures Locked(Act(r, a).table, rule)
    ensures Act(r, a).table.listeners[rule].callbacks
            == Keep(r.table.listeners[rule].callbacks, LiveAct(lr, a).live)
  {
    ActKeepsLock(r, a, rule);
    var cbs, l := r.table.listeners[rule].callbacks, lr.live;
    IdsKnown(r.table, l, Some(rule), rule);
    match a
    case AddWatch(_, _, _) => KeepAll(cbs, LiveAct(lr, a).live);
    case RemoveWatch(id, unmatched) =>
      RemoveActs(r, l, id, unmatched, Some(rule));
      if id in l.watches {
        assert Registered(r.table, l.watches[id], id);
        RemoveKeeps(r.table, l, rule, id, unmatched);
      } else {
        KeepAll(cbs, l);
      }
  }

  lemma RemoveKeeps(t: Table, l: Live, rule: string, id: nat, unmatched: bool)
    requires Stands(t, l, Some(rule)) && Locked(t, rule) && id in l.watches && Registered(t, l.watches[id], id)
    ensures var t' := RemoveCallback(t, l.watches[id], id, unmatched);
            && rule in t'.listeners
            && t'.listeners[rule].callbacks == Keep(t.listeners[rule].callbacks, l.(watches := l.watches - {id}))
  {
    var cbs := t.listeners[rule].callbacks;
    IdsKnown(t, l, Some(rule), rule);
    WithoutHolds(cbs, id, id);
    KeepWithout(cbs, l, id);
  }

  lemma {:induction false} ActAllStands(r: Run, lr: LiveRun, actions: seq<Action>, rule: string)
    requires Stands(r.table, lr.live, Some(rule)) && r.trace == lr.trace && Locked(r.table, rule)
    ensures var r', lr' := ActAll(r, actions), LiveActAll(lr, actions);
            && Stands(r'.table, lr'.live, Some(rule)) && r'.trace == lr'.trace
            && Locked(r'.table, rule) && Later(lr.live, lr'.live)
            && r'.table.listeners[rule].callbacks == Keep(r.table.listeners[rule].callbacks, lr'.live)
    decreases |actions|
  {
    var cbs := r.table.listeners[rule].callbacks;
    IdsKnown(r.table, lr.live, Some(rule), rule);
    if actions == [] {
      KeepAll(cbs, lr.live);
    } else {
      var r1, lr1 := Act(r, actions[0]), LiveAct(lr, actions[0]);
      ActStands(r, lr, actions[0], rule);
      ActKeeps(r, lr, actions[0], rule);
      ActAllStands(r1, lr1, actions[1..], rule);
      KeepLater(cbs, lr1.live, LiveActAll(lr, actions).live);
    }
  }

  lemma MoveStands(t: Table, l: Live, rule: string, cb: Callback)
    requires Stands(t, l, Some(rule)) && Locked(t, rule) && cb in t.listeners[rule].callbacks
    ensures Stands(Move(t, rule, cb), l, Some(rule)) && Locked(Move(t, rule, cb), rule)
  {
    var t', f := Move(t, rule, cb), t.listeners[rule];
    WithoutSubset(f.callbacks, cb.id);
    var i :| 0 <= i < |f.callbacks| && f.callbacks[i] == cb;
    assert Holds(f.callbacks, cb.id);
    WithoutHolds(f.callbacks, cb.id, cb.id);
    forall other: nat
      ensures Owns(t'.listeners[rule], other) <==> Owns(f, other)
    {
      WithoutHolds(f.callbacks, cb.id, other);
      HoldsSnoc(f.processed, cb, other);
    }
    forall r2: string, other: nat
      ensures Registered(t', r2, other) <==> Registered(t, r2, other)
    {
    }
    assert forall j :: 0 <= j < |Without(f.callbacks, cb.id)| ==>
        Holds(Without(f.callbacks, cb.id), Without(f.callbacks, cb.id)[j].id);
  }

  lemma {:induction false} KeepHolds(cbs: seq<Callback>, l: Live)
    ensures forall i :: 0 <= i < |Keep(cbs, l)| ==> Keep(cbs, l)[i] in cbs
  {
    if cbs == [] {
    } else {
      KeepHolds(cbs[1..], l);
    }
  }

  lemma StillThere(cbs: seq<Callback>, l: Live, cb: Callback)
    requires Distinct(cbs) && cb in cbs && Holds(Keep(cbs, l), cb.id)
    ensures cb in Keep(cbs, l)
  {
    KeepHolds(cbs, l);
    var i :| 0 <= i < |Keep(cbs, l)| && Keep(cbs, l)[i].id == cb.id;
    var j :| 0 <= j < |cbs| && cbs[j] == Keep(cbs, l)[i];
    var k :| 0 <= k < |cbs| && cbs[k] == cb;
    assert j == k;
  }

  /** The first of a list of distinct watches, and the rest, among those still registered. */
  lemma KeepFirst(cbs: seq<Callback>, l: Live)
    requires cbs != [] && Distinct(cbs)
    ensures var kept, id := Keep(cbs, l), cbs[0].id;
            && (Holds(kept, id) <==> id in l.watches)
            && (if id in l.watches
                then kept != [] && kept[0] == cbs[0] && Without(kept, id) == Keep(cbs[1..], l)
                else kept == Keep(cbs[1..], l))
  {
    KeepHolds(cbs[1..], l);
    assert !Holds(Keep(cbs[1..], l), cbs[0].id);
    if cbs[0].id in l.watches {
      assert Keep(cbs, l)[0].id == cbs[0].id;
    }
  }

  lemma {:induction false} KeepOthers(cbs: seq<Callback>, l: Live, id: nat)
    requires forall i :: 0 <= i < |cbs| ==> cbs[i].id != id
    ensures Keep(cbs, l.(watches := l.watches - {id})) == Keep(cbs, l)
  {
    if cbs == [] {
    } else {
      KeepOthers(cbs[1..], l, id);
    }
  }

  ghost predicate Agree(o: Outcome<Run>, w: Outcome<LiveRun>, rule: string) {
    && (o.Done? <==> w.Done?)
    && o.run.trace == w.run.trace
    && Stands(o.run.table, w.run.live, Some(rule))
    && (o.Done? ==> Locked(o.run.table, rule) && o.run.table.listeners[rule].callbacks == [])
  }

  /** The state of the code against the state of the pass: what is left of `snapshot` is the list. */
  ghost predicate InStep(r: Run, lr: LiveRun, rule: string, snapshot: seq<Callback>) {
    && Stands(r.table, lr.live, Some(rule)) && r.trace == lr.trace && Locked(r.table, rule)
    && Distinct(snapshot) && Known(snapshot, lr.live)
    && r.table.listeners[rule].callbacks == Keep(snapshot, lr.live)
  }

  /** After an invocation of the first watch of `snapshot`. */
  lemma AfterCall(r: Run, lr: LiveRun, rule: string, snapshot: seq<Callback>, actions: seq<Action>)
    requires InStep(r, lr, rule, snapshot) && snapshot != []
    ensures var called := Called(snapshot[0].id);
            InStep(ActAll(r.(trace := r.trace + [called]), actions),
                   LiveActAll(lr.(trace := lr.trace + [called]), actions), rule, snapshot)
  {
    var r0 := r.(trace := r.trace + [Called(snapshot[0].id)]);
    var lr0 := lr.(trace := lr.trace + [Called(snapshot[0].id)]);
    ActAllStands(r0, lr0, actions, rule);
    KeepLater(snapshot, lr.live, LiveActAll(lr0, actions).live);
  }

  lemma MoveInStep(r: Run, lr: LiveRun, rule: string, snapshot: seq<Callback>)
    requires InStep(r, lr, rule, snapshot) && snapshot != [] && snapshot[0].id in lr.live.watches
    ensures InStep(r.(table := Move(r.table, rule, snapshot[0])), lr, rule, snapshot[1..])
  {
    KeepFirst(snapshot, lr.live);
    MoveStands(r.table, lr.live, rule, snapshot[0]);
  }

  lemma RemoveInStep(r: Run, lr: LiveRun, rule: string, snapshot: seq<Callback>)
    requires InStep(r, lr, rule, snapshot) && snapshot != [] && snapshot[0].id in lr.live.watches
    ensures var id := snapshot[0].id;
            InStep(Run(RemoveCallback(r.table, rule, id, true), r.trace + [Removed(id)]),
                   Unregister(lr, id), rule, snapshot[1..])
  {
    var id := snapshot[0].id;
    KeepFirst(snapshot, lr.live);
    KeepOthers(snapshot[1..], lr.live, id);
    assert Registered(r.table, rule, id);
    RemoveStands(r.table, lr.live, rule, id, true, Some(rule));
  }

  lemma SkipInStep(r: Run, lr: LiveRun, rule: string, snapshot: seq<Callback>)
    requires InStep(r, lr, rule, snapshot) && snapshot != [] && snapshot[0].id !in lr.live.watches
    ensures InStep(r, lr, rule, snapshot[1..])
  {
    KeepFirst(snapshot, lr.live);
  }

  /** The list-mutating loop is the pass over the snapshot. */
  lemma {:induction false} DeliverIsWalk(r: Run, lr: LiveRun, rule: string, snapshot: seq<Callback>,
                                         script: (nat, nat) -> Call, n: nat)
    requires InStep(r, lr, rule, snapshot)
    ensures Agree(Deliver(r, rule, script, n), Walk(lr, snapshot, script, n), rule)
    decreases |snapshot|
  {
    if snapshot == [] {
    } else {
      var cb, rest := snapshot[0], snapshot[1..];
      KeepFirst(snapshot, lr.live);
      if cb.id !in lr.live.watches {
        SkipInStep(r, lr, rule, snapshot);
        DeliverIsWalk(r, lr, rule, rest, script, n);
      } else if !cb.hasFunc {
        MoveInStep(r, lr, rule, snapshot);
        DeliverIsWalk(r.(table := Move(r.table, rule, cb)), lr, rule, rest, script, n);
      } else {
        DeliverCall(r, lr, rule, snapshot, script, n);
      }
    }
  }

  lemma {:induction false} DeliverCall(r: Run, lr: LiveRun, rule: string, snapshot: seq<Callback>,
                                       script: (nat, nat) -> Call, n: nat)
    requires InStep(r, lr, rule, snapshot) && snapshot != []
    requires snapshot[0].id in lr.live.watches && snapshot[0].hasFunc
    ensures Agree(Deliver(r, rule, script, n), Walk(lr, snapshot, script, n), rule)
    decreases |snapshot|, 0
  {
    var cb, rest := snapshot[0], snapshot[1..];
    var r1 := ActAll(r.(trace := r.trace + [Called(cb.id)]), script(n, cb.id).actions);
    var lr1 := LiveActAll(lr.(trace := lr.trace + [Called(cb.id)]), script(n, cb.id).actions);
    KeepFirst(snapshot, lr.live);
    AfterCall(r, lr, rule, snapshot, script(n, cb.id).actions);
    KeepFirst(snapshot, lr1.live);
    if cb.id !in lr1.live.watches {
      if script(n, cb.id).again {
        SkipInStep(r1, lr1, rule, snapshot);
        DeliverIsWalk(r1, lr1, rule, rest, script, n + 1);
      }
    } else if script(n, cb.id).again {
      MoveInStep(r1, lr1, rule, snapshot);
      DeliverIsWalk(r1.(table := Move(r1.table, rule, cb)), lr1, rule, rest, script, n + 1);
    } else {
      RemoveInStep(r1, lr1, rule, snapshot);
      DeliverIsWalk(Run(RemoveCallback(r1.table, rule, cb.id, true), r1.trace + [Removed(cb.id)]),
                    Unregister(lr1, cb.id), rule, rest, script, n + 1);
    }
  }

  lemma LockStands(t: Table, l: Live, rule: string)
    requires Stands(t, l, None) && rule in t.listeners
    ensures InStep(Run(SetLock(t, rule), []), LiveRun(l, []), rule, t.listeners[rule].callbacks)
  {
    var t' := SetLock(t, rule);
    assert forall r2: string, id: nat :: Registered(t', r2, id) <==> Registered(t, r2, id);
    IdsKnown(t, l, None, rule);
    KeepAll(t.listeners[rule].callbacks, l);
  }

  lemma RestoreStands(t: Table, l: Live, rule: string)
    requires Stands(t, l, Some(rule)) && Locked(t, rule) && t.listeners[rule].callbacks == []
    ensures Stands(Restore(t, rule), l, None)
  {
    var t' := Restore(t, rule);
    assert forall r2: string, id: nat :: Registered(t', r2, id) <==> Registered(t, r2, id);
  }

  /** One delivery does what the pass over the watches present at the start does: the same calls,
      additions and removals in the same order, ending with the lock clear, nothing left in `processed`
      and exactly the live watches in the table; and it goes wrong exactly when the pass does. */
  lemma DispatchIsWalk(t: Table, l: Live, rule: string, script: (nat, nat) -> Call)
    requires Stands(t, l, None) && rule in t.listeners
    ensures var out := Dispatch(t, rule, script);
            var pass := Walk(LiveRun(l, []), t.listeners[rule].callbacks, script, 0);
            && (out.Done? <==> pass.Done?) && out.run.trace == pass.run.trace
            && (out.Done? ==> Stands(out.run.table, pass.run.live, None) && rule in out.run.table.listeners)
  {
    LockStands(t, l, rule);
    var r := Run(SetLock(t, rule), []);
    DeliverIsWalk(r, LiveRun(l, []), rule, t.listeners[rule].callbacks, script, 0);
    var out := Deliver(r, rule, script, 0);
    if out.Done? {
      RestoreStands(out.run.table, Walk(LiveRun(l, []), t.listeners[rule].callbacks, script, 0).run.live, rule);
    }
  }

  // ---------- what the pass does ----------

  ghost predicate Bounded(l: Live) {
    forall id :: id in l.watches ==> 0 < id <= l.lastId
  }

  ghost predicate Watched(l: Live, id: nat, rule: string) {
    id in l.watches && l.watches[id] == rule
  }

  /** `events` turns the live watches `l` into `l'`: exactly the watches that were there or were added,
      and were not removed. */
  ghost predicate Evolves(l: Live, events: seq<Event>, l': Live) {
    && Bounded(l) && Bounded(l') && l.lastId <= l'.lastId
    && (forall id: nat, rule: string :: Added(id, rule) in events ==> l.lastId < id <= l'.lastId)
    && (forall id: nat :: Removed(id) in events ==> id <= l'.lastId)
    && (forall id: nat, rule: string ::
          Watched(l', id, rule) <==> (Watched(l, id, rule) || Added(id, rule) in events) && Removed(id) !in events)
  }

  lemma EvolvesThen(l: Live, e1: seq<Event>, l1: Live, e2: seq<Event>, l2: Live)
    requires Evolves(l, e1, l1) && Evolves(l1, e2, l2)
    ensures Evolves(l, e1 + e2, l2)
  {
    forall id: nat, rule: string
      ensures Watched(l2, id, rule)
              <==> (Watched(l, id, rule) || Added(id, rule) in e1 + e2) && Removed(id) !in e1 + e2
    {
      assert Watched(l1, id, rule) <==> (Watched(l, id, rule) || Added(id, rule) in e1) && Removed(id) !in e1;
    }
  }

  ghost predicate NoCalls(events: seq<Event>) {
    forall e :: e in events ==> !e.Called?
  }

  lemma LiveActEvolves(r: LiveRun, a: Action)
    requires Bounded(r.live)
    ensures var r' := LiveAct(r, a);
            && r.trace <= r'.trace && NoCalls(r'.trace[|r.trace|..])
            && Evolves(r.live, r'.trace[|r.trace|..], r'.live)
  {
    var r' := LiveAct(r, a);
    if r'.trace == r.trace {
      assert r'.trace[|r.trace|..] == [];
    } else {
      assert r'.trace[|r.trace|..] == [r'.trace[|r.trace|]];
    }
  }

  lemma {:induction false} LiveActAllEvolves(r: LiveRun, actions: seq<Action>)
    requires Bounded(r.live)
    ensures var r' := LiveActAll(r, actions);
            && r.trace <= r'.trace && NoCalls(r'.trace[|r.trace|..])
            && Evolves(r.live, r'.trace[|r.trace|..], r'.live)
    decreases |actions|
  {
    var r' := LiveActAll(r, actions);
    if actions == [] {
      assert r'.trace[|r.trace|..] == [];
    } else {
      var r1 := LiveAct(r, actions[0]);
      LiveActEvolves(r, actions[0]);
      LiveActAllEvolves(r1, actions[1..]);
      EvolvesThen(r.live, r1.trace[|r.trace|..], r1.live, r'.trace[|r1.trace|..], r'.live);
      assert r'.trace[|r.trace|..] == r1.trace[|r.trace|..] + r'.trace[|r1.trace|..];
    }
  }

  ghost predicate CalledAt(events: seq<Event>, id: nat, k: nat) {
    && k < |events| && events[k] == Called(id)
    && (forall j :: 0 <= j < |events| && j != k ==> events[j] != Called(id))
    && (forall j :: 0 <= j < k ==> events[j] != Removed(id))
  }

  /** What becomes of a watch that is present at the start: it is called exactly once and was not removed
      before, or it was removed and is never called. */
  ghost predicate HadTurn(events: seq<Event>, cb: Callback) {
    if !cb.hasFunc then Called(cb.id) !in events
    else (exists k :: CalledAt(events, cb.id, k)) || (Called(cb.id) !in events && Removed(cb.id) in events)
  }

  function CallsOf(events: seq<Event>): seq<nat> {
    if events == [] then []
    else if events[0].Called? then [events[0].id] + CallsOf(events[1..])
    else CallsOf(events[1..])
  }

  /** `calls` are some of the watches of `cbs`, in the same order. */
  predicate InOrder(calls: seq<nat>, cbs: seq<Callback>) {
    if calls == [] then true
    else if cbs == [] then false
    else if calls[0] == cbs[0].id then InOrder(calls[1..], cbs[1..])
    else InOrder(calls, cbs[1..])
  }

  /** An invocation that removes its own watch and then returns FALSE. */
  predicate SelfFreeing(call: Call, id: nat) {
    !call.again && exists i :: 0 <= i < |call.actions| && call.actions[i].RemoveWatch? && call.actions[i].id == id
  }

  lemma {:induction false} CallsOfAppend(a: seq<Event>, b: seq<Event>)
    ensures CallsOf(a + b) == CallsOf(a) + CallsOf(b)
    ensures NoCalls(a) ==> CallsOf(a) == []
  {
    if a == [] {
      assert a + b == b;
    } else {
      assert (a + b)[1..] == a[1..] + b;
      CallsOfAppend(a[1..], b);
    }
  }

  lemma {:induction false} InOrderMember(calls: seq<nat>, cbs: seq<Callback>, id: nat)
    requires InOrder(calls, cbs) && id in calls
    ensures Holds(cbs, id)
  {
    HoldsCons(cbs, id);
    if calls[0] != cbs[0].id {
      InOrderMember(calls, cbs[1..], id);
    } else if id != calls[0] {
      InOrderMember(calls[1..], cbs[1..], id);
    }
  }

  lemma {:induction false} CallsOfMember(events: seq<Event>, id: nat)
    ensures Called(id) in events <==> id in CallsOf(events)
  {
    if events == [] {
    } else {
      CallsOfMember(events[1..], id);
      assert events == [events[0]] + events[1..];
    }
  }

  /** A registered watch is gone after the actions exactly if one of them removes it. */
  lemma {:induction false} GoneIffRemoved(r: LiveRun, actions: seq<Action>, id: nat)
    requires Bounded(r.live) && id <= r.live.lastId
    ensures id in LiveActAll(r, actions).live.watches
            <==> id in r.live.watches
                 && forall i :: 0 <= i < |actions| ==> !(actions[i].RemoveWatch? && actions[i].id == id)
    decreases |actions|
  {
    if actions == [] {
    } else {
      LiveActEvolves(r, actions[0]);
      GoneIffRemoved(LiveAct(r, actions[0]), actions[1..], id);
      assert actions == [actions[0]] + actions[1..];
    }
  }

  /** What a pass over `snapshot` from live watches `l` amounts to. */
  ghost predicate PassOk(l: Live, snapshot: seq<Callback>, script: (nat, nat) -> Call, n: nat,
                         events: seq<Event>, out: Outcome<LiveRun>)
  {
    && Evolves(l, events, out.run.live)
    && InOrder(CallsOf(events), snapshot)
    && (forall id: nat :: Called(id) in events ==> id in l.watches)
    && (out.Done? ==> forall i :: 0 <= i < |snapshot| && snapshot[i].id in l.watches ==>
                        HadTurn(events, snapshot[i]))
    && (out.Done? <==> NoneFreeing(CallsOf(events), script, n))
  }

  lemma InOrderSkip(calls: seq<nat>, cbs: seq<Callback>)
    requires cbs != [] && Distinct(cbs) && InOrder(calls, cbs[1..])
    ensures InOrder(calls, cbs) && cbs[0].id !in calls
  {
    if cbs[0].id in calls {
      InOrderMember(calls, cbs[1..], cbs[0].id);
    }
  }

  /** A watch that is not called or live first: the pass goes on with the rest. */
  lemma PassSkips(l: Live, snapshot: seq<Callback>, script: (nat, nat) -> Call, n: nat,
                  events: seq<Event>, out: Outcome<LiveRun>)
    requires snapshot != [] && Distinct(snapshot)
    requires snapshot[0].id !in l.watches || !snapshot[0].hasFunc
    requires PassOk(l, snapshot[1..], script, n, events, out)
    ensures PassOk(l, snapshot, script, n, events, out)
  {
    InOrderSkip(CallsOf(events), snapshot);
    CallsOfMember(events, snapshot[0].id);
    if out.Done? {
      forall i | 0 <= i < |snapshot| && snapshot[i].id in l.watches
        ensures HadTurn(events, snapshot[i])
      {
        assert i > 0 ==> snapshot[i] == snapshot[1..][i - 1];
      }
    }
  }

  lemma TurnLater(l: Live, first: seq<Event>, l1: Live, events: seq<Event>, cb: Callback)
    requires Evolves(l, first, l1) && cb.id in l.watches && Called(cb.id) !in first
    requires forall id: nat :: Called(id) in events ==> id in l1.watches
    requires cb.id in l1.watches ==> HadTurn(events, cb)
    ensures HadTurn(first + events, cb)
  {
    var all := first + events;
    assert Watched(l, cb.id, l.watches[cb.id]);
    if cb.id in l1.watches {
      assert Watched(l1, cb.id, l1.watches[cb.id]);
      if k: nat :| CalledAt(events, cb.id, k) {
        assert all[|first| + k] == events[k];
        assert CalledAt(all, cb.id, |first| + k);
      }
    } else {
      assert !Watched(l1, cb.id, l.watches[cb.id]);
      assert Removed(cb.id) in first;
    }
  }

  /** The first watch is called with the events `first`; the pass goes on with the rest. */
  lemma PassCalls(l: Live, snapshot: seq<Callback>, script: (nat, nat) -> Call, n: nat,
                  first: seq<Event>, l1: Live, events: seq<Event>, out: Outcome<LiveRun>)
    requires snapshot != [] && Distinct(snapshot) && snapshot[0].id in l.watches && snapshot[0].hasFunc
    requires first != [] && first[0] == Called(snapshot[0].id) && NoCalls(first[1..]) && Evolves(l, first, l1)
    requires !SelfFreeing(script(n, snapshot[0].id), snapshot[0].id)
    requires Known(snapshot, l)
    requires PassOk(l1, snapshot[1..], script, n + 1, events, out)
    ensures PassOk(l, snapshot, script, n, first + events, out)
  {
    var cb, all := snapshot[0], first + events;
    EvolvesThen(l, first, l1, events, out.run.live);
    CallsAfter(first, events, cb.id);
    var calls := CallsOf(events);
    FreeingLater(calls, script, n, cb.id);
    assert CallsOf(all)[1..] == calls;
    InOrderSkip(calls, snapshot);
    CallsOfMember(events, cb.id);
    PassCalled(l, snapshot, first, l1, events);
    if out.Done? {
      PassTurns(l, snapshot, first, l1, events);
    }
  }

  lemma CallsAfter(first: seq<Event>, events: seq<Event>, id: nat)
    requires first != [] && first[0] == Called(id) && NoCalls(first[1..])
    ensures CallsOf(first + events) == [id] + CallsOf(events)
  {
    CallsOfAppend(first, events);
    CallsOfAppend(first[1..], []);
    assert first[1..] + [] == first[1..];
  }

  ghost predicate NoneFreeing(calls: seq<nat>, script: (nat, nat) -> Call, n: nat) {
    forall k :: 0 <= k < |calls| ==> !SelfFreeing(script(n + k, calls[k]), calls[k])
  }

  lemma FreeingLater(calls: seq<nat>, script: (nat, nat) -> Call, n: nat, id: nat)
    requires !SelfFreeing(script(n, id), id)
    ensures NoneFreeing([id] + calls, script, n) <==> NoneFreeing(calls, script, n + 1)
  {
    var all := [id] + calls;
    if NoneFreeing(all, script, n) {
      forall k | 0 <= k < |calls|
        ensures !SelfFreeing(script(n + 1 + k, calls[k]), calls[k])
      {
        assert all[k + 1] == calls[k];
      }
    }
    if NoneFreeing(calls, script, n + 1) {
      forall k | 0 <= k < |all|
        ensures !SelfFreeing(script(n + k, all[k]), all[k])
      {
        if k > 0 { assert all[k] == calls[k - 1]; }
      }
    }
  }

  lemma PassCalled(l: Live, snapshot: seq<Callback>, first: seq<Event>, l1: Live, events: seq<Event>)
    requires snapshot != [] && snapshot[0].id in l.watches && Known(snapshot, l)
    requires first != [] && first[0] == Called(snapshot[0].id) && NoCalls(first[1..]) && Evolves(l, first, l1)
    requires InOrder(CallsOf(events), snapshot[1..])
    requires forall id: nat :: Called(id) in events ==> id in l1.watches
    ensures forall id: nat :: Called(id) in first + events ==> id in l.watches
  {
    forall id: nat | Called(id) in first + events
      ensures id in l.watches
    {
      assert first == [first[0]] + first[1..];
      if id != snapshot[0].id {
        assert Called(id) in events;
        CallsOfMember(events, id);
        InOrderMember(CallsOf(events), snapshot[1..], id);
        var i :| 0 <= i < |snapshot[1..]| && snapshot[1..][i].id == id;
        assert snapshot[i + 1].id == id;
        assert Watched(l1, id, l1.watches[id]);
      }
    }
  }

  lemma PassTurns(l: Live, snapshot: seq<Callback>, first: seq<Event>, l1: Live, events: seq<Event>)
    requires snapshot != [] && Distinct(snapshot) && snapshot[0].id in l.watches && snapshot[0].hasFunc
    requires first != [] && first[0] == Called(snapshot[0].id) && NoCalls(first[1..]) && Evolves(l, first, l1)
    requires Called(snapshot[0].id) !in events
    requires forall id: nat :: Called(id) in events ==> id in l1.watches
    requires forall i :: 0 <= i < |snapshot[1..]| && snapshot[1..][i].id in l1.watches ==>
               HadTurn(events, snapshot[1..][i])
    ensures forall i :: 0 <= i < |snapshot| && snapshot[i].id in l.watches ==> HadTurn(first + events, snapshot[i])
  {
    assert first == [first[0]] + first[1..];
    forall i | 0 <= i < |snapshot| && snapshot[i].id in l.watches
      ensures HadTurn(first + events, snapshot[i])
    {
      if i == 0 {
        assert CalledAt(first + events, snapshot[0].id, 0);
      } else {
        assert snapshot[i] == snapshot[1..][i - 1];
        TurnLater(l, first, l1, events, snapshot[i]);
      }
    }
  }

  lemma CalledEvolves(l: Live, id: nat)
    requires Bounded(l)
    ensures Evolves(l, [Called(id)], l)
  {
  }

  lemma RemovedEvolves(l: Live, id: nat)
    requires Bounded(l) && id in l.watches
    ensures Evolves(l, [Removed(id)], l.(watches := l.watches - {id}))
  {
  }

  /** The events of one invocation of `cb`, its removal on returning FALSE included. */
  lemma CallEvolves(r: LiveRun, cb: Callback, call: Call)
    returns (first: seq<Event>, r1: LiveRun)
    requires Bounded(r.live) && cb.id in r.live.watches
    ensures r1 == LiveActAll(r.(trace := r.trace + [Called(cb.id)]), call.actions)
    ensures cb.id in r1.live.watches || call.again <==> !SelfFreeing(call, cb.id)
    ensures var r2 := if call.again || cb.id !in r1.live.watches then r1 else Unregister(r1, cb.id);
            && first != [] && first[0] == Called(cb.id) && NoCalls(first[1..])
            && r2.trace == r.trace + first && Evolves(r.live, first, r2.live)
  {
    var r0 := r.(trace := r.trace + [Called(cb.id)]);
    r1 := LiveActAll(r0, call.actions);
    LiveActAllEvolves(r0, call.actions);
    GoneIffRemoved(r0, call.actions, cb.id);
    var acts := r1.trace[|r0.trace|..];
    CalledEvolves(r.live, cb.id);
    EvolvesThen(r.live, [Called(cb.id)], r.live, acts, r1.live);
    first := [Called(cb.id)] + acts;
    assert first[1..] == acts;
    if !call.again && cb.id in r1.live.watches {
      var r2 := Unregister(r1, cb.id);
      RemovedEvolves(r1.live, cb.id);
      EvolvesThen(r.live, first, r1.live, [Removed(cb.id)], r2.live);
      first := first + [Removed(cb.id)];
      assert first[1..] == acts + [Removed(cb.id)];
    }
  }

  lemma {:induction false} WalkFacts(r: LiveRun, snapshot: seq<Callback>, script: (nat, nat) -> Call, n: nat)
    returns (events: seq<Event>)
    requires Bounded(r.live) && Distinct(snapshot) && Known(snapshot, r.live)
    ensures Walk(r, snapshot, script, n).run.trace == r.trace + events
    ensures PassOk(r.live, snapshot, script, n, events, Walk(r, snapshot, script, n))
    decreases |snapshot|
  {
    if snapshot == [] {
      events := [];
    } else if snapshot[0].id !in r.live.watches || !snapshot[0].hasFunc {
      events := WalkFacts(r, snapshot[1..], script, n);
      PassSkips(r.live, snapshot, script, n, events, Walk(r, snapshot[1..], script, n));
    } else {
      events := WalkCallFacts(r, snapshot, script, n);
    }
  }

  lemma {:induction false} WalkCallFacts(r: LiveRun, snapshot: seq<Callback>, script: (nat, nat) -> Call, n: nat)
    returns (events: seq<Event>)
    requires Bounded(r.live) && Distinct(snapshot) && Known(snapshot, r.live)
    requires snapshot != [] && snapshot[0].id in r.live.watches && snapshot[0].hasFunc
    ensures Walk(r, snapshot, script, n).run.trace == r.trace + events
    ensures PassOk(r.live, snapshot, script, n, events, Walk(r, snapshot, script, n))
    decreases |snapshot|, 0
  {
    var cb, rest := snapshot[0], snapshot[1..];
    var call := script(n, cb.id);
    var first, r1 := CallEvolves(r, cb, call);
    if SelfFreeing(call, cb.id) {
      events := first;
      PassFaults(r.live, snapshot, script, n, first, Fault(r1));
    } else {
      var r2 := if call.again then r1 else Unregister(r1, cb.id);
      var more := WalkFacts(r2, rest, script, n + 1);
      PassCalls(r.live, snapshot, script, n, first, r2.live, more, Walk(r2, rest, script, n + 1));
      events := first + more;
    }
  }

  lemma PassFaults(l: Live, snapshot: seq<Callback>, script: (nat, nat) -> Call, n: nat,
                   first: seq<Event>, out: Outcome<LiveRun>)
    requires snapshot != [] && snapshot[0].id in l.watches && SelfFreeing(script(n, snapshot[0].id), snapshot[0].id)
    requires first != [] && first[0] == Called(snapshot[0].id) && NoCalls(first[1..])
    requires Evolves(l, first, out.run.live) && out.Fault?
    ensures PassOk(l, snapshot, script, n, first, out)
  {
    CallsOfAppend(first[1..], []);
    assert first[1..] + [] == first[1..];
    assert first == [first[0]] + first[1..];
    assert CallsOf(first) == [snapshot[0].id];
    assert CallsOf(first)[0] == snapshot[0].id && CallsOf(first)[1..] == [];
  }

  // ---------- the main result ----------

  /** One delivery, for any callback behaviour.  It is sound exactly when no invocation removes its own
      watch and then returns FALSE.  Then: each watch present at the start is called exactly once unless
      removed before its turn, in list order; nothing added during delivery is called; and the filter is
      left unlocked, with an empty `processed` list and exactly the watches of the rule that were there or
      were added and were not removed. */
  ghost predicate Delivered(t: Table, rule: string, script: (nat, nat) -> Call)
    requires rule in t.listeners
  {
    var cbs := t.listeners[rule].callbacks;
    var out := Dispatch(t, rule, script);
    var events := out.run.trace;
    var calls := CallsOf(events);
    && (out.Done? <==> forall k :: 0 <= k < |calls| ==> !SelfFreeing(script(k, calls[k]), calls[k]))
    && InOrder(calls, cbs)
    && (out.Done? ==>
          && (forall i :: 0 <= i < |cbs| ==> HadTurn(events, cbs[i]))
          && rule in out.run.table.listeners
          && var f := out.run.table.listeners[rule];
             && !f.lock && f.processed == [] && Distinct(f.callbacks)
             && forall id: nat :: Holds(f.callbacks, id)
                  <==> (Holds(cbs, id) || Added(id, rule) in events) && Removed(id) !in events)
  }

  lemma DeliveryCorrect(t: Table, l: Live, rule: string, script: (nat, nat) -> Call)
    requires Stands(t, l, None) && rule in t.listeners
    ensures Delivered(t, rule, script)
  {
    var cbs := t.listeners[rule].callbacks;
    IdsKnown(t, l, None, rule);
    DispatchIsWalk(t, l, rule, script);
    var events := WalkFacts(LiveRun(l, []), cbs, script, 0);
    var out := Dispatch(t, rule, script);
    var pass := Walk(LiveRun(l, []), cbs, script, 0);
    assert [] + events == events;
    if out.Done? {
      var f := out.run.table.listeners[rule];
      forall id: nat
        ensures Holds(f.callbacks, id) <==> (Holds(cbs, id) || Added(id, rule) in events) && Removed(id) !in events
      {
        assert Registered(out.run.table, rule, id) <==> Watched(pass.run.live, id, rule);
        assert Registered(t, rule, id) <==> Watched(l, id, rule);
        assert !Holds(f.processed, id) && !Holds(t.listeners[rule].processed, id);
      }
    }
  }
}
