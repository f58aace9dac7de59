/** The order in which watches stand and are called: a delivery rebuilds the list of a rule from scratch while
    callbacks change it, and still two watches never change places. */
module WatchOrder {
  import opened Bytes
  import opened Watch
  import opened WatchRuns

  /** The watches of a rule, those already handled by a delivery first. */
  function Line(t: Table, rule: string): seq<Callback> {
    if rule in t.listeners then t.listeners[rule].processed + t.listeners[rule].callbacks else []
  }

  ghost predicate Before(cbs: seq<Callback>, a: nat, b: nat) {
    exists i, j :: 0 <= i < j < |cbs| && cbs[i].id == a && cbs[j].id == b
  }

  /** Every watch of `t` that is still there in `t'` is the same, and any two stand as they stood. */
  ghost predicate SameOrder(t: Table, t': Table, rule: string) {
    && t.lastId <= t'.lastId
    && (forall cb :: cb in Line(t', rule) && cb.id <= t.lastId ==> cb in Line(t, rule))
    && (forall a: nat, b: nat :: a <= t.lastId && b <= t.lastId && Before(Line(t', rule), a, b) ==>
          Before(Line(t, rule), a, b))
  }

  /** The watches added since id `bound` was the last stand in the order of their ids. */
  ghost predicate Ascends(t: Table, rule: string, bound: nat) {
    && bound <= t.lastId
    && (forall cb :: cb in Line(t, rule) ==> cb.id <= t.lastId)
    && (forall a: nat, b: nat :: bound < a && bound < b && Before(Line(t, rule), a, b) ==> a < b)
    && (rule in t.listeners && t.listeners[rule].lock ==>
          forall cb :: cb in t.listeners[rule].callbacks ==> cb.id <= bound)
  }

  ghost predicate Kept(t0: Table, t: Table, rule: string) {
    SameOrder(t0, t, rule) && Ascends(t, rule, t0.lastId)
  }

  // ---------- lists ----------

  lemma BeforeAppend(p: seq<Callback>, c: seq<Callback>, a: nat, b: nat)
    ensures Before(p + c, a, b) <==> Before(p, a, b) || Before(c, a, b) || (Holds(p, a) && Holds(c, b))
  {
    var s := p + c;
    if Before(p, a, b) {
      var i, j :| 0 <= i < j < |p| && p[i].id == a && p[j].id == b;
      assert s[i].id == a && s[j].id == b;
    }
    if Before(c, a, b) {
      var i, j :| 0 <= i < j < |c| && c[i].id == a && c[j].id == b;
      assert s[|p| + i].id == a && s[|p| + j].id == b;
    }
    if Holds(p, a) && Holds(c, b) {
      var i :| 0 <= i < |p| && p[i].id == a;
      var j :| 0 <= j < |c| && c[j].id == b;
      assert s[i].id == a && s[|p| + j].id == b;
    }
    if Before(s, a, b) {
      var i, j :| 0 <= i < j < |s| && s[i].id == a && s[j].id == b;
      if j < |p| {
        assert p[i].id == a && p[j].id == b;
      } else if i < |p| {
        assert p[i].id == a && c[j - |p|].id == b;
      } else {
        assert c[i - |p|].id == a && c[j - |p|].id == b;
      }
    }
  }

  lemma HoldsAppend(p: seq<Callback>, c: seq<Callback>, id: nat)
    ensures Holds(p + c, id) <==> Holds(p, id) || Holds(c, id)
  {
    var s := p + c;
    assert forall i :: 0 <= i < |p| ==> s[i] == p[i];
    assert forall i :: 0 <= i < |c| ==> s[|p| + i] == c[i];
  }

  lemma {:induction false} WithoutBefore(cbs: seq<Callback>, id: nat, a: nat, b: nat)
    ensures Holds(Without(cbs, id), a) ==> Holds(cbs, a)
    ensures Before(Without(cbs, id), a, b) ==> Before(cbs, a, b)
  {
    if cbs == [] {
    } else {
      WithoutBefore(cbs[1..], id, a, b);
      WithoutBefore(cbs[1..], id, b, b);
      assert cbs == [cbs[0]] + cbs[1..];
      BeforeAppend([cbs[0]], cbs[1..], a, b);
      BeforeAppend([cbs[0]], Without(cbs[1..], id), a, b);
      HoldsAppend([cbs[0]], cbs[1..], a);
      HoldsAppend([cbs[0]], Without(cbs[1..], id), a);
    }
  }

  /** Putting a watch in between leaves the others as they stand. */
  lemma InsertBefore(p: seq<Callback>, x: Callback, c: seq<Callback>, a: nat, b: nat)
    ensures a != x.id && b != x.id ==> (Before(p + [x] + c, a, b) <==> Before(p + c, a, b))
    ensures Before(p + [x] + c, a, x.id) && a != x.id ==> Holds(p, a) || Holds(c, x.id)
    ensures Before(p + [x] + c, x.id, b) ==> Holds(p, x.id) || Holds(c, b)
  {
    BeforeAppend(p + [x], c, a, b);
    BeforeAppend(p, [x], a, b);
    BeforeAppend(p, c, a, b);
    HoldsAppend(p, [x], a);
    BeforeAppend(p + [x], c, a, x.id);
    BeforeAppend(p, [x], a, x.id);
    BeforeAppend(p + [x], c, x.id, b);
    BeforeAppend(p, [x], x.id, b);
    HoldsAppend(p, [x], x.id);
    assert Holds([x], x.id) by { assert [x][0] == x; }
  }

  // ---------- one change of the table ----------

  lemma SameOrderThen(t: Table, t1: Table, t2: Table, rule: string)
    requires SameOrder(t, t1, rule) && SameOrder(t1, t2, rule)
    ensures SameOrder(t, t2, rule)
  {
  }

  /** A change that leaves the line of a rule alone. */
  lemma SameLine(t0: Table, t: Table, t': Table, rule: string)
    requires Kept(t0, t, rule) && t'.lastId >= t.lastId && Line(t', rule) == Line(t, rule)
    requires rule in t'.listeners && t'.listeners[rule].lock ==>
               rule in t.listeners && t.listeners[rule].lock
               && forall cb :: cb in t'.listeners[rule].callbacks ==> cb in t.listeners[rule].callbacks
    ensures Kept(t0, t', rule)
  {
  }

  /** A new watch comes last: behind everything handled so far and in front of what is left of a delivery, and
      at the end of the list otherwise. */
  lemma AddComesLast(t: Table, rule: string, hasFunc: bool)
    ensures var t' := Add(t, rule, hasFunc);
            var added := Callback(t.lastId + 1, hasFunc);
            && rule in t'.listeners && t'.lastId == t.lastId + 1
            && if rule !in t.listeners then t'.listeners[rule] == Filter([added], [], false)
               else if t.listeners[rule].lock then
                 t'.listeners[rule].processed == t.listeners[rule].processed + [added]
                 && t'.listeners[rule].callbacks == t.listeners[rule].callbacks
               else t'.listeners[rule].callbacks == t.listeners[rule].callbacks + [added]
  {
  }

  /** The line with the new watch, as what comes before and behind it. */
  ghost function AddPlace(t: Table, rule: string): (seq<Callback>, seq<Callback>) {
    if rule !in t.listeners then ([], [])
    else if t.listeners[rule].lock then (t.listeners[rule].processed, t.listeners[rule].callbacks)
    else (Line(t, rule), [])
  }

  lemma AddLine(t: Table, rule: string, hasFunc: bool)
    ensures var (p, c) := AddPlace(t, rule);
            && Line(t, rule) == p + c
            && Line(Add(t, rule, hasFunc), rule) == p + [Callback(t.lastId + 1, hasFunc)] + c
  {
  }

  lemma AddKept(t0: Table, t: Table, rule: string, hasFunc: bool)
    requires Kept(t0, t, rule)
    ensures Kept(t0, Add(t, rule, hasFunc), rule)
  {
    var t', x := Add(t, rule, hasFunc), Callback(t.lastId + 1, hasFunc);
    var (p, c) := AddPlace(t, rule);
    AddLine(t, rule, hasFunc);
    assert forall cb :: cb in c ==> cb.id <= t0.lastId;
    forall a: nat, b: nat | Before(Line(t', rule), a, b)
      ensures a <= t0.lastId && b <= t0.lastId ==> Before(Line(t0, rule), a, b)
      ensures t0.lastId < a && t0.lastId < b ==> a < b
    {
      InsertBefore(p, x, c, a, b);
    }
  }

  lemma RemoveKept(t0: Table, t: Table, r2: string, id: nat, unmatched: bool, rule: string)
    requires Kept(t0, t, rule) && r2 in t.listeners
    ensures Kept(t0, RemoveCallback(t, r2, id, unmatched), rule)
  {
    var t' := RemoveCallback(t, r2, id, unmatched);
    if r2 != rule {
      SameLine(t0, t, t', rule);
    } else if rule in t'.listeners {
      var p, c := t.listeners[rule].processed, t.listeners[rule].callbacks;
      WithoutSubset(p, id);
      WithoutSubset(c, id);
      forall a: nat, b: nat | Before(Line(t', rule), a, b)
        ensures Before(Line(t, rule), a, b)
      {
        BeforeAppend(p, c, a, b);
        BeforeAppend(Without(p, id), Without(c, id), a, b);
        WithoutBefore(p, id, a, b);
        WithoutBefore(c, id, a, b);
        WithoutBefore(c, id, b, b);
      }
    }
  }

  lemma ActKept(t0: Table, r: Run, a: Action, rule: string)
    requires Kept(t0, r.table, rule)
    ensures Kept(t0, Act(r, a).table, rule)
  {
    match a
    case AddWatch(r2, hasFunc, granted) =>
      if granted {
        if r2 == rule { AddKept(t0, r.table, rule, hasFunc); } else { SameLine(t0, r.table, Act(r, a).table, rule); }
      }
    case RemoveWatch(id, unmatched) =>
      if exists r2 :: Registered(r.table, r2, id) {
        var r2 :| Registered(r.table, r2, id) && Act(r, a).table == RemoveCallback(r.table, r2, id, unmatched);
        RemoveKept(t0, r.table, r2, id, unmatched, rule);
      }
  }

  lemma {:induction false} ActAllKept(t0: Table, r: Run, actions: seq<Action>, rule: string)
    requires Kept(t0, r.table, rule)
    ensures Kept(t0, ActAll(r, actions).table, rule)
    decreases |actions|
  {
    if actions == [] {
    } else {
      ActKept(t0, r, actions[0], rule);
      ActAllKept(t0, Act(r, actions[0]), actions[1..], rule);
    }
  }

  /** A watch that is called moves from the head of one list to the end of the other: the line stays. */
  lemma MoveKept(t0: Table, r: Run, lr: LiveRun, moved: string, snapshot: seq<Callback>, rule: string)
    requires Kept(t0, r.table, rule)
    requires InStep(r, lr, moved, snapshot) && snapshot != [] && snapshot[0].id in lr.live.watches
    ensures Kept(t0, Move(r.table, moved, snapshot[0]), rule)
  {
    var f, cb := r.table.listeners[moved], snapshot[0];
    KeepFirst(snapshot, lr.live);
    assert f.callbacks == [cb] + f.callbacks[1..];
    assert Without(f.callbacks, cb.id) == f.callbacks[1..];
    assert f.processed + [cb] + f.callbacks[1..] == f.processed + f.callbacks;
    SameLine(t0, r.table, Move(r.table, moved, cb), rule);
  }

  // ---------- one delivery ----------

  lemma {:induction false} DeliverKept(t0: Table, r: Run, lr: LiveRun, moved: string, snapshot: seq<Callback>,
                                       script: (nat, nat) -> Call, n: nat, rule: string)
    requires InStep(r, lr, moved, snapshot) && Kept(t0, r.table, rule)
    ensures Deliver(r, moved, script, n).Done? ==> Kept(t0, Deliver(r, moved, script, n).run.table, rule)
    decreases |snapshot|
  {
    if snapshot == [] {
    } else {
      var cb, rest := snapshot[0], snapshot[1..];
      KeepFirst(snapshot, lr.live);
      if cb.id !in lr.live.watches {
        SkipInStep(r, lr, moved, snapshot);
        DeliverKept(t0, r, lr, moved, rest, script, n, rule);
      } else if !cb.hasFunc {
        MoveInStep(r, lr, moved, snapshot);
        MoveKept(t0, r, lr, moved, snapshot, rule);
        DeliverKept(t0, r.(table := Move(r.table, moved, cb)), lr, moved, rest, script, n, rule);
      } else {
        CallKept(t0, r, lr, moved, snapshot, script, n, rule);
      }
    }
  }

  lemma {:induction false} CallKept(t0: Table, r: Run, lr: LiveRun, moved: string, snapshot: seq<Callback>,
                                    script: (nat, nat) -> Call, n: nat, rule: string)
    requires InStep(r, lr, moved, snapshot) && Kept(t0, r.table, rule)
    requires snapshot != [] && snapshot[0].id in lr.live.watches && snapshot[0].hasFunc
    ensures Deliver(r, moved, script, n).Done? ==> Kept(t0, Deliver(r, moved, script, n).run.table, rule)
    decreases |snapshot|, 0
  {
    var cb, rest := snapshot[0], snapshot[1..];
    var r0 := r.(trace := r.trace + [Called(cb.id)]);
    var r1 := ActAll(r0, script(n, cb.id).actions);
    var lr1 := LiveActAll(lr.(trace := lr.trace + [Called(cb.id)]), script(n, cb.id).actions);
    KeepFirst(snapshot, lr.live);
    AfterCall(r, lr, moved, snapshot, script(n, cb.id).actions);
    ActAllKept(t0, r0, script(n, cb.id).actions, rule);
    KeepFirst(snapshot, lr1.live);
    if cb.id !in lr1.live.watches {
      if script(n, cb.id).again {
        SkipInStep(r1, lr1, moved, snapshot);
        DeliverKept(t0, r1, lr1, moved, rest, script, n + 1, rule);
      }
    } else if script(n, cb.id).again {
      MoveInStep(r1, lr1, moved, snapshot);
      MoveKept(t0, r1, lr1, moved, snapshot, rule);
      DeliverKept(t0, r1.(table := Move(r1.table, moved, cb)), lr1, moved, rest, script, n + 1, rule);
    } else {
      RemoveInStep(r1, lr1, moved, snapshot);
      RemoveKept(t0, r1.table, moved, cb.id, true, rule);
      DeliverKept(t0, Run(RemoveCallback(r1.table, moved, cb.id, true), r1.trace + [Removed(cb.id)]),
                  Unregister(lr1, cb.id), moved, rest, script, n + 1, rule);
    }
  }

  lemma StartKept(t: Table, l: Live, rule: string)
    requires Stands(t, l, None)
    ensures Kept(t, t, rule)
  {
    if rule in t.listeners {
      IdsKnown(t, l, None, rule);
    }
  }

  /** A delivery leaves the watches of every rule in the order in which they stood, and those that were added
      meanwhile in the order in which they were added. */
  lemma DeliveryKeepsOrder(t: Table, l: Live, moved: string, script: (nat, nat) -> Call, rule: string)
    requires Stands(t, l, None) && moved in t.listeners
    ensures Dispatch(t, moved, script).Done? ==> Kept(t, Dispatch(t, moved, script).run.table, rule)
  {
    var locked := SetLock(t, moved);
    LockStands(t, l, moved);
    StartKept(t, l, rule);
    LockKept(t, l, moved, rule);
    var cbs := t.listeners[moved].callbacks;
    DeliverKept(t, Run(locked, []), LiveRun(l, []), moved, cbs, script, 0, rule);
    DeliverIsWalk(Run(locked, []), LiveRun(l, []), moved, cbs, script, 0);
    var out := Deliver(Run(locked, []), moved, script, 0);
    if out.Done? {
      SameLine(t, out.run.table, Restore(out.run.table, moved), rule);
    }
  }

  lemma LockKept(t: Table, l: Live, moved: string, rule: string)
    requires Stands(t, l, None) && moved in t.listeners && Kept(t, t, rule)
    ensures Kept(t, SetLock(t, moved), rule)
  {
    IdsKnown(t, l, None, moved);
    assert Line(SetLock(t, moved), rule) == Line(t, rule);
  }

  // ---------- every run ----------

  lemma StepKeepsOrder(t: Table, l: Live, step: Step, rule: string)
    requires Stands(t, l, None) && Apply(t, step).Some?
    ensures Kept(t, Apply(t, step).value, rule)
  {
    StartKept(t, l, rule);
    match step
    case Do(a) => ActKept(t, Run(t, []), a, rule);
    case Signal(moved, script) =>
      if moved in t.listeners { DeliveryKeepsOrder(t, l, moved, script, rule); }
  }

  lemma {:induction false} RunKeepsOrder(steps: seq<Step>, more: seq<Step>, rule: string)
    requires After(steps + more).Some?
    ensures After(steps).Some? && SameOrder(After(steps).value, After(steps + more).value, rule)
    decreases |more|
  {
    if more == [] {
      assert steps + more == steps;
    } else {
      var front, step := more[..|more| - 1], more[|more| - 1];
      assert (steps + more)[..|steps + more| - 1] == steps + front;
      RunKeepsOrder(steps, front, rule);
      var t := After(steps + front).value;
      var l := AlwaysStands(steps + front);
      StepKeepsOrder(t, l, step, rule);
      SameOrderThen(After(steps).value, t, After(steps + more).value, rule);
    }
  }

  lemma {:induction false} CalledInOrder(calls: seq<nat>, cbs: seq<Callback>, i: nat, j: nat)
    requires InOrder(calls, cbs) && i < j < |calls|
    ensures Before(cbs, calls[i], calls[j])
    decreases |cbs|
  {
    assert cbs == [cbs[0]] + cbs[1..];
    BeforeAppend([cbs[0]], cbs[1..], calls[i], calls[j]);
    if calls[0] != cbs[0].id {
      CalledInOrder(calls, cbs[1..], i, j);
    } else if i > 0 {
      CalledInOrder(calls[1..], cbs[1..], i - 1, j - 1);
    } else {
      assert calls[1..][j - 1] == calls[j];
      InOrderMember(calls[1..], cbs[1..], calls[j]);
      assert [cbs[0]][0].id == calls[0];
    }
  }

  lemma OneWayOnly(cbs: seq<Callback>, a: nat, b: nat)
    requires Distinct(cbs) && Before(cbs, a, b)
    ensures !Before(cbs, b, a)
  {
  }

  ghost function CallsAfter(steps: seq<Step>, rule: string, script: (nat, nat) -> Call): seq<nat> {
    if After(steps).Some? && rule in After(steps).value.listeners
    then CallsOf(Dispatch(After(steps).value, rule, script).run.trace) else []
  }

  lemma CalledBefore(steps: seq<Step>, rule: string, script: (nat, nat) -> Call, i: nat, j: nat)
    requires After(steps).Some? && i < j < |CallsAfter(steps, rule, script)|
    ensures var calls, t := CallsAfter(steps, rule, script), After(steps).value;
            && Before(Line(t, rule), calls[i], calls[j]) && Distinct(Line(t, rule))
            && calls[i] <= t.lastId && calls[j] <= t.lastId
  {
    var t, calls := After(steps).value, CallsAfter(steps, rule, script);
    var l := AlwaysStands(steps);
    DeliveryCorrect(t, l, rule, script);
    var cbs := t.listeners[rule].callbacks;
    CalledInOrder(calls, cbs, i, j);
    IdsKnown(t, l, None, rule);
    assert Line(t, rule) == cbs;
  }

  /** Over any run, two watches that are called by a delivery and again by a later one are called in the same
      order both times. */
  lemma CalledInTheSameOrder(steps: seq<Step>, more: seq<Step>, rule: string, script: (nat, nat) -> Call,
                             later: (nat, nat) -> Call, i: nat, j: nat, i': nat, j': nat)
    requires After(steps + more).Some?
    requires i < |CallsAfter(steps, rule, script)| && j < |CallsAfter(steps, rule, script)|
    requires i' < |CallsAfter(steps + more, rule, later)| && j' < |CallsAfter(steps + more, rule, later)|
    requires CallsAfter(steps, rule, script)[i] == CallsAfter(steps + more, rule, later)[i']
    requires CallsAfter(steps, rule, script)[j] == CallsAfter(steps + more, rule, later)[j']
    ensures i < j ==> i' < j'
  {
    RunKeepsOrder(steps, more, rule);
    if i < j && j' < i' {
      CalledBefore(steps, rule, script, i, j);
      CalledBefore(steps + more, rule, later, j', i');
      var calls := CallsAfter(steps, rule, script);
      OneWayOnly(Line(After(steps).value, rule), calls[i], calls[j]);
    } else if i < j && i' == j' {
      CalledBefore(steps, rule, script, i, j);
    }
  }

  /** What is left of a rule when a watch is removed: the filter goes exactly when nothing is left in its list,
      it is not being delivered and the bus accepts dropping the rule. */
  lemma DroppedExactly(t: Table, rule: string, id: nat, unmatched: bool)
    requires rule in t.listeners && Distinct(t.listeners[rule].callbacks)
    ensures rule !in RemoveCallback(t, rule, id, unmatched).listeners <==>
              && unmatched && !t.listeners[rule].lock
              && forall other :: Holds(t.listeners[rule].callbacks, other) ==> other == id
  {
    var cbs := t.listeners[rule].callbacks;
    forall other: nat
      ensures Holds(Without(cbs, id), other) <==> Holds(cbs, other) && other != id
    {
      WithoutHolds(cbs, id, other);
    }
    var left := Without(cbs, id);
    if left != [] {
      assert Holds(left, left[0].id);
    }
  }
}
