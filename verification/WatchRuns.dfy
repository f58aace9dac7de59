/** Every table that the watch calls can produce, and every delivery from it. */
module WatchRuns {
  import opened Bytes
  import opened Watch

  /** What the main loop does: a call from the application, or the delivery of a signal. */
  datatype Step = Do(action: Action) | Signal(rule: string, script: (nat, nat) -> Call)

  const NO_WATCHES := Table(map[], 0)

  /** The table after the steps; None once a delivery has gone wrong. */
  ghost function After(steps: seq<Step>): Option<Table> {
    if steps == [] then Some(NO_WATCHES)
    else
      match After(steps[..|steps| - 1])
      case None => None
      case Some(t) => Apply(t, steps[|steps| - 1])
  }

  ghost function Apply(t: Table, step: Step): Option<Table> {
    match step
    case Do(a) => Some(Act(Run(t, []), a).table)
    case Signal(rule, script) =>
      if rule !in t.listeners then Some(t)
      else
        match Dispatch(t, rule, script)
        case Done(r) => Some(r.table)
        case Fault(_) => None
  }

  lemma NothingStands()
    ensures Stands(NO_WATCHES, Live(map[], 0), None)
  {
  }

  lemma DoStands(t: Table, l: Live, a: Action) returns (l': Live)
    requires Stands(t, l, None)
    ensures Stands(Act(Run(t, []), a).table, l', None)
  {
    match a
    case AddWatch(rule, hasFunc, granted) =>
      AddStands(t, l, rule, hasFunc, None);
      l' := if granted then Live(l.watches[l.lastId + 1 := rule], l.lastId + 1) else l;
    case RemoveWatch(id, unmatched) =>
      RemoveActs(Run(t, []), l, id, unmatched, None);
      if id in l.watches && Registered(t, l.watches[id], id) {
        RemoveStands(t, l, l.watches[id], id, unmatched, None);
        l' := l.(watches := l.watches - {id});
      } else {
        l' := l;
      }
  }

  /** Every table that arises holds each registered watch once, under its own rule, and nothing else. */
  lemma {:induction false} AlwaysStands(steps: seq<Step>) returns (l: Live)
    requires After(steps).Some?
    ensures Stands(After(steps).value, l, None)
  {
    if steps == [] {
      NothingStands();
      l := Live(map[], 0);
    } else {
      var t := After(steps[..|steps| - 1]).value;
      l := AlwaysStands(steps[..|steps| - 1]);
      match steps[|steps| - 1]
      case Do(a) => l := DoStands(t, l, a);
      case Signal(rule, script) =>
        if rule in t.listeners {
          DispatchIsWalk(t, l, rule, script);
          l := Walk(LiveRun(l, []), t.listeners[rule].callbacks, script, 0).run.live;
        }
    }
  }

  /** After any run, any delivery is correct: nested adds and removes included. */
  lemma EveryDelivery(steps: seq<Step>, rule: string, script: (nat, nat) -> Call)
    requires After(steps).Some? && rule in After(steps).value.listeners
    ensures Delivered(After(steps).value, rule, script)
  {
    var l := AlwaysStands(steps);
    DeliveryCorrect(After(steps).value, l, rule, script);
  }

  /** Callbacks that never remove their own watch and then return FALSE; this can be checked beforehand. */
  ghost predicate Considerate(script: (nat, nat) -> Call) {
    forall n: nat, id: nat :: !SelfFreeing(script(n, id), id)
  }

  /** With such callbacks every delivery after any run ends well, so the run goes on. */
  lemma ConsiderateDelivery(steps: seq<Step>, rule: string, script: (nat, nat) -> Call)
    requires After(steps).Some? && rule in After(steps).value.listeners && Considerate(script)
    ensures Dispatch(After(steps).value, rule, script).Done? && Delivered(After(steps).value, rule, script)
  {
    EveryDelivery(steps, rule, script);
  }

  /** A run whose callbacks are all of this kind never goes wrong. */
  lemma {:induction false} ConsiderateRuns(steps: seq<Step>)
    requires forall i :: 0 <= i < |steps| && steps[i].Signal? ==> Considerate(steps[i].script)
    ensures After(steps).Some?
  {
    if steps == [] {
    } else {
      var front, step := steps[..|steps| - 1], steps[|steps| - 1];
      ConsiderateRuns(front);
      if step.Signal? && step.rule in After(front).value.listeners {
        ConsiderateDelivery(front, step.rule, step.script);
      }
    }
  }

  /** A callback that removes its own watch and returns FALSE. */
  const SELF_REMOVING: (nat, nat) -> Call := (n: nat, id: nat) => Call([RemoveWatch(id, true)], false)

  /** One watch whose callback behaves so is enough for a delivery to go wrong. */
  lemma SelfFreeingFaults()
    ensures var t := Add(NO_WATCHES, "r", true);
            Dispatch(t, "r", SELF_REMOVING).Fault? && SelfFreeing(SELF_REMOVING(0, 1), 1)
  {
    var t := Add(NO_WATCHES, "r", true);
    var l := Live(map[1 := "r"], 1);
    NothingStands();
    AddStands(NO_WATCHES, Live(map[], 0), "r", true, None);
    assert (map[])[1 := "r"] == l.watches;
    assert t.listeners["r"].callbacks == [Callback(1, true)];
    DispatchIsWalk(t, l, "r", SELF_REMOVING);
    assert [] + [Called(1)] == [Called(1)];
    assert SELF_REMOVING(0, 1).actions[0] == RemoveWatch(1, true);
    GoneIffRemoved(LiveRun(l, [Called(1)]), SELF_REMOVING(0, 1).actions, 1);
    assert Walk(LiveRun(l, []), [Callback(1, true)], SELF_REMOVING, 0).Fault?;
  }
}
