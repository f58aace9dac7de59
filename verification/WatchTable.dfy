/** The watch table as imperative code, proved against the functions of module Watch. */
module WatchTable {
  import opened Bytes
  import opened Watch

  class Listeners {
    var listeners: map<string, Filter>
    var listenerId: nat
    ghost var trace: seq<Event>

    ghost function State(): Run
      reads this
    {
      Run(Table(listeners, listenerId), trace)
    }

    constructor ()
      ensures State() == Run(Table(map[], 0), []) && Stands(State().table, Live(map[], 0), None)
    {
      listeners, listenerId, trace := map[], 0, [];
    }

    /** g_dbus_add_signal_watch: the new id, or 0 when no filter could be had for the rule. */
    method AddSignalWatch(rule: string, hasFunc: bool, granted: bool) returns (id: nat)
      modifies this
      ensures State() == Act(old(State()), AddWatch(rule, hasFunc, granted))
      ensures id == if granted then old(listenerId) + 1 else 0
    {
      if !granted {
        return 0;
      }
      var data := if rule in listeners then listeners[rule] else FRESH;
      listenerId := listenerId + 1;
      var cb := Callback(listenerId, hasFunc);
      if data.lock {
        data := data.(processed := data.processed + [cb]);
      } else {
        data := data.(callbacks := data.callbacks + [cb]);
      }
      listeners := listeners[rule := data];
      trace := trace + [Added(listenerId, rule)];
      id := listenerId;
    }

    /** filter_data_find_callback. */
    static method FindCallback(data: Filter, id: nat) returns (found: bool)
      ensures found <==> Owns(data, id)
    {
      for i := 0 to |data.callbacks|
        invariant forall j :: 0 <= j < i ==> data.callbacks[j].id != id
      {
        if data.callbacks[i].id == id {
          return true;
        }
      }
      for i := 0 to |data.processed|
        invariant forall j :: 0 <= j < i ==> data.processed[j].id != id
      {
        if data.processed[i].id == id {
          return true;
        }
      }
      return false;
    }

    /** filter_data_remove_callback; true when the filter itself was dropped. */
    method DropCallback(rule: string, id: nat, unmatched: bool) returns (dropped: bool)
      requires rule in listeners
      modifies this
      ensures State() == Run(RemoveCallback(old(State().table), rule, id, unmatched), old(trace) + [Removed(id)])
      ensures old(listeners[rule].lock) ==> !dropped
    {
      var data := listeners[rule];
      data := data.(callbacks := Without(data.callbacks, id));
      data := data.(processed := Without(data.processed, id));
      trace := trace + [Removed(id)];
      if data.callbacks != [] || data.lock || !unmatched {
        listeners := listeners[rule := data];
        return false;
      }
      listeners := listeners - {rule};
      return true;
    }

    /** g_dbus_remove_watch: true exactly when the watch was registered. */
    method RemoveById(id: nat, unmatched: bool, ghost l: Live, ghost locked: Option<string>) returns (found: bool)
      requires Stands(State().table, l, locked)
      modifies this
      ensures State() == Act(old(State()), RemoveWatch(id, unmatched))
      ensures found <==> id in l.watches
    {
      RemoveActs(State(), l, id, unmatched, locked);
      assert id in l.watches ==> Registered(State().table, l.watches[id], id);
      if id == 0 {
        return false;
      }
      var keys := listeners.Keys;
      while keys != {}
        invariant keys <= listeners.Keys && State() == old(State())
        invariant forall rule :: rule in listeners && rule !in keys ==> !Owns(listeners[rule], id)
        decreases keys
      {
        var rule :| rule in keys;
        var has := FindCallback(listeners[rule], id);
        if has {
          assert Registered(State().table, rule, id);
          var _ := DropCallback(rule, id, unmatched);
          return true;
        }
        keys := keys - {rule};
      }
      return false;
    }

    /** The actions of one callback invocation. */
    method Perform(actions: seq<Action>, ghost lr: LiveRun, ghost rule: string)
      requires Stands(State().table, lr.live, Some(rule)) && Locked(State().table, rule) && trace == lr.trace
      modifies this
      ensures State() == ActAll(old(State()), actions)
    {
      var i := 0;
      ghost var at := lr;
      while i < |actions|
        invariant 0 <= i <= |actions|
        invariant Stands(State().table, at.live, Some(rule)) && Locked(State().table, rule) && trace == at.trace
        invariant ActAll(State(), actions[i..]) == ActAll(old(State()), actions)
      {
        ActStands(State(), at, actions[i], rule);
        ActKeepsLock(State(), actions[i], rule);
        ghost var before := at.live;
        at := LiveAct(at, actions[i]);
        assert actions[i..][0] == actions[i] && actions[i..][1..] == actions[i + 1..];
        match actions[i] {
          case AddWatch(r, hasFunc, granted) =>
            var _ := AddSignalWatch(r, hasFunc, granted);
          case RemoveWatch(id, unmatched) =>
            var _ := RemoveById(id, unmatched, before, Some(rule));
        }
        i := i + 1;
      }
    }

    /** One round of the loop of signal_filter; true when the code would go on to use the callback it
        has just freed. */
    method CallFirst(rule: string, call: Call, ghost lr: LiveRun) returns (fault: bool, ghost lr': LiveRun)
      requires Stands(State().table, lr.live, Some(rule)) && Locked(State().table, rule) && trace == lr.trace
      requires listeners[rule].callbacks != []
      modifies this
      ensures Round(old(State()), rule, call) == if fault then Fault(State()) else Done(State())
      ensures Stands(State().table, lr'.live, Some(rule)) && Locked(State().table, rule) && trace == lr'.trace
    {
      var cb := listeners[rule].callbacks[0];
      ghost var cbs := listeners[rule].callbacks;
      lr' := lr;
      if cb.hasFunc {
        trace := trace + [Called(cb.id)];
        lr' := lr.(trace := lr.trace + [Called(cb.id)]);
        ActAllStands(State(), lr', call.actions, rule);
        Perform(call.actions, lr', rule);
        lr' := LiveActAll(lr', call.actions);
        var still := Holds(listeners[rule].callbacks, cb.id);
        if !call.again {
          if !still {
            return true, lr';
          }
          assert Registered(State().table, rule, cb.id);
          RemoveStands(State().table, lr'.live, rule, cb.id, true, Some(rule));
          lr' := Unregister(lr', cb.id);
          var _ := DropCallback(rule, cb.id, true);
          return false, lr';
        }
        if !still {
          return false, lr';
        }
        StillThere(cbs, lr'.live, cb);
      }
      MoveStands(State().table, lr'.live, rule, cb);
      var data := listeners[rule];
      listeners := listeners[rule := data.(callbacks := Without(data.callbacks, cb.id),
                                           processed := data.processed + [cb])];
      return false, lr';
    }

    /** signal_filter. */
    method SignalFilter(rule: string, script: (nat, nat) -> Call, ghost lr: LiveRun)
      returns (fault: bool, ghost lr': LiveRun)
      requires Stands(State().table, lr.live, Some(rule)) && Locked(State().table, rule) && trace == lr.trace
      modifies this
      ensures Deliver(old(State()), rule, script, 0) == if fault then Fault(State()) else Done(State())
      ensures Stands(State().table, lr'.live, Some(rule)) && Locked(State().table, rule) && trace == lr'.trace
    {
      var n := 0;
      lr' := lr;
      while listeners[rule].callbacks != []
        invariant Stands(State().table, lr'.live, Some(rule)) && Locked(State().table, rule) && trace == lr'.trace
        invariant Deliver(State(), rule, script, n) == Deliver(old(State()), rule, script, 0)
        decreases |listeners[rule].callbacks|
      {
        var cb := listeners[rule].callbacks[0];
        fault, lr' := CallFirst(rule, script(n, cb.id), lr');
        if fault {
          return;
        }
        n := if cb.hasFunc then n + 1 else n;
      }
      fault := false;
    }

    /** The locked section of message_filter for the listener of `rule`. */
    method DeliverSignal(rule: string, script: (nat, nat) -> Call, ghost l: Live) returns (fault: bool)
      requires Stands(State().table, l, None) && rule in listeners && trace == []
      modifies this
      ensures Dispatch(old(State().table), rule, script) == if fault then Fault(State()) else Done(State())
    {
      LockStands(State().table, l, rule);
      listeners := listeners[rule := listeners[rule].(lock := true)];
      ghost var lr;
      fault, lr := SignalFilter(rule, script, LiveRun(l, []));
      if !fault {
        listeners := listeners[rule := Filter(listeners[rule].processed, [], false)];
      }
    }
  }
}
