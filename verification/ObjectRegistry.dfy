/** The registration calls of libgdbus/object.c on one connection, step by step. */
module ObjectRegistry {
  import opened Bytes
  import opened ObjectPaths
  import opened Introspection

  lemma {:induction false} WithoutAt(interfaces: seq<Interface>, name: string, i: nat)
    requires i < |interfaces| && interfaces[i].name == name
    requires forall j :: 0 <= j < i ==> interfaces[j].name != name
    ensures Without(interfaces, name) == interfaces[..i] + interfaces[i + 1..]
  {
    if i == 0 {
    } else {
      WithoutAt(interfaces[1..], name, i - 1);
      assert interfaces[..i] + interfaces[i + 1..]
          == [interfaces[0]] + (interfaces[1..][..i - 1] + interfaces[1..][i..]);
    }
  }

  /** find_interface. */
  method FindInterface(interfaces: seq<Interface>, name: string) returns (found: Option<nat>)
    ensures found.None? <==> !Has(interfaces, name)
    ensures found.Some? ==> found.value < |interfaces| && interfaces[found.value].name == name
    ensures found.Some? ==> forall j :: 0 <= j < found.value ==> interfaces[j].name != name
  {
    var i := 0;
    while i < |interfaces|
      invariant 0 <= i <= |interfaces|
      invariant forall j :: 0 <= j < i ==> interfaces[j].name != name
    {
      if interfaces[i].name == name {
        return Some(i);
      }
      i := i + 1;
    }
    return None;
  }

  /** What happens to an object that is about to go does not matter. */
  lemma DyingObject(reg: Registry, path: string, o: Object)
    requires path in reg
    ensures Cleared(reg[path := o], path) - {path} == Cleared(reg, path) - {path}
  {
  }

  function Lacking(o: Object, name: string): Object {
    o.(interfaces := Without(o.interfaces, name))
  }

  class Connection {
    var objects: Registry

    constructor ()
      ensures objects == map[]
    {
      objects := map[];
    }

    method Drop(path: string)
      requires path in objects
      modifies this
      ensures objects == old(objects)[path := old(objects)[path].(cache := None)]
    {
      objects := objects[path := objects[path].(cache := None)];
    }

    /** invalidate_parent_data: clears the nearest registered ancestor after all those above it, and
        returns it. */
    method InvalidateParents(path: string) returns (nearest: Option<string>)
      modifies this
      ensures objects == Cleared(old(objects), path)
      ensures nearest.Some? ==> nearest.value in objects && nearest.value in Ancestors(path)
      ensures nearest.None? ==> forall q :: q in Ancestors(path) ==> q !in objects
      decreases |path|
    {
      var parent := ParentPath(path);
      if parent.None? {
        return None;
      }
      var above := InvalidateParents(parent.value);
      nearest := if parent.value in objects then parent else above;
      if nearest.Some? {
        Drop(nearest.value);
      }
    }

    method RemoveInterface(path: string, name: string) returns (ok: bool)
      requires path in objects
      modifies this
      ensures ok <==> Has(old(objects)[path].interfaces, name)
      ensures objects == if ok then old(objects)[path := Lacking(old(objects)[path], name)] else old(objects)
    {
      var o := objects[path];
      var found := FindInterface(o.interfaces, name);
      if found.None? {
        return false;
      }
      WithoutAt(o.interfaces, name, found.value);
      objects := objects[path := o.(interfaces := o.interfaces[..found.value] + o.interfaces[found.value + 1..])];
      return true;
    }

    method ObjectPathRef(path: string, accepted: bool) returns (ok: bool)
      modifies this
      ensures ok <==> PathRef(old(objects), path, accepted).Some?
      ensures objects == if ok then PathRef(old(objects), path, accepted).value else old(objects)
      ensures ok ==> path in objects
    {
      if path in objects {
        objects := objects[path := objects[path].(refcount := objects[path].refcount + 1)];
        return true;
      }
      if !accepted || !ValidPath(path) {
        return false;
      }
      objects := objects[path := Object(1, [], Some(Doc([], {})))];
      var _ := InvalidateParents(path);
      NotItsOwnAncestor(path);
      objects := objects[path := objects[path].(interfaces := [INTROSPECTABLE_IFACE])];
      return true;
    }

    method ObjectPathUnref(path: string)
      modifies this
      ensures objects == PathUnref(old(objects), path)
    {
      if path !in objects {
        return;
      }
      if objects[path].refcount > 1 {
        objects := objects[path := objects[path].(refcount := objects[path].refcount - 1)];
        return;
      }
      var _ := RemoveInterface(path, INTROSPECTABLE);
      var _ := RemoveInterface(path, PROPERTIES);
      assert objects == old(objects)[path := objects[path]];
      DyingObject(old(objects), path, objects[path]);
      var _ := InvalidateParents(path);
      objects := objects - {path};
    }

    method RegisterInterface(path: string, iface: Interface, enabled: bool, accepted: bool) returns (ok: bool)
      modifies this
      ensures (objects, ok) == Register(old(objects), path, iface, enabled, accepted)
    {
      var known := ObjectPathRef(path, accepted);
      if !known {
        return false;
      }
      ghost var reg := objects;
      var found := FindInterface(objects[path].interfaces, iface.name);
      if found.Some? || !Usable(iface.table, enabled) {
        ObjectPathUnref(path);
        return false;
      }
      objects := objects[path := objects[path].(interfaces := objects[path].interfaces + [iface])];
      if iface.table.properties.Some? {
        found := FindInterface(objects[path].interfaces, PROPERTIES);
        if found.None? {
          objects := objects[path := objects[path].(interfaces := objects[path].interfaces + [PROPERTIES_IFACE])];
        }
      }
      Drop(path);
      assert objects == reg[path := Object(reg[path].refcount, With(reg[path].interfaces, iface), None)];
      return true;
    }

    method UnregisterInterface(path: string, name: string) returns (ok: bool)
      modifies this
      ensures (objects, ok) == Unregister(old(objects), path, name)
    {
      if path !in objects {
        return false;
      }
      ok := RemoveInterface(path, name);
      if ok {
        Drop(path);
        assert objects == old(objects)[path := Lacking(old(objects)[path], name).(cache := None)];
        ObjectPathUnref(path);
      }
    }

    /** The handler of Introspect; a cached document is sent as it is. */
    method HandleIntrospect(path: string) returns (doc: Option<Doc>)
      modifies this
      ensures (objects, doc) == Introspect(old(objects), path)
    {
      if path !in objects {
        return None;
      }
      var found := FindInterface(objects[path].interfaces, INTROSPECTABLE);
      if found.None? {
        return None;
      }
      if objects[path].cache.None? {
        objects := objects[path := objects[path].(cache := Some(Regenerate(objects, path)))];
      }
      return objects[path].cache;
    }
  }
}
