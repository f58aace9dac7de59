/** The object registry of libgdbus/object.c: interfaces are registered on paths, and each object keeps a
    lazily built introspection document that must be thrown away whenever its interfaces or the registered
    paths below it change.  The registry with its caches is shown to answer like one that has none. */
module Introspection {
  import opened Bytes
  import opened ObjectPaths

  datatype Member = Member(text: string, experimental: bool)

  /** What an interface offers; `properties` is None for a null property table. */
  datatype Table = Table(methods: seq<Member>, signals: seq<Member>, properties: Option<seq<Member>>)

  datatype Interface = Interface(name: string, table: Table)

  /** What an introspection text is made from: the interfaces in order and the names of the child nodes. */
  datatype Doc = Doc(interfaces: seq<Interface>, children: set<string>)

  datatype Object = Object(refcount: nat, interfaces: seq<Interface>, cache: Option<Doc>)

  type Registry = map<string, Object>

  const INTROSPECTABLE := "org.freedesktop.DBus.Introspectable"
  const PROPERTIES := "org.freedesktop.DBus.Properties"
  const INTROSPECTABLE_IFACE := Interface(INTROSPECTABLE, Table([Member("Introspect", false)], [], None))
  const PROPERTIES_IFACE :=
    Interface(PROPERTIES, Table([Member("Get", false), Member("Set", false), Member("GetAll", false)],
                                [Member("PropertiesChanged", false)], None))

  /** Some member is not hidden; `enabled` is G_DBUS_FLAG_ENABLE_EXPERIMENTAL. */
  predicate Visible(members: seq<Member>, enabled: bool) {
    exists i :: 0 <= i < |members| && (members[i].experimental ==> enabled)
  }

  predicate Usable(table: Table, enabled: bool) {
    || Visible(table.methods, enabled)
    || Visible(table.signals, enabled)
    || (table.properties.Some? && Visible(table.properties.value, enabled))
  }

  predicate Has(interfaces: seq<Interface>, name: string) {
    exists i :: 0 <= i < |interfaces| && interfaces[i].name == name
  }

  /** The list without its first interface of this name. */
  function Without(interfaces: seq<Interface>, name: string): seq<Interface> {
    if interfaces == [] then []
    else if interfaces[0].name == name then interfaces[1..]
    else [interfaces[0]] + Without(interfaces[1..], name)
  }

  /** The list once an interface has been added: Properties follows the first one with a property table. */
  function With(interfaces: seq<Interface>, iface: Interface): seq<Interface> {
    var more := interfaces + [iface];
    if iface.table.properties.Some? && !Has(more, PROPERTIES) then more + [PROPERTIES_IFACE] else more
  }

  // ---------- what a document shows ----------

  /** dbus_connection_list_registered: the first path element below `path` of everything registered there. */
  function Children(paths: set<string>, path: string): set<string> {
    set p | p in paths && ProperAncestor(path, p) :: ChildName(path, p)
  }

  function Regenerate(reg: Registry, path: string): Doc
    requires path in reg
  {
    Doc(reg[path].interfaces, Children(reg.Keys, path))
  }

  // ---------- the registry as the code changes it ----------

  /** The registry after invalidate_parent_data. */
  function Cleared(reg: Registry, path: string): Registry {
    map q | q in reg :: if q in Ancestors(path) then reg[q].(cache := None) else reg[q]
  }

  /** object_path_ref; a new object starts with an empty document.  `accepted`: libdbus takes the path. */
  function PathRef(reg: Registry, path: string, accepted: bool): (r: Option<Registry>)
    ensures r.Some? ==> path in r.value
  {
    if path in reg then Some(reg[path := reg[path].(refcount := reg[path].refcount + 1)])
    else if !accepted || !ValidPath(path) then None
    else
      var added := reg[path := Object(1, [], Some(Doc([], {})))];
      Some(Cleared(added, path)[path := Object(1, [INTROSPECTABLE_IFACE], Some(Doc([], {})))])
  }

  /** object_path_unref. */
  function PathUnref(reg: Registry, path: string): Registry {
    if path !in reg then reg
    else if reg[path].refcount > 1 then reg[path := reg[path].(refcount := reg[path].refcount - 1)]
    else Cleared(reg, path) - {path}
  }

  /** g_dbus_register_interface. */
  function Register(reg: Registry, path: string, iface: Interface, enabled: bool, accepted: bool): (Registry, bool) {
    match PathRef(reg, path, accepted)
    case None => (reg, false)
    case Some(r) =>
      if Has(r[path].interfaces, iface.name) || !Usable(iface.table, enabled) then (PathUnref(r, path), false)
      else (r[path := Object(r[path].refcount, With(r[path].interfaces, iface), None)], true)
  }

  /** g_dbus_unregister_interface. */
  function Unregister(reg: Registry, path: string, name: string): (Registry, bool) {
    if path !in reg || !Has(reg[path].interfaces, name) then (reg, false)
    else
      (PathUnref(reg[path := Object(reg[path].refcount, Without(reg[path].interfaces, name), None)], path), true)
  }

  /** The Introspect method; None when no object, or no Introspectable interface, is there to handle it. */
  function Introspect(reg: Registry, path: string): (Registry, Option<Doc>) {
    if path !in reg || !Has(reg[path].interfaces, INTROSPECTABLE) then (reg, None)
    else if reg[path].cache.Some? then (reg, reg[path].cache)
    else
      var doc := Regenerate(reg, path);
      (reg[path := reg[path].(cache := Some(doc))], Some(doc))
  }

  datatype Op =
    | RegisterOp(path: string, iface: Interface, accepted: bool)
    | UnregisterOp(path: string, name: string)
    | IntrospectOp(path: string)

  datatype Reply = Status(ok: bool) | Text(doc: Option<Doc>)

  function Apply(reg: Registry, op: Op, enabled: bool): (Registry, Reply) {
    match op
    case RegisterOp(path, iface, accepted) =>
      var r := Register(reg, path, iface, enabled, accepted);
      (r.0, Status(r.1))
    case UnregisterOp(path, name) =>
      var r := Unregister(reg, path, name);
      (r.0, Status(r.1))
    case IntrospectOp(path) =>
      var r := Introspect(reg, path);
      (r.0, Text(r.1))
  }

  function Run(ops: seq<Op>, enabled: bool): (Registry, seq<Reply>) {
    if ops == [] then (map[], [])
    else
      var before := Run(ops[..|ops| - 1], enabled);
      var r := Apply(before.0, ops[|ops| - 1], enabled);
      (r.0, before.1 + [r.1])
  }

  // ---------- the registry without caches ----------

  datatype Plain = Plain(refcount: nat, interfaces: seq<Interface>)

  type PlainRegistry = map<string, Plain>

  function PlainRegister(reg: PlainRegistry, path: string, iface: Interface, enabled: bool, accepted: bool)
    : (PlainRegistry, bool)
  {
    var was := if path in reg then reg[path] else Plain(0, [INTROSPECTABLE_IFACE]);
    if || (path !in reg && (!accepted || !ValidPath(path)))
       || Has(was.interfaces, iface.name)
       || !Usable(iface.table, enabled) then (reg, false)
    else (reg[path := Plain(was.refcount + 1, With(was.interfaces, iface))], true)
  }

  function PlainUnregister(reg: PlainRegistry, path: string, name: string): (PlainRegistry, bool) {
    if path !in reg || !Has(reg[path].interfaces, name) then (reg, false)
    else if reg[path].refcount <= 1 then (reg - {path}, true)
    else (reg[path := Plain(reg[path].refcount - 1, Without(reg[path].interfaces, name))], true)
  }

  function PlainIntrospect(reg: PlainRegistry, path: string): Option<Doc> {
    if path !in reg || !Has(reg[path].interfaces, INTROSPECTABLE) then None
    else Some(Doc(reg[path].interfaces, Children(reg.Keys, path)))
  }

  function PlainApply(reg: PlainRegistry, op: Op, enabled: bool): (PlainRegistry, Reply) {
    match op
    case RegisterOp(path, iface, accepted) =>
      var r := PlainRegister(reg, path, iface, enabled, accepted);
      (r.0, Status(r.1))
    case UnregisterOp(path, name) =>
      var r := PlainUnregister(reg, path, name);
      (r.0, Status(r.1))
    case IntrospectOp(path) => (reg, Text(PlainIntrospect(reg, path)))
  }

  function PlainRun(ops: seq<Op>, enabled: bool): (PlainRegistry, seq<Reply>) {
    if ops == [] then (map[], [])
    else
      var before := PlainRun(ops[..|ops| - 1], enabled);
      var r := PlainApply(before.0, ops[|ops| - 1], enabled);
      (r.0, before.1 + [r.1])
  }

  // ---------- freshness of the caches ----------

  predicate CacheOk(reg: Registry, q: string)
    requires q in reg
  {
    && ValidPath(q)
    && reg[q].refcount >= 1
    && (reg[q].cache.Some? ==> reg[q].cache.value == Regenerate(reg, q))
  }

  ghost predicate Fresh(reg: Registry) {
    forall q :: q in reg ==> CacheOk(reg, q)
  }

  ghost function View(reg: Registry): PlainRegistry {
    map q | q in reg :: Plain(reg[q].refcount, reg[q].interfaces)
  }

  lemma ViewReplaced(reg: Registry, path: string, o: Object)
    ensures View(reg[path := o]) == View(reg)[path := Plain(o.refcount, o.interfaces)]
  {
  }

  /** Adding or removing a path changes the children only of its proper ancestors. */
  lemma ChildrenUnchanged(paths: set<string>, p: string, q: string)
    requires !ProperAncestor(q, p)
    ensures Children(paths + {p}, q) == Children(paths, q) == Children(paths - {p}, q)
  {
  }

  /** The walk to the root clears every object whose document depends on whether `path` is registered. */
  lemma ClearedCovers(reg: Registry, path: string, q: string)
    requires ValidPath(path) && ValidPath(q) && q in reg
    ensures Cleared(reg, path)[q] == if ProperAncestor(q, path) then reg[q].(cache := None) else reg[q]
  {
    AncestorsExact(q, path);
  }

  lemma NotItsOwnAncestor(path: string)
    requires ValidPath(path)
    ensures path !in Ancestors(path)
  {
    AncestorsExact(path, path);
  }

  /** Replacing one object by another without cache, or with the same interfaces and cache. */
  lemma ReplacedFresh(reg: Registry, path: string, o: Object)
    requires Fresh(reg) && path in reg && o.refcount >= 1
    requires o.cache.None? || (o.interfaces == reg[path].interfaces && o.cache.value == Regenerate(reg, path))
    ensures Fresh(reg[path := o])
  {
    var reg' := reg[path := o];
    assert reg'.Keys == reg.Keys;
    forall q | q in reg'
      ensures CacheOk(reg', q)
    {
      assert CacheOk(reg, q);
    }
  }

  /** A new object, once the ancestors are cleared, spoils no cache but its own. */
  lemma AddedFresh(reg: Registry, path: string, stale: Object, o: Object)
    requires Fresh(reg) && path !in reg && ValidPath(path) && o.cache.None? && o.refcount >= 1
    ensures Fresh(Cleared(reg[path := stale], path)[path := o])
    ensures View(Cleared(reg[path := stale], path)[path := o]) == View(reg)[path := Plain(o.refcount, o.interfaces)]
  {
    var added := reg[path := stale];
    var reg' := Cleared(added, path)[path := o];
    assert reg'.Keys == reg.Keys + {path};
    forall q | q in reg'
      ensures CacheOk(reg', q)
    {
      if q != path {
        assert CacheOk(reg, q);
        ClearedCovers(added, path, q);
        if !ProperAncestor(q, path) { ChildrenUnchanged(reg.Keys, path, q); }
      }
    }
  }

  lemma RemovedFresh(reg: Registry, path: string)
    requires Fresh(reg) && path in reg
    ensures Fresh(Cleared(reg, path) - {path})
    ensures View(Cleared(reg, path) - {path}) == View(reg) - {path}
  {
    var reg' := Cleared(reg, path) - {path};
    assert reg'.Keys == reg.Keys - {path};
    assert CacheOk(reg, path);
    forall q | q in reg'
      ensures CacheOk(reg', q)
    {
      assert CacheOk(reg, q);
      ClearedCovers(reg, path, q);
      if !ProperAncestor(q, path) { ChildrenUnchanged(reg.Keys, path, q); }
    }
  }

  /** A registration of a new path that fails leaves every object as it was, up to dropped caches. */
  lemma UndoneFresh(reg: Registry, path: string, stale: Object, o: Object)
    requires Fresh(reg) && path !in reg && ValidPath(path)
    ensures var r := Cleared(Cleared(reg[path := stale], path)[path := o], path) - {path};
            Fresh(r) && View(r) == View(reg)
  {
    var added := reg[path := stale];
    var mid := Cleared(added, path)[path := o];
    var reg' := Cleared(mid, path) - {path};
    assert reg'.Keys == reg.Keys;
    forall q | q in reg'
      ensures CacheOk(reg', q)
    {
      assert CacheOk(reg, q);
      ClearedCovers(added, path, q);
      ClearedCovers(mid, path, q);
    }
  }

  lemma RegisterRefines(reg: Registry, path: string, iface: Interface, enabled: bool, accepted: bool)
    requires Fresh(reg)
    ensures var r := Register(reg, path, iface, enabled, accepted);
            Fresh(r.0) && (View(r.0), r.1) == PlainRegister(View(reg), path, iface, enabled, accepted)
  {
    var r := Register(reg, path, iface, enabled, accepted);
    if path in reg {
      assert CacheOk(reg, path);
      RegisterExisting(reg, path, iface, enabled, accepted);
    } else if accepted && ValidPath(path) {
      RegisterNew(reg, path, iface, enabled, accepted);
    }
  }

  lemma RegisterExisting(reg: Registry, path: string, iface: Interface, enabled: bool, accepted: bool)
    requires Fresh(reg) && path in reg && reg[path].refcount >= 1
    ensures var r := Register(reg, path, iface, enabled, accepted);
            Fresh(r.0) && (View(r.0), r.1) == PlainRegister(View(reg), path, iface, enabled, accepted)
  {
    var r := Register(reg, path, iface, enabled, accepted);
    var was := reg[path];
    if r.1 {
      var o := Object(was.refcount + 1, With(was.interfaces, iface), None);
      assert r.0 == reg[path := o];
      ReplacedFresh(reg, path, o);
      ViewReplaced(reg, path, o);
    } else {
      assert r.0 == reg;
    }
  }

  lemma RegisterNew(reg: Registry, path: string, iface: Interface, enabled: bool, accepted: bool)
    requires Fresh(reg) && path !in reg && accepted && ValidPath(path)
    ensures var r := Register(reg, path, iface, enabled, accepted);
            Fresh(r.0) && (View(r.0), r.1) == PlainRegister(View(reg), path, iface, enabled, accepted)
  {
    var stale := Object(1, [], Some(Doc([], {})));
    var born := Object(1, [INTROSPECTABLE_IFACE], Some(Doc([], {})));
    var mid := Cleared(reg[path := stale], path)[path := born];
    assert PathRef(reg, path, accepted) == Some(mid);
    var r := Register(reg, path, iface, enabled, accepted);
    if r.1 {
      var o := Object(1, With([INTROSPECTABLE_IFACE], iface), None);
      assert r.0 == Cleared(reg[path := stale], path)[path := o];
      AddedFresh(reg, path, stale, o);
    } else {
      assert r.0 == Cleared(mid, path) - {path};
      UndoneFresh(reg, path, stale, born);
    }
  }

  lemma UnregisterLast(reg: Registry, path: string, o: Object)
    requires Fresh(reg) && path in reg && o.cache.None? && o.refcount >= 1
    ensures Fresh(Cleared(reg[path := o], path) - {path})
    ensures View(Cleared(reg[path := o], path) - {path}) == View(reg) - {path}
  {
    ReplacedFresh(reg, path, o);
    RemovedFresh(reg[path := o], path);
    ViewReplaced(reg, path, o);
  }

  lemma UnregisterRefines(reg: Registry, path: string, name: string)
    requires Fresh(reg)
    ensures var r := Unregister(reg, path, name);
            Fresh(r.0) && (View(r.0), r.1) == PlainUnregister(View(reg), path, name)
  {
    var r := Unregister(reg, path, name);
    if r.1 {
      var was := reg[path];
      assert CacheOk(reg, path);
      var o := Object(was.refcount, Without(was.interfaces, name), None);
      if was.refcount > 1 {
        var o' := o.(refcount := was.refcount - 1);
        assert r.0 == reg[path := o'];
        ReplacedFresh(reg, path, o');
        ViewReplaced(reg, path, o');
      } else {
        UnregisterLast(reg, path, o);
      }
    }
  }

  lemma IntrospectRefines(reg: Registry, path: string)
    requires Fresh(reg)
    ensures var r := Introspect(reg, path);
            Fresh(r.0) && View(r.0) == View(reg) && r.1 == PlainIntrospect(View(reg), path)
  {
    assert View(reg).Keys == reg.Keys;
    if path in reg {
      assert CacheOk(reg, path);
      ReplacedFresh(reg, path, reg[path].(cache := Some(Regenerate(reg, path))));
    }
  }

  /** Over every run of register, unregister and Introspect calls each cached document equals what
      regenerating it now would give, and every reply is the one the registry without caches gives. */
  lemma {:induction false} CachesAreInvisible(ops: seq<Op>, enabled: bool)
    ensures Fresh(Run(ops, enabled).0)
    ensures (View(Run(ops, enabled).0), Run(ops, enabled).1) == PlainRun(ops, enabled)
  {
    if ops == [] {
    } else {
      CachesAreInvisible(ops[..|ops| - 1], enabled);
      var reg := Run(ops[..|ops| - 1], enabled).0;
      match ops[|ops| - 1]
      case RegisterOp(path, iface, accepted) => RegisterRefines(reg, path, iface, enabled, accepted);
      case UnregisterOp(path, name) => UnregisterRefines(reg, path, name);
      case IntrospectOp(path) => IntrospectRefines(reg, path);
    }
  }

  // ---------- unregister undoes register ----------

  lemma {:induction false} WithoutAbsent(interfaces: seq<Interface>, iface: Interface, more: seq<Interface>)
    requires !Has(interfaces, iface.name)
    ensures Without(interfaces + [iface] + more, iface.name) == interfaces + more
  {
    var all := interfaces + [iface] + more;
    if interfaces == [] {
      assert all == [iface] + more;
    } else {
      assert all[0] == interfaces[0];
      assert all[1..] == interfaces[1..] + [iface] + more;
      assert !Has(interfaces[1..], iface.name);
      WithoutAbsent(interfaces[1..], iface, more);
      assert interfaces + more == [interfaces[0]] + (interfaces[1..] + more);
    }
  }

  /** Unregistering what was just registered restores the registry exactly when the registration did not
      bring the Properties interface to an object that lacked it. */
  lemma UnregisterUndoes(reg: PlainRegistry, path: string, iface: Interface, enabled: bool, accepted: bool)
    requires PlainRegister(reg, path, iface, enabled, accepted).1
    requires path in reg ==> reg[path].refcount >= 1
    ensures var added := PlainRegister(reg, path, iface, enabled, accepted).0;
            var r := PlainUnregister(added, path, iface.name);
            r.1 && (r.0 == reg <==>
              path !in reg || iface.table.properties.None? || iface.name == PROPERTIES
              || Has(reg[path].interfaces, PROPERTIES))
  {
    var was := if path in reg then reg[path] else Plain(0, [INTROSPECTABLE_IFACE]);
    var added := PlainRegister(reg, path, iface, enabled, accepted).0;
    var now := added[path].interfaces;
    var base := was.interfaces + [iface];
    assert base[|was.interfaces|] == iface;
    assert now[|was.interfaces|] == iface;
    if path in reg {
      var more := if now == base then [] else [PROPERTIES_IFACE];
      assert now == was.interfaces + [iface] + more;
      WithoutAbsent(was.interfaces, iface, more);
      assert was.interfaces + [] == was.interfaces;
      HasSnoc(was.interfaces, iface);
    }
  }

  /** Registering an interface with properties beside one without, and unregistering it, leaves Properties. */
  lemma PropertiesStay()
    ensures var plain := Interface("a", Table([Member("M", false)], [], None));
            var rich := Interface("b", Table([], [], Some([Member("P", false)])));
            var reg := PlainRegister(map[], "/", plain, false, true).0;
            var added := PlainRegister(reg, "/", rich, false, true);
            && added.1
            && PlainUnregister(added.0, "/", "b").0 != reg
  {
    var plain := Interface("a", Table([Member("M", false)], [], None));
    var rich := Interface("b", Table([], [], Some([Member("P", false)])));
    var reg := PlainRegister(map[], "/", plain, false, true).0;
    assert plain.table.methods[0] == Member("M", false) && rich.table.properties.value[0] == Member("P", false);
    assert Usable(plain.table, false) && Usable(rich.table, false);
    DistinctNames();
    assert !Has([INTROSPECTABLE_IFACE], "a");
    assert reg["/"].interfaces == [INTROSPECTABLE_IFACE, plain];
    assert !Has(reg["/"].interfaces, "b") && !Has(reg["/"].interfaces, PROPERTIES);
    UnregisterUndoes(reg, "/", rich, false, true);
  }

  lemma DistinctNames()
    ensures INTROSPECTABLE != "a" && INTROSPECTABLE != "b" && PROPERTIES != "a" && PROPERTIES != "b"
    ensures INTROSPECTABLE != PROPERTIES
  {
    assert |INTROSPECTABLE| != |PROPERTIES|;
  }

  lemma HasSnoc(interfaces: seq<Interface>, iface: Interface)
    ensures Has(interfaces + [iface], PROPERTIES) <==> Has(interfaces, PROPERTIES) || iface.name == PROPERTIES
  {
    var all := interfaces + [iface];
    assert all[|interfaces|] == iface;
    if Has(interfaces, PROPERTIES) {
      var i :| 0 <= i < |interfaces| && interfaces[i].name == PROPERTIES;
      assert all[i].name == PROPERTIES;
    }
  }

  // ---------- when and what an interface is registered ----------

  /** All members of a table: methods, signals and, if there are any, properties. */
  function Members(table: Table): seq<Member> {
    table.methods + table.signals + (if table.properties.Some? then table.properties.value else [])
  }

  lemma VisibleMember(members: seq<Member>, enabled: bool)
    ensures Visible(members, enabled) <==> exists m :: m in members && (m.experimental ==> enabled)
  {
    if Visible(members, enabled) {
      var i :| 0 <= i < |members| && (members[i].experimental ==> enabled);
      assert members[i] in members;
    }
  }

  /** One member of any kind that is not hidden is enough. */
  lemma UsableExactly(table: Table, enabled: bool)
    ensures Usable(table, enabled) <==> exists m :: m in Members(table) && (m.experimental ==> enabled)
  {
    var properties := if table.properties.Some? then table.properties.value else [];
    VisibleMember(table.methods, enabled);
    VisibleMember(table.signals, enabled);
    VisibleMember(properties, enabled);
    assert forall m :: m in Members(table) <==> m in table.methods || m in table.signals || m in properties;
  }

  /** The names in use on a path; a new object starts with Introspectable. */
  ghost predicate NameTaken(reg: PlainRegistry, path: string, name: string) {
    if path in reg then exists i :: 0 <= i < |reg[path].interfaces| && reg[path].interfaces[i].name == name
    else name == "org.freedesktop.DBus.Introspectable"
  }

  /** Exactly when a registration succeeds. */
  lemma RegisterExactly(reg: PlainRegistry, path: string, iface: Interface, enabled: bool, accepted: bool)
    ensures PlainRegister(reg, path, iface, enabled, accepted).1 <==>
              && (path in reg || (accepted && ValidPath(path)))
              && !NameTaken(reg, path, iface.name)
              && exists m :: m in Members(iface.table) && (m.experimental ==> enabled)
  {
    UsableExactly(iface.table, enabled);
    assert [INTROSPECTABLE_IFACE][0].name == "org.freedesktop.DBus.Introspectable";
  }

  /** What a successful registration adds: the interface behind those there are, and the Properties interface behind
      it when it is the first with a property table. */
  lemma RegisterAdds(reg: PlainRegistry, path: string, iface: Interface, enabled: bool, accepted: bool)
    requires PlainRegister(reg, path, iface, enabled, accepted).1
    ensures var r := PlainRegister(reg, path, iface, enabled, accepted).0;
            var was := if path in reg then reg[path].interfaces else [INTROSPECTABLE_IFACE];
            && r.Keys == reg.Keys + {path} && (forall q :: q in reg && q != path ==> r[q] == reg[q])
            && r[path].refcount == (if path in reg then reg[path].refcount else 0) + 1
            && r[path].interfaces[..|was| + 1] == was + [iface]
            && (|r[path].interfaces| == |was| + 2 <==>
                  iface.table.properties.Some? && !Has(was + [iface], "org.freedesktop.DBus.Properties"))
            && (|r[path].interfaces| == |was| + 2 ==>
                  r[path].interfaces[|was| + 1].name == "org.freedesktop.DBus.Properties")
            && |r[path].interfaces| <= |was| + 2
  {
  }
}
