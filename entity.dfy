/**
 * `GearyEntity`: an entity id with the convenience operations that go
 * through the engine. Operations named after a class (`set`, `get<T>`,
 * `has<T>`, `remove<T>`, ...) look the class's id up with
 * `componentId<T>()`, which registers the class on first use.
 */
module Entities {
  import opened Wrappers
  import opened Ids
  import opened Store
  import opened Engines

  /** The classes of a collection of components. */
  function ClassesOf(cs: seq<Component>): set<ClassName> {
    set d | d in cs :: ClassOf(d)
  }

  function SetOf(cs: seq<Component>): set<Component> {
    set d | d in cs
  }

  /** Every class of `cs` has an id in `ids`. */
  predicate AllRegistered(ids: map<ClassName, Id>, cs: seq<Component>) {
    forall i :: 0 <= i < |cs| ==> ClassOf(cs[i]) in ids
  }

  /** The entry after `setAll(cs)`: each component set in turn under its class's id. */
  function SetAllEntry(L: Layout, m: Entry, ids: map<ClassName, Id>, cs: seq<Component>): (r: Entry)
    requires AllRegistered(ids, cs)
    ensures m.Keys <= r.Keys
  {
    if cs == [] then m
    else
      var last := cs[|cs| - 1];
      Store.Set(L, SetAllEntry(L, m, ids, cs[..|cs| - 1]), ids[ClassOf(last)], last)
  }

  /** Registering more classes does not change what `setAll` stores for classes already registered. */
  lemma {:induction false} SetAllEntryExtends(L: Layout, m: Entry, ids: map<ClassName, Id>,
                                              ids': map<ClassName, Id>, cs: seq<Component>)
    requires AllRegistered(ids, cs) && Extends(ids, ids')
    ensures AllRegistered(ids', cs)
    ensures SetAllEntry(L, m, ids', cs) == SetAllEntry(L, m, ids, cs)
  {
    if cs != [] {
      SetAllEntryExtends(L, m, ids, ids', cs[..|cs| - 1]);
    }
  }

  /** Registration so far during `setAll(cs)`: what was there is kept, and only classes of `cs` are new. */
  predicate RegisteredWithin(ids0: map<ClassName, Id>, ids: map<ClassName, Id>, cs: seq<Component>) {
    Extends(ids0, ids) && forall k :: k in ids ==> k in ids0 || k in ClassesOf(cs)
  }

  /** Once every class of `cs` is registered, and nothing else, the registry is the old one with the classes of `cs` added. */
  lemma SetAllRegistered(ids0: map<ClassName, Id>, ids: map<ClassName, Id>, cs: seq<Component>)
    requires AllRegistered(ids, cs) && RegisteredWithin(ids0, ids, cs)
    ensures RegisteredAll(ids0, ids, ClassesOf(cs))
  {
    forall d | d in cs
      ensures ClassOf(d) in ids
    {
      var j :| 0 <= j < |cs| && cs[j] == d;
    }
  }

  /** One step of `setAll(cs)`: registering the class of `cs[i]` and setting `cs[i]` extends the entry for `cs[..i]`. */
  lemma SetAllStep(L: Layout, m: Entry, ids0: map<ClassName, Id>, before: map<ClassName, Id>,
                   after: map<ClassName, Id>, cs: seq<Component>, i: nat)
    requires i < |cs| && AllRegistered(before, cs[..i]) && RegisteredWithin(ids0, before, cs)
    requires Registered(before, after, ClassOf(cs[i]))
    ensures AllRegistered(after, cs[..i + 1]) && RegisteredWithin(ids0, after, cs)
    ensures Store.Set(L, SetAllEntry(L, m, before, cs[..i]), after[ClassOf(cs[i])], cs[i])
         == SetAllEntry(L, m, after, cs[..i + 1])
  {
    SetAllEntryExtends(L, m, before, after, cs[..i]);
    assert cs[..i + 1][..i] == cs[..i];
    forall j | 0 <= j < i + 1
      ensures ClassOf(cs[j]) in after
    {
      if j < i {
        assert cs[..i][j] == cs[j];
      }
    }
    assert cs[i] in cs;
  }

  /** Ids registered for classes: distinct per class, and each unchanged by the mask. */
  predicate PlainRegistry(L: Layout, ids: map<ClassName, Id>) {
    Injective(ids) && forall k :: k in ids ==> L.Plain(ids[k])
  }

  /** `cs[i]` is the last component of its class in `cs`. */
  predicate LastOfClass(cs: seq<Component>, i: nat)
    requires i < |cs|
  {
    forall j :: i < j < |cs| ==> ClassOf(cs[j]) != ClassOf(cs[i])
  }

  /** After `setAll(cs)`, the entity holds under each class's id the last component of that class in `cs`. */
  lemma {:induction false} SetAllStoresLast(L: Layout, m: Entry, ids: map<ClassName, Id>, cs: seq<Component>, i: nat)
    requires L.Valid() && PlainRegistry(L, ids) && AllRegistered(ids, cs)
    requires i < |cs| && LastOfClass(cs, i)
    ensures Store.Get(L, SetAllEntry(L, m, ids, cs), ids[ClassOf(cs[i])]) == Some(cs[i])
  {
    var n := |cs| - 1;
    var init := cs[..n];
    var last := cs[n];
    var prev := SetAllEntry(L, m, ids, init);
    assert SetAllEntry(L, m, ids, cs) == Store.Set(L, prev, ids[ClassOf(last)], last);
    if i < n {
      assert ClassOf(last) != ClassOf(cs[i]);
      assert init[i] == cs[i];
      assert LastOfClass(init, i) by {
        forall j | i < j < |init|
          ensures ClassOf(init[j]) != ClassOf(init[i])
        {
          assert init[j] == cs[j];
        }
      }
      SetAllStoresLast(L, m, ids, init, i);
      var k := ids[ClassOf(cs[i])];
      assert Store.Get(L, prev, k) == Some(cs[i]);
      FlagDistinct(L, ids[ClassOf(last)], k);
      Store.GetSetOther(L, prev, ids[ClassOf(last)], k, last);
    } else {
      assert cs[i] == last;
    }
  }

  /** `setAll(cs)` leaves the data of every class not in `cs` as it was. */
  lemma {:induction false} SetAllKeepsOthers(L: Layout, m: Entry, ids: map<ClassName, Id>, cs: seq<Component>, k: ClassName)
    requires L.Valid() && PlainRegistry(L, ids) && AllRegistered(ids, cs)
    requires k in ids && k !in ClassesOf(cs)
    ensures Store.Get(L, SetAllEntry(L, m, ids, cs), ids[k]) == Store.Get(L, m, ids[k])
  {
    if cs != [] {
      var n := |cs| - 1;
      var init := cs[..n];
      var last := cs[n];
      assert last in cs;
      assert k != ClassOf(last);
      FlagDistinct(L, ids[ClassOf(last)], ids[k]);
      assert k !in ClassesOf(init) by {
        forall d | d in init
          ensures ClassOf(d) != k
        {
          assert d in cs;
        }
      }
      SetAllKeepsOthers(L, m, ids, init, k);
    }
  }

  /** The entry after `addAll(cs)`: each id added in turn as a tag. */
  function AddAllEntry(L: Layout, m: Entry, cs: seq<Id>): (r: Entry)
    ensures r.Keys == m.Keys + Elems(cs)
    ensures forall k :: k in m ==> r[k] == m[k]
    ensures forall k :: k in r && k !in m ==> r[k] == None
    ensures Components(r) == Components(m)
  {
    if cs == [] then m
    else
      var init := cs[..|cs| - 1];
      assert Elems(cs) == Elems(init) + {cs[|cs| - 1]} by {
        assert cs == init + [cs[|cs| - 1]];
      }
      Add(L, AddAllEntry(L, m, init), cs[|cs| - 1])
  }

  /** The index of the first id of `cs` the entity holds, if any: where `any` stops. */
  function FirstHeld(L: Layout, m: Entry, cs: seq<Id>): (r: Option<nat>)
    ensures r.Some? ==> r.value < |cs| && Has(L, m, cs[r.value])
    ensures r.Some? ==> forall j :: 0 <= j < r.value ==> !Has(L, m, cs[j])
    ensures r.None? ==> forall j :: 0 <= j < |cs| ==> !Has(L, m, cs[j])
  {
    if cs == [] then None
    else if Has(L, m, cs[0]) then Some(0)
    else
      match FirstHeld(L, m, cs[1..])
      case None => None
      case Some(i) => Some(i + 1)
  }

  /** The entry after `removeAll(cs)`: only the first held id is removed. */
  function RemoveAllEntry(L: Layout, m: Entry, cs: seq<Id>): (r: Entry)
    ensures FirstHeld(L, m, cs).None? ==> r == m
    ensures FirstHeld(L, m, cs).Some? ==>
      r.Keys == m.Keys - {cs[FirstHeld(L, m, cs).value], L.Flag(cs[FirstHeld(L, m, cs).value])}
    ensures forall k :: k in r ==> k in m && r[k] == m[k]
  {
    match FirstHeld(L, m, cs)
    case None => m
    case Some(i) => Remove(L, m, cs[i])
  }

  /** The entry after `setPersisting(d)`: `d` set under its class id, then added to the record. */
  function SetPersistingEntry(L: Layout, m: Entry, c: Id, pid: Id, d: Component): (r: Entry)
    ensures Store.Get(L, r, pid).Some? && Store.Get(L, r, pid).value.Persisting?
  {
    var m1 := Store.Set(L, m, c, d);
    Store.Set(L, m1, pid, RecordPersisting(L, m1, pid, {d}))
  }

  /** After `setPersisting(d)` for a data class, `d` is among the persisting components, and also held. */
  lemma SetPersistingRecords(L: Layout, m: Entry, c: Id, pid: Id, d: Component)
    requires L.Valid() && L.Plain(c) && L.Plain(pid) && c != pid
    ensures d in PersistingComponents(L, SetPersistingEntry(L, m, c, pid, d), pid)
    ensures Recorded(L, SetPersistingEntry(L, m, c, pid, d), pid) == Recorded(L, Store.Set(L, m, c, d), pid) + {d}
  {
    FlagDistinct(L, c, pid);
    var r := SetPersistingEntry(L, m, c, pid, d);
    assert r[L.Flag(c)] == Some(d);
  }

  /** The entry after `setAllPersisting(cs)`: `setAll`, then the record extended by all of `cs`. */
  function SetAllPersistingEntry(L: Layout, m: Entry, ids: map<ClassName, Id>, cs: seq<Component>, pid: Id): (r: Entry)
    requires AllRegistered(ids, cs)
    ensures Recorded(L, r, pid) == Recorded(L, SetAllEntry(L, m, ids, cs), pid) + SetOf(cs)
  {
    var m1 := SetAllEntry(L, m, ids, cs);
    Store.Set(L, m1, pid, RecordPersisting(L, m1, pid, SetOf(cs)))
  }

  /** The last step of `setAllPersisting(cs)`: the record, under the id registered for it, extended by `cs`. */
  lemma SetAllPersistingStep(L: Layout, m: Entry, ids: map<ClassName, Id>, ids': map<ClassName, Id>, cs: seq<Component>)
    requires AllRegistered(ids, cs) && Registered(ids, ids', PersistingClass)
    ensures AllRegistered(ids', cs)
    ensures var m1 := SetAllEntry(L, m, ids, cs);
      SetAllPersistingEntry(L, m, ids', cs, ids'[PersistingClass])
      == Store.Set(L, m1, ids'[PersistingClass], RecordPersisting(L, m1, ids'[PersistingClass], SetOf(cs)))
  {
    SetAllEntryExtends(L, m, ids, ids', cs);
  }

  /** An entity: just its id (a Kotlin value class). */
  datatype GearyEntity = GearyEntity(id: Id)
  {
    /** `removeEntity`. */
    method RemoveEntity(eng: Engine)
      requires eng.Valid()
      modifies eng
      ensures eng.Valid() && eng.entities == old(eng.entities) - {id}
      ensures eng.classIds == old(eng.classIds)
      ensures eng.GetComponentsFor(id) == {}
    {
      eng.RemoveEntity(id);
    }

    /** `set(component, kClass)`: stores `component` under the id of `cls` and returns it. */
    method Set(eng: Engine, component: Component, cls: ClassName) returns (r: Component)
      requires eng.Valid() && id in eng.entities && eng.CanRegister(cls)
      modifies eng
      ensures eng.Valid() && r == component
      ensures Registered(old(eng.classIds), eng.classIds, cls)
      ensures eng.counter == old(eng.counter) + old(eng.Unregistered(cls))
      ensures cls in old(eng.classIds) ==> eng.classIds == old(eng.classIds)
      ensures OthersUnchanged(old(eng.entities), eng.entities, id)
      ensures eng.entities[id] == Store.Set(eng.layout, old(eng.entities)[id], eng.classIds[cls], component)
      ensures eng.GetComponentFor(id, eng.classIds[cls]) == Some(component)
    {
      var c := eng.GetComponentIdForClass(cls);
      eng.SetComponentFor(id, c, component);
      r := component;
    }

    /** `set(components: Collection)`: always an error, never a store. */
    function SetCollection(components: seq<Component>): (r: Outcome)
      ensures r.Fail?
    {
      Fail("Trying to set a collection with set method instead of setAll")
    }

    /** `setAll`: each component set in turn under the id of its own runtime class. */
    method SetAll(eng: Engine, cs: seq<Component>)
      requires eng.Valid() && id in eng.entities && eng.Room(|cs|)
      modifies eng
      ensures eng.Valid() && RegisteredAll(old(eng.classIds), eng.classIds, ClassesOf(cs))
      ensures AllRegistered(eng.classIds, cs)
      ensures eng.counter <= old(eng.counter) + |cs|
      ensures OthersUnchanged(old(eng.entities), eng.entities, id)
      ensures eng.entities[id] == SetAllEntry(eng.layout, old(eng.entities)[id], eng.classIds, cs)
    {
      ghost var m0 := eng.entities[id];
      ghost var ids0 := eng.classIds;
      ghost var c0 := eng.counter;
      var i := 0;
      while i < |cs|
        invariant 0 <= i <= |cs|
        invariant eng.Valid() && id in eng.entities
        invariant AllRegistered(eng.classIds, cs[..i]) && RegisteredWithin(ids0, eng.classIds, cs)
        invariant eng.counter <= c0 + i && c0 + |cs| <= eng.layout.idLimit
        invariant OthersUnchanged(old(eng.entities), eng.entities, id)
        invariant eng.entities[id] == SetAllEntry(eng.layout, m0, eng.classIds, cs[..i])
      {
        ghost var before := eng.classIds;
        var _ := Set(eng, cs[i], ClassOf(cs[i]));
        SetAllStep(eng.layout, m0, ids0, before, eng.classIds, cs, i);
        i := i + 1;
      }
      assert cs[..|cs|] == cs;
      SetAllRegistered(ids0, eng.classIds, cs);
    }

    /** `setRelation<T, C>(parentData)`: a relation with parent `T` on component `C`. */
    method SetRelation(eng: Engine, parentCls: ClassName, componentCls: ClassName, parentData: Component)
      requires eng.Valid() && id in eng.entities
      requires eng.Room(eng.Unregistered(parentCls) + eng.Unregistered(componentCls))
      modifies eng
      ensures eng.Valid() && RegisteredAll(old(eng.classIds), eng.classIds, {parentCls, componentCls})
      ensures eng.counter <= old(eng.counter) + old(eng.Unregistered(parentCls)) + old(eng.Unregistered(componentCls))
      ensures OthersUnchanged(old(eng.entities), eng.entities, id)
      ensures eng.entities[id] == Store.Set(eng.layout, old(eng.entities)[id],
        eng.layout.pack(eng.classIds[parentCls], eng.classIds[componentCls]), parentData)
    {
      var p := eng.GetComponentIdForClass(parentCls);
      var c := eng.GetComponentIdForClass(componentCls);
      eng.SetRelationFor(id, p, c, parentData);
    }

    /** `setRelationWithData<T, C>(parentData)`: as `setRelation`, with `C`'s data-holding id. */
    method SetRelationWithData(eng: Engine, parentCls: ClassName, componentCls: ClassName, parentData: Component)
      requires eng.Valid() && id in eng.entities
      requires eng.Room(eng.Unregistered(parentCls) + eng.Unregistered(componentCls))
      modifies eng
      ensures eng.Valid() && RegisteredAll(old(eng.classIds), eng.classIds, {parentCls, componentCls})
      ensures OthersUnchanged(old(eng.entities), eng.entities, id)
      ensures eng.entities[id] == Store.Set(eng.layout, old(eng.entities)[id],
        eng.layout.pack(eng.classIds[parentCls], eng.layout.Flag(eng.classIds[componentCls])), parentData)
    {
      var p := eng.GetComponentIdForClass(parentCls);
      var c := eng.GetComponentIdForClass(componentCls);
      eng.SetRelationFor(id, p, eng.layout.Flag(c), parentData);
    }

    /** `add(component)`: `component` joins the type without data. */
    method Add(eng: Engine, component: Id)
      requires eng.Valid() && id in eng.entities
      modifies eng
      ensures eng.Valid() && eng.classIds == old(eng.classIds) && eng.counter == old(eng.counter)
      ensures OthersUnchanged(old(eng.entities), eng.entities, id)
      ensures eng.entities[id] == Store.Add(eng.layout, old(eng.entities)[id], component)
      ensures eng.HasComponentFor(id, component)
    {
      eng.AddComponentFor(id, component);
    }

    /** `add<T>()`: the id of `cls` joins the type without data. */
    method AddClass(eng: Engine, cls: ClassName)
      requires eng.Valid() && id in eng.entities && eng.CanRegister(cls)
      modifies eng
      ensures eng.Valid() && Registered(old(eng.classIds), eng.classIds, cls)
      ensures eng.counter == old(eng.counter) + old(eng.Unregistered(cls))
      ensures cls in old(eng.classIds) ==> eng.classIds == old(eng.classIds)
      ensures OthersUnchanged(old(eng.entities), eng.entities, id)
      ensures eng.entities[id] == Store.Add(eng.layout, old(eng.entities)[id], eng.classIds[cls])
    {
      var c := eng.GetComponentIdForClass(cls);
      Add(eng, c);
    }

    /** `addAll(components)`: each id added in turn. */
    method AddAll(eng: Engine, cs: seq<Id>)
      requires eng.Valid() && id in eng.entities
      modifies eng
      ensures eng.Valid() && eng.classIds == old(eng.classIds) && eng.counter == old(eng.counter)
      ensures OthersUnchanged(old(eng.entities), eng.entities, id)
      ensures eng.entities[id] == AddAllEntry(eng.layout, old(eng.entities)[id], cs)
    {
      ghost var m0 := eng.entities[id];
      var i := 0;
      while i < |cs|
        invariant 0 <= i <= |cs|
        invariant eng.Valid() && id in eng.entities
        invariant eng.classIds == old(eng.classIds) && eng.counter == old(eng.counter)
        invariant OthersUnchanged(old(eng.entities), eng.entities, id)
        invariant eng.entities[id] == AddAllEntry(eng.layout, m0, cs[..i])
      {
        Add(eng, cs[i]);
        assert cs[..i + 1][..i] == cs[..i] && cs[..i + 1][i] == cs[i];
        i := i + 1;
      }
      assert cs[..|cs|] == cs;
    }

    /** `setPersisting(component, kClass)`: `set`, then `component` joins the `PersistingComponents` record. */
    method SetPersisting(eng: Engine, component: Component, cls: ClassName) returns (r: Component)
      requires eng.Valid() && id in eng.entities
      requires eng.Room(eng.Unregistered(cls) + eng.Unregistered(PersistingClass))
      modifies eng
      ensures eng.Valid() && r == component
      ensures RegisteredAll(old(eng.classIds), eng.classIds, {cls, PersistingClass})
      ensures OthersUnchanged(old(eng.entities), eng.entities, id)
      ensures eng.entities[id] == SetPersistingEntry(eng.layout, old(eng.entities)[id],
        eng.classIds[cls], eng.classIds[PersistingClass], component)
    {
      r := Set(eng, component, cls);
      ghost var ids1 := eng.classIds;
      RecordOne(eng, component);
      RegisteredThen(old(eng.classIds), ids1, eng.classIds, {cls}, PersistingClass);
    }

    /** `getOrSet { PersistingComponents() }.add(component)`: the record, created empty if missing, gains `component` in place. */
    method RecordOne(eng: Engine, component: Component)
      requires eng.Valid() && id in eng.entities && eng.CanRegister(PersistingClass)
      modifies eng
      ensures eng.Valid() && Registered(old(eng.classIds), eng.classIds, PersistingClass)
      ensures eng.counter == old(eng.counter) + old(eng.Unregistered(PersistingClass))
      ensures OthersUnchanged(old(eng.entities), eng.entities, id)
      ensures var m := old(eng.entities)[id]; var pid := eng.classIds[PersistingClass];
        eng.entities[id] == Store.Set(eng.layout, m, pid, RecordPersisting(eng.layout, m, pid, {component}))
    {
      var pc := GetOrSet(eng, PersistingClass, Persisting({}));
      var pid := eng.classIds[PersistingClass];
      // `PersistingComponents.add` changes the stored record in place
      eng.SetComponentFor(id, pid, Persisting(pc.components + {component}));
    }

    /** `setAllPersisting(components)`: `setAll`, then every component joins the record (created if missing). */
    method SetAllPersisting(eng: Engine, cs: seq<Component>)
      requires eng.Valid() && id in eng.entities && eng.Room(|cs| + 1)
      modifies eng
      ensures eng.Valid() && RegisteredAll(old(eng.classIds), eng.classIds, ClassesOf(cs) + {PersistingClass})
      ensures AllRegistered(eng.classIds, cs)
      ensures OthersUnchanged(old(eng.entities), eng.entities, id)
      ensures eng.entities[id] == SetAllPersistingEntry(eng.layout, old(eng.entities)[id],
        eng.classIds, cs, eng.classIds[PersistingClass])
    {
      ghost var m0 := eng.entities[id];
      SetAll(eng, cs);
      ghost var ids1 := eng.classIds;
      RecordAll(eng, SetOf(cs));
      SetAllPersistingStep(eng.layout, m0, ids1, eng.classIds, cs);
      RegisteredThen(old(eng.classIds), ids1, eng.classIds, ClassesOf(cs), PersistingClass);
    }

    /** `get<PersistingComponents>()?.addAll(added) ?: set(PersistingComponents(added))`. */
    method RecordAll(eng: Engine, added: set<Component>)
      requires eng.Valid() && id in eng.entities && eng.CanRegister(PersistingClass)
      modifies eng
      ensures eng.Valid() && Registered(old(eng.classIds), eng.classIds, PersistingClass)
      ensures eng.counter == old(eng.counter) + old(eng.Unregistered(PersistingClass))
      ensures OthersUnchanged(old(eng.entities), eng.entities, id)
      ensures var m := old(eng.entities)[id]; var pid := eng.classIds[PersistingClass];
        eng.entities[id] == Store.Set(eng.layout, m, pid, RecordPersisting(eng.layout, m, pid, added))
    {
      var p := GetClass(eng, PersistingClass);
      ghost var m := eng.entities[id];
      ghost var pid := eng.classIds[PersistingClass];
      assert p == As(Store.Get(eng.layout, m, pid), PersistingClass);
      if p.Some? {
        // `addAll` on the stored record, in place
        var _ := Set(eng, Persisting(p.value.components + added), PersistingClass);
      } else {
        assert Persisting(added) == RecordPersisting(eng.layout, m, pid, added) by {
          assert Recorded(eng.layout, m, pid) + added == added;
        }
        var _ := Set(eng, Persisting(added), PersistingClass);
      }
    }

    /**
     * `remove<T>()`: removes the id of `cls`, or, only if that removed
     * nothing, its masked form. A registered id is unchanged by the mask,
     * so the second attempt never finds anything the first missed.
     */
    method RemoveClass(eng: Engine, cls: ClassName) returns (r: bool)
      requires eng.Valid() && id in eng.entities && eng.CanRegister(cls)
      modifies eng
      ensures eng.Valid() && Registered(old(eng.classIds), eng.classIds, cls)
      ensures eng.counter == old(eng.counter) + old(eng.Unregistered(cls))
      ensures cls in old(eng.classIds) ==> eng.classIds == old(eng.classIds)
      ensures r == Store.Has(eng.layout, old(eng.entities)[id], eng.classIds[cls])
      ensures OthersUnchanged(old(eng.entities), eng.entities, id)
      ensures eng.entities[id] == Store.Remove(eng.layout, old(eng.entities)[id], eng.classIds[cls])
    {
      var c := eng.GetComponentIdForClass(cls);
      r := Remove(eng, c);
      if !r {
        r := Remove(eng, eng.layout.Mask(c));
      }
    }

    /** `remove(kClass)`: removes the id of `cls`, with no masked fallback. */
    method RemoveKClass(eng: Engine, cls: ClassName) returns (r: bool)
      requires eng.Valid() && id in eng.entities && eng.CanRegister(cls)
      modifies eng
      ensures eng.Valid() && Registered(old(eng.classIds), eng.classIds, cls)
      ensures eng.counter == old(eng.counter) + old(eng.Unregistered(cls))
      ensures cls in old(eng.classIds) ==> eng.classIds == old(eng.classIds)
      ensures r == Store.Has(eng.layout, old(eng.entities)[id], eng.classIds[cls])
      ensures OthersUnchanged(old(eng.entities), eng.entities, id)
      ensures eng.entities[id] == Store.Remove(eng.layout, old(eng.entities)[id], eng.classIds[cls])
    {
      var c := eng.GetComponentIdForClass(cls);
      r := Remove(eng, c);
    }

    /** `remove(component)`: whether the type held `component`, which it no longer does. */
    method Remove(eng: Engine, component: Id) returns (r: bool)
      requires eng.Valid() && id in eng.entities
      modifies eng
      ensures eng.Valid() && eng.classIds == old(eng.classIds) && eng.counter == old(eng.counter)
      ensures r == old(eng.HasComponentFor(id, component)) && !eng.HasComponentFor(id, component)
      ensures OthersUnchanged(old(eng.entities), eng.entities, id)
      ensures eng.entities[id] == Store.Remove(eng.layout, old(eng.entities)[id], component)
    {
      r := eng.RemoveComponentFor(id, component);
    }

    /** `removeAll(components)`: `any { remove(it) }`, which stops at the first removal that succeeds. */
    method RemoveAll(eng: Engine, cs: seq<Id>) returns (r: bool)
      requires eng.Valid() && id in eng.entities
      modifies eng
      ensures eng.Valid() && eng.classIds == old(eng.classIds) && eng.counter == old(eng.counter)
      ensures r == FirstHeld(eng.layout, old(eng.entities)[id], cs).Some?
      ensures OthersUnchanged(old(eng.entities), eng.entities, id)
      ensures eng.entities[id] == RemoveAllEntry(eng.layout, old(eng.entities)[id], cs)
    {
      ghost var m0 := eng.entities[id];
      r := false;
      var i := 0;
      while i < |cs| && !r
        invariant 0 <= i <= |cs|
        invariant eng.Valid() && id in eng.entities
        invariant eng.classIds == old(eng.classIds) && eng.counter == old(eng.counter)
        invariant OthersUnchanged(old(eng.entities), eng.entities, id)
        invariant !r ==> eng.entities[id] == m0
        invariant !r ==> forall j :: 0 <= j < i ==> !Store.Has(eng.layout, m0, cs[j])
        invariant r ==> 0 < i && FirstHeld(eng.layout, m0, cs) == Some(i - 1)
        invariant r ==> eng.entities[id] == Store.Remove(eng.layout, m0, cs[i - 1])
      {
        r := Remove(eng, cs[i]);
        if r {
          FirstHeldAt(eng.layout, m0, cs, i);
        }
        i := i + 1;
      }
    }

    /** `get(component)`: the data stored under `component`, if any. */
    function Get(eng: Engine, component: Id): (r: Option<Component>)
      reads eng
      ensures r.Some? ==> r.value in eng.GetComponentsFor(id)
      ensures !eng.HasComponentFor(id, component) ==> r == None
      ensures id in eng.entities && component in eng.entities[id] && eng.layout.Flag(component) !in eng.entities[id] ==> r == None
      ensures r.Some? <==> id in eng.entities && eng.layout.Flag(component) in eng.entities[id] && eng.entities[id][eng.layout.Flag(component)].Some?
    {
      eng.GetComponentFor(id, component)
    }

    /** `get<T>()` and `get(kClass)`: the data under the id of `cls`, if it is a `cls`. */
    method GetClass(eng: Engine, cls: ClassName) returns (r: Option<Component>)
      requires eng.Valid() && eng.CanRegister(cls)
      modifies eng
      ensures eng.Valid() && Registered(old(eng.classIds), eng.classIds, cls)
      ensures eng.counter == old(eng.counter) + old(eng.Unregistered(cls))
      ensures cls in old(eng.classIds) ==> eng.classIds == old(eng.classIds)
      ensures eng.entities == old(eng.entities)
      ensures r == As(eng.GetComponentFor(id, eng.classIds[cls]), cls)
      ensures r.Some? ==> ClassOf(r.value) == cls && r.value in eng.GetComponentsFor(id)
    {
      var c := eng.GetComponentIdForClass(cls);
      r := As(Get(eng, c), cls);
    }

    /** `getOrSet<T>(default)`: the existing `cls` component, or `default` newly set. */
    method GetOrSet(eng: Engine, cls: ClassName, default: Component) returns (r: Component)
      requires eng.Valid() && id in eng.entities && eng.CanRegister(cls) && ClassOf(default) == cls
      modifies eng
      ensures eng.Valid() && Registered(old(eng.classIds), eng.classIds, cls)
      ensures eng.counter == old(eng.counter) + old(eng.Unregistered(cls))
      ensures ClassOf(r) == cls
      ensures OthersUnchanged(old(eng.entities), eng.entities, id)
      ensures As(Store.Get(eng.layout, old(eng.entities)[id], eng.classIds[cls]), cls).Some? ==>
        r == Store.Get(eng.layout, old(eng.entities)[id], eng.classIds[cls]).value
        && eng.entities[id] == old(eng.entities)[id]
      ensures As(Store.Get(eng.layout, old(eng.entities)[id], eng.classIds[cls]), cls).None? ==>
        r == default && eng.entities[id] == Store.Set(eng.layout, old(eng.entities)[id], eng.classIds[cls], default)
    {
      var cur := GetClass(eng, cls);
      if cur.Some? {
        r := cur.value;
      } else {
        r := Set(eng, default, cls);
      }
    }

    /** `getOrSetPersisting<T>(default)`: the existing `cls` component, or `default` newly set as persisting. */
    method GetOrSetPersisting(eng: Engine, cls: ClassName, default: Component) returns (r: Component)
      requires eng.Valid() && id in eng.entities && ClassOf(default) == cls
      requires eng.Room(eng.Unregistered(cls) + eng.Unregistered(PersistingClass))
      modifies eng
      ensures eng.Valid() && Extends(old(eng.classIds), eng.classIds) && cls in eng.classIds
      ensures ClassOf(r) == cls
      ensures OthersUnchanged(old(eng.entities), eng.entities, id)
      ensures As(Store.Get(eng.layout, old(eng.entities)[id], eng.classIds[cls]), cls).Some? ==>
        r == Store.Get(eng.layout, old(eng.entities)[id], eng.classIds[cls]).value
        && eng.entities[id] == old(eng.entities)[id]
      ensures As(Store.Get(eng.layout, old(eng.entities)[id], eng.classIds[cls]), cls).None? ==>
        r == default && PersistingClass in eng.classIds
        && eng.entities[id] == SetPersistingEntry(eng.layout, old(eng.entities)[id],
             eng.classIds[cls], eng.classIds[PersistingClass], default)
    {
      var cur := GetClass(eng, cls);
      if cur.Some? {
        r := cur.value;
      } else {
        r := SetPersisting(eng, default, cls);
      }
    }

    /** `getComponents()`: every payload the entity holds. */
    function GetComponents(eng: Engine): (r: set<Component>)
      reads eng
      ensures id !in eng.entities ==> r == {}
      ensures id in eng.entities ==> r == Components(eng.entities[id])
      ensures forall c :: Get(eng, c).Some? ==> Get(eng, c).value in r
    {
      eng.GetComponentsFor(id)
    }

    /** `getPersistingComponents()`: the recorded components the entity still holds. */
    method GetPersistingComponents(eng: Engine) returns (r: set<Component>)
      requires eng.Valid() && eng.CanRegister(PersistingClass)
      modifies eng
      ensures eng.Valid() && Registered(old(eng.classIds), eng.classIds, PersistingClass)
      ensures eng.entities == old(eng.entities)
      ensures id in eng.entities ==> r == PersistingComponents(eng.layout, eng.entities[id], eng.classIds[PersistingClass])
      ensures id !in eng.entities ==> r == {}
      ensures r <= GetComponents(eng)
    {
      var p := GetClass(eng, PersistingClass);
      r := if p.Some? then p.value.components * GetComponents(eng) else {};
    }

    /** `getInstanceComponents()`: the components the entity holds minus the recorded ones. */
    method GetInstanceComponents(eng: Engine) returns (r: set<Component>)
      requires eng.Valid() && eng.CanRegister(PersistingClass)
      modifies eng
      ensures eng.Valid() && Registered(old(eng.classIds), eng.classIds, PersistingClass)
      ensures eng.entities == old(eng.entities)
      ensures id in eng.entities ==> r == InstanceComponents(eng.layout, eng.entities[id], eng.classIds[PersistingClass])
      ensures id !in eng.entities ==> r == {}
      ensures r <= GetComponents(eng)
    {
      var p := GetClass(eng, PersistingClass);
      r := GetComponents(eng) - (if p.Some? then p.value.components else {});
    }

    /** `has(component)`: the type holds `component`, with or without data. */
    predicate Has(eng: Engine, component: Id)
      reads eng
    {
      eng.HasComponentFor(id, component)
    }

    /** `has<T>()`: the type holds the id of `cls`, with or without data. */
    method HasClass(eng: Engine, cls: ClassName) returns (r: bool)
      requires eng.Valid() && eng.CanRegister(cls)
      modifies eng
      ensures eng.Valid() && Registered(old(eng.classIds), eng.classIds, cls)
      ensures eng.counter == old(eng.counter) + old(eng.Unregistered(cls))
      ensures eng.entities == old(eng.entities)
      ensures r == eng.HasComponentFor(id, eng.classIds[cls])
    {
      var c := eng.GetComponentIdForClass(cls);
      r := Has(eng, c);
    }

    /** `hasAll(classes)`: `all { has(componentId(it)) }`, which stops at the first class not held. */
    method HasAll(eng: Engine, classes: seq<ClassName>) returns (r: bool)
      requires eng.Valid() && eng.Room(|classes|)
      modifies eng
      ensures eng.Valid() && Extends(old(eng.classIds), eng.classIds) && eng.entities == old(eng.entities)
      ensures forall k :: k in eng.classIds ==> k in old(eng.classIds) || k in classes
      ensures r <==> forall i :: 0 <= i < |classes| ==>
        classes[i] in eng.classIds && eng.HasComponentFor(id, eng.classIds[classes[i]])
    {
      ghost var c0 := eng.counter;
      r := true;
      var i := 0;
      while i < |classes| && r
        invariant 0 <= i <= |classes|
        invariant eng.Valid() && Extends(old(eng.classIds), eng.classIds) && eng.entities == old(eng.entities)
        invariant forall k :: k in eng.classIds ==> k in old(eng.classIds) || k in classes
        invariant eng.counter <= c0 + i && c0 + |classes| <= eng.layout.idLimit
        invariant r ==> forall j :: 0 <= j < i ==>
          classes[j] in eng.classIds && eng.HasComponentFor(id, eng.classIds[classes[j]])
        invariant !r ==> (0 < i && classes[i - 1] in eng.classIds
          && !eng.HasComponentFor(id, eng.classIds[classes[i - 1]]))
      {
        r := HasClass(eng, classes[i]);
        i := i + 1;
      }
    }
  }

  lemma FirstHeldAt(L: Layout, m: Entry, cs: seq<Id>, i: nat)
    requires i < |cs| && Has(L, m, cs[i]) && forall j :: 0 <= j < i ==> !Has(L, m, cs[j])
    ensures FirstHeld(L, m, cs) == Some(i)
  {
    var f := FirstHeld(L, m, cs);
    if f.None? {
    } else if f.value < i {
    } else if f.value > i {
    }
  }
}
