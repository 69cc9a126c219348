/**
 * Systems: a ticking system declares accessors, which make up its family;
 * tracking it seeds the archetypes its family matches; a tick visits every
 * entity of those archetypes, as they were when the tick began, and runs
 * the system's body on each.
 */
module Systems {
  import opened Wrappers
  import opened Ids
  import opened Store
  import opened Engines
  import opened Entities
  import opened Families

  /** A field a system declares: `get<T>()`, `has<T>()` or `relation<T>()`. */
  datatype Accessor =
    | GetAccessor(cls: ClassName)
    | HasAccessor(cls: ClassName)
    | RelationAccessor(cls: ClassName)

  /** Every accessor's class has an id in `ids`. */
  predicate Declared(ids: map<ClassName, Id>, acc: seq<Accessor>) {
    forall i :: 0 <= i < |acc| ==> acc[i].cls in ids
  }

  /**
   * The family of a system: `get<T>` requires the data-holding id of `T`,
   * `has<T>` the id of `T`, and `relation<T>` a relation whose parent is `T`.
   */
  function FamilyOf(L: Layout, ids: map<ClassName, Id>, acc: seq<Accessor>): Family
    requires Declared(ids, acc)
  {
    Family(
      (set i | 0 <= i < |acc| && acc[i].GetAccessor? :: L.Flag(ids[acc[i].cls]))
        + (set i | 0 <= i < |acc| && acc[i].HasAccessor? :: ids[acc[i].cls]),
      set i | 0 <= i < |acc| && acc[i].RelationAccessor? :: RelationRequirement(ids[acc[i].cls], false))
  }

  /**
   * An entity whose type the family matches holds what each accessor reads:
   * the data-holding id for `get<T>`, the id for `has<T>`, a relation to `T`
   * for `relation<T>` together with that relation's component.
   */
  lemma MatchedHoldsAccessors(L: Layout, ids: map<ClassName, Id>, acc: seq<Accessor>, m: Entry, i: nat)
    requires Declared(ids, acc) && Contains(L, FamilyOf(L, ids, acc), m.Keys) && i < |acc|
    ensures acc[i].GetAccessor? ==> L.Flag(ids[acc[i].cls]) in m && Has(L, m, ids[acc[i].cls])
    ensures acc[i].HasAccessor? ==> ids[acc[i].cls] in m
    ensures acc[i].RelationAccessor? ==>
      exists r :: r in m && L.isRelation(r) && L.parentOf(r) == ids[acc[i].cls]
        && (L.componentOf(r) in m || L.Flag(L.componentOf(r)) in m)
  {
    var f := FamilyOf(L, ids, acc);
    if acc[i].RelationAccessor? {
      var q := RelationRequirement(ids[acc[i].cls], false);
      assert q in f.relations;
      var r :| r in m.Keys && Satisfies(L, m.Keys, q, r);
      assert r in m;
    } else if acc[i].GetAccessor? {
      assert L.Flag(ids[acc[i].cls]) in f.has;
    } else {
      assert ids[acc[i].cls] in f.has;
    }
  }

  /** The archetypes among `archetypes` whose type the family matches. */
  function Matched(L: Layout, f: Family, archetypes: set<set<Id>>): set<set<Id>> {
    set a | a in archetypes && Contains(L, f, a)
  }

  /** The matched set only grows as archetypes are created. */
  lemma MatchedMonotone(L: Layout, f: Family, archetypes: set<set<Id>>, more: set<set<Id>>)
    requires archetypes <= more
    ensures Matched(L, f, archetypes) <= Matched(L, f, more)
    ensures forall a :: a in more - archetypes ==> (a in Matched(L, f, more) <==> Contains(L, f, a))
  {
  }

  /** The entities of `m` whose type the family matches. */
  function MatchingIn(L: Layout, f: Family, m: map<Id, Entry>): set<Id> {
    set e | e in m && Contains(L, f, m[e].Keys)
  }

  /** `getEntitiesMatching(family)`: the live entities whose type the family matches. */
  function MatchingEntities(eng: Engine, f: Family): set<Id>
    reads eng
  {
    MatchingIn(eng.layout, f, eng.entities)
  }

  /** An entity matches exactly when its archetype is among the matched archetypes. */
  lemma MatchingByArchetype(eng: Engine, f: Family, e: Id)
    requires eng.Valid()
    ensures e in MatchingEntities(eng, f) <==>
      e in eng.entities && eng.entities[e].Keys in Matched(eng.layout, f, eng.archetypes)
  {
  }

  /** What a tick's body does to the visited entity. */
  datatype TickBody =
    | Observe                      // reads the accessors only
    | RemoveEach(cls: ClassName)   // `entity.remove<T>()`

  /** The entry of a visited entity after the body has run on it. */
  function Visited(L: Layout, ids: map<ClassName, Id>, body: TickBody, m: Entry): (r: Entry)
    requires body.RemoveEach? ==> body.cls in ids
    ensures body.Observe? ==> r == m
    ensures body.RemoveEach? ==> !Has(L, r, ids[body.cls]) && r.Keys <= m.Keys
  {
    match body
    case Observe => m
    case RemoveEach(cls) => Store.Remove(L, m, ids[cls])
  }

  /** Of the entities of `m0`, those in `seen` have had the body run on them once, and the rest are untouched. */
  predicate VisitedOnly(L: Layout, ids: map<ClassName, Id>, body: TickBody,
                        m0: map<Id, Entry>, now: map<Id, Entry>, seen: set<Id>)
    requires body.RemoveEach? ==> body.cls in ids
  {
    now.Keys == m0.Keys
    && forall e :: e in m0 ==> now[e] == (if e in seen then Visited(L, ids, body, m0[e]) else m0[e])
  }

  /** Visiting one more entity, not seen before, extends what has been visited by it. */
  lemma VisitStep(L: Layout, ids: map<ClassName, Id>, body: TickBody, m0: map<Id, Entry>,
                  before: map<Id, Entry>, after: map<Id, Entry>, seen: set<Id>, e: Id)
    requires body.RemoveEach? ==> body.cls in ids
    requires VisitedOnly(L, ids, body, m0, before, seen) && e in m0 && e !in seen
    requires OthersUnchanged(before, after, e) && after[e] == Visited(L, ids, body, before[e])
    ensures VisitedOnly(L, ids, body, m0, after, seen + {e})
  {
  }

  /** A body that only reads leaves every entity as it was. */
  lemma ObserveKeeps(L: Layout, ids: map<ClassName, Id>, m0: map<Id, Entry>, now: map<Id, Entry>, seen: set<Id>)
    requires VisitedOnly(L, ids, Observe, m0, now, seen)
    ensures now == m0
  {
  }

  /** Running the body on one entity. */
  method Visit(eng: Engine, e: GearyEntity, body: TickBody)
    requires eng.Valid() && e.id in eng.entities && (body.RemoveEach? ==> body.cls in eng.classIds)
    modifies eng
    ensures eng.Valid() && eng.classIds == old(eng.classIds) && eng.counter == old(eng.counter)
    ensures OthersUnchanged(old(eng.entities), eng.entities, e.id)
    ensures eng.entities[e.id] == Visited(eng.layout, eng.classIds, body, old(eng.entities)[e.id])
  {
    if body.RemoveEach? {
      var _ := e.RemoveClass(eng, body.cls);
    }
  }

  class TickingSystem {
    const family: Family
    /** the archetypes whose type the family matches, as far as the system has seen */
    var matchedArchetypes: set<set<Id>>

    constructor (f: Family)
      ensures family == f && matchedArchetypes == {}
    {
      family := f;
      matchedArchetypes := {};
    }

    /** The system has seen every archetype of the engine. */
    predicate Tracking(eng: Engine)
      reads this, eng
    {
      matchedArchetypes == Matched(eng.layout, family, eng.archetypes)
    }

    /** `trackQuery`: matches the family against every archetype the engine knows. */
    method TrackQuery(eng: Engine)
      modifies this
      ensures Tracking(eng)
    {
      matchedArchetypes := set a | a in eng.archetypes && Contains(eng.layout, family, a);
    }

    /** The entities a tick starts from: those in a matched archetype. */
    function Snapshot(eng: Engine): set<Id>
      reads this, eng
    {
      set e | e in eng.entities && eng.entities[e].Keys in matchedArchetypes
    }

    /**
     * `doTick`: runs the body once on each entity of the snapshot taken when
     * the tick begins, in ascending id order, whether or not an earlier visit
     * moved it out of its archetype; `ran` counts the visits.
     */
    method DoTick(eng: Engine, body: TickBody) returns (ran: nat)
      requires eng.Valid() && (body.RemoveEach? ==> body.cls in eng.classIds)
      modifies eng
      ensures ran == |old(Snapshot(eng))|
      ensures eng.Valid() && eng.classIds == old(eng.classIds) && eng.counter == old(eng.counter)
      ensures VisitedOnly(eng.layout, eng.classIds, body, old(eng.entities), eng.entities, old(Snapshot(eng)))
    {
      ghost var m0 := eng.entities;
      var snap := SortedOf(Snapshot(eng));
      AscendingDistinct(snap);
      ran := 0;
      var i := 0;
      while i < |snap|
        invariant 0 <= i <= |snap| && ran == i
        invariant eng.Valid() && eng.classIds == old(eng.classIds) && eng.counter == old(eng.counter)
        invariant VisitedOnly(eng.layout, eng.classIds, body, m0, eng.entities, Elems(snap[..i]))
      {
        var e := snap[i];
        assert e in Elems(snap);
        AscendingPrefix(snap, i);
        ghost var before := eng.entities;
        Visit(eng, GearyEntity(e), body);
        VisitStep(eng.layout, eng.classIds, body, m0, before, eng.entities, Elems(snap[..i]), e);
        ran := ran + 1;
        i := i + 1;
      }
      assert snap[..|snap|] == snap;
    }
  }

  /** The relation parents of a type: the parents named in `Family.of(type).relations`. */
  function RelationParents(L: Layout, t: set<Id>): set<Id> {
    set r | r in t && L.isRelation(r) :: L.parentOf(r)
  }

  // ---- the system manager test, case by case ----

  /** `get<String>()` and `has<Int>()` give the family type {String or HOLDS_DATA, Int}. */
  lemma GetHasFamily(L: Layout, ids: map<ClassName, Id>, str: ClassName, num: ClassName)
    requires str in ids && num in ids
    ensures Declared(ids, [GetAccessor(str), HasAccessor(num)])
    ensures FamilyOf(L, ids, [GetAccessor(str), HasAccessor(num)]) == Family({L.Flag(ids[str]), ids[num]}, {})
  {
    var acc := [GetAccessor(str), HasAccessor(num)];
    var f := FamilyOf(L, ids, acc);
    assert f.has == {L.Flag(ids[str])} + {ids[num]} by {
      assert (set i | 0 <= i < |acc| && acc[i].GetAccessor? :: L.Flag(ids[acc[i].cls])) == {L.Flag(ids[str])} by {
        assert acc[0].GetAccessor?;
      }
      assert (set i | 0 <= i < |acc| && acc[i].HasAccessor? :: ids[acc[i].cls]) == {ids[num]} by {
        assert acc[1].HasAccessor?;
      }
    }
    assert f.relations == {};
  }

  /**
   * String data with an Int tag gives the type {String or HOLDS_DATA, Int},
   * which the family matches; String data with Int data does not match, as
   * the data-holding Int id is not the Int id.
   */
  lemma GetHasMatching(L: Layout, sid: Id, iid: Id, text: Component, one: Component)
    requires L.Valid() && L.Plain(sid) && L.Plain(iid) && sid != iid
    ensures var a := Store.Add(L, Store.Set(L, map[], sid, text), iid);
      a.Keys == {L.Flag(sid), iid} && Contains(L, Family({L.Flag(sid), iid}, {}), a.Keys)
    ensures var b := Store.Set(L, Store.Set(L, map[], sid, text), iid, one);
      !Contains(L, Family({L.Flag(sid), iid}, {}), b.Keys)
  {
    FlagDistinct(L, sid, iid);
    FlagDistinct(L, iid, iid);
    var b := Store.Set(L, Store.Set(L, map[], sid, text), iid, one);
    assert b.Keys == {L.Flag(sid), L.Flag(iid)};
  }

  /** An entity that held only String data holds nothing once String is removed. */
  lemma RemoveOnlyComponent(L: Layout, ids: map<ClassName, Id>, str: ClassName, text: Component)
    requires str in ids
    ensures var m := Visited(L, ids, RemoveEach(str), Store.Set(L, map[], ids[str], text));
      m == map[] && Components(m) == {}
  {
    var m := Visited(L, ids, RemoveEach(str), Store.Set(L, map[], ids[str], text));
    assert m.Keys == {};
  }

  /** `relation<RelationTestComponent>()` gives a family of one relation requirement on that class's id. */
  lemma RelationFamilyOf(L: Layout, ids: map<ClassName, Id>, rel: ClassName)
    requires rel in ids
    ensures Declared(ids, [RelationAccessor(rel)])
    ensures FamilyOf(L, ids, [RelationAccessor(rel)]) == RelationFamily(ids[rel], false)
  {
    var acc := [RelationAccessor(rel)];
    var f := FamilyOf(L, ids, acc);
    assert acc[0].RelationAccessor?;
    assert f.has == {};
    assert f.relations == {RelationRequirement(ids[rel], false)};
  }

  /**
   * A relation to `parent` on component `c`, set with data, plus `c` added:
   * the relation family of `parent` matches it and its relation parents are
   * exactly `parent`; the relation family of any other id does not match it.
   */
  lemma RelationMatching(L: Layout, parent: Id, c: Id, other: Id, d: Component)
    requires L.Valid() && L.packable(parent, c) && L.Plain(c) && L.Plain(parent) && other != parent
    ensures var m := Store.Add(L, Store.Set(L, map[], L.pack(parent, c), d), c);
      && Contains(L, RelationFamily(parent, false), m.Keys)
      && !Contains(L, RelationFamily(other, false), m.Keys)
      && RelationParents(L, m.Keys) == {parent}
  {
    var r := L.pack(parent, c);
    PlainFacts(L, c);
    var m := Store.Add(L, Store.Set(L, map[], r, d), c);
    assert m.Keys == {L.Flag(r), c};
    assert Satisfies(L, m.Keys, RelationRequirement(parent, false), L.Flag(r));
    assert RelationParents(L, m.Keys) == {parent} by {
      assert L.parentOf(L.Flag(r)) == parent;
      forall x | x in m.Keys && L.isRelation(x)
        ensures x == L.Flag(r)
      {
      }
    }
  }

  /** The classes of the test's components. */
  const StringClass: DataClass := 1
  const IntClass: DataClass := 2
  const RelationTestClass: DataClass := 3

  /** With the system tracking every archetype, the tick's snapshot is exactly the entities its family matches. */
  lemma SnapshotIsMatching(sys: TickingSystem, eng: Engine)
    requires eng.Valid() && sys.Tracking(eng)
    ensures sys.Snapshot(eng) == MatchingEntities(eng, sys.family)
  {
    forall e | e in eng.entities
      ensures e in sys.Snapshot(eng) <==> e in MatchingEntities(eng, sys.family)
    {
      MatchingByArchetype(eng, sys.family, e);
    }
  }

  /** The live entities are exactly the distinct ids of `created`, each holding the entry `v`. */
  predicate Uniform(m: map<Id, Entry>, created: seq<Id>, v: Entry) {
    m.Keys == Elems(created) && |Elems(created)| == |created| && forall x :: x in m ==> m[x] == v
  }

  /** A new id given the entry `v` keeps the entities uniform. */
  lemma SpawnStep(before: map<Id, Entry>, mid: map<Id, Entry>, after: map<Id, Entry>,
                  created: seq<Id>, e: Id, v: Entry)
    requires Uniform(before, created, v) && e !in before
    requires mid.Keys == before.Keys + {e} && forall x :: x in before ==> mid[x] == before[x]
    requires OthersUnchanged(mid, after, e) && after[e] == v
    ensures Uniform(after, created + [e], v)
  {
    assert Elems(created + [e]) == Elems(created) + {e};
  }

  /** `n` new entities in an empty engine, each given the same component of the registered class `cls`. */
  method SpawnWith(eng: Engine, n: nat, d: Component, cls: ClassName) returns (created: seq<Id>)
    requires eng.Valid() && eng.entities == map[] && cls in eng.classIds && eng.Room(n)
    modifies eng
    ensures eng.Valid() && eng.classIds == old(eng.classIds) && |created| == n
    ensures Uniform(eng.entities, created, Store.Set(eng.layout, map[], eng.classIds[cls], d))
  {
    ghost var v := Store.Set(eng.layout, map[], eng.classIds[cls], d);
    created := [];
    while |created| < n
      invariant eng.Valid() && eng.classIds == old(eng.classIds)
      invariant eng.counter == old(eng.counter) + |created| && |created| <= n
      invariant Uniform(eng.entities, created, v)
    {
      ghost var before := eng.entities;
      var e := eng.GetNextId();
      ghost var mid := eng.entities;
      var _ := GearyEntity(e).Set(eng, d, cls);
      SpawnStep(before, mid, eng.entities, created, e, v);
      created := created + [e];
    }
  }

  /**
   * The concurrent modification test: a system on `get<String>()` whose body
   * removes String, and `n` new entities each with String data. The tick runs
   * once per entity matched before it began, and leaves every entity empty.
   */
  method ConcurrentModification(L: Layout, n: nat, text: Value)
    returns (eng: Engine, created: seq<Id>, total: nat, ran: nat)
    requires L.Valid() && n + 1 <= L.idLimit
    ensures eng.Valid() && |created| == n
    ensures total == n && ran == total
    ensures forall k :: 0 <= k < n ==> created[k] in eng.entities && eng.GetComponentsFor(created[k]) == {}
  {
    eng := new Engine(L);
    // declaring `get<String>()` registers String
    var sid := eng.GetComponentIdForClass(StringClass);
    ghost var ids := eng.classIds;
    var sys := new TickingSystem(FamilyOf(L, eng.classIds, [GetAccessor(StringClass)]));
    OneGetFamily(L, eng.classIds, StringClass);
    sys.TrackQuery(eng);
    var d := Data(StringClass, text);
    created := SpawnWith(eng, n, d, StringClass);
    // the archetype {String or HOLDS_DATA} is matched once it exists
    sys.TrackQuery(eng);
    SnapshotIsMatching(sys, eng);
    assert MatchingEntities(eng, sys.family) == Elems(created) by {
      forall e | e in Elems(created)
        ensures Contains(L, sys.family, eng.entities[e].Keys)
      {
        assert eng.entities[e].Keys == {L.Flag(sid)};
      }
    }
    total := |MatchingEntities(eng, sys.family)|;
    ran := sys.DoTick(eng, RemoveEach(StringClass));
    forall k | 0 <= k < n
      ensures created[k] in eng.entities && eng.GetComponentsFor(created[k]) == {}
    {
      assert created[k] in Elems(created);
      RemoveOnlyComponent(L, ids, StringClass, d);
    }
  }

  /**
   * `Engine.entity { setRelation<P, C>(d); add<C>() }`: a new entity holding
   * the relation to `P` on `C` with data `d`, and `C` as a tag.
   */
  method NewRelationEntity(eng: Engine, parentCls: ClassName, componentCls: ClassName, d: Component)
    returns (e: Id)
    requires eng.Valid() && eng.Room(1 + eng.Unregistered(parentCls) + eng.Unregistered(componentCls))
    modifies eng
    ensures eng.Valid() && RegisteredAll(old(eng.classIds), eng.classIds, {parentCls, componentCls})
    ensures eng.counter <= old(eng.counter) + 3
    ensures e !in old(eng.entities) && eng.entities.Keys == old(eng.entities).Keys + {e}
    ensures forall x :: x in old(eng.entities) ==> eng.entities[x] == old(eng.entities)[x]
    ensures eng.entities[e] == Store.Add(eng.layout,
      Store.Set(eng.layout, map[], eng.layout.pack(eng.classIds[parentCls], eng.classIds[componentCls]), d),
      eng.classIds[componentCls])
  {
    ghost var m0 := eng.entities;
    e := eng.GetNextId();
    ghost var m1 := eng.entities;
    GearyEntity(e).SetRelation(eng, parentCls, componentCls, d);
    ghost var m2 := eng.entities;
    GearyEntity(e).AddClass(eng, componentCls);
    FreshThenOwn(m0, m1, m2, eng.entities, e);
  }

  /** A fresh id followed by changes to that id alone leaves every earlier entity as it was. */
  lemma FreshThenOwn(m0: map<Id, Entry>, m1: map<Id, Entry>, m2: map<Id, Entry>, m3: map<Id, Entry>, e: Id)
    requires e !in m0 && m1.Keys == m0.Keys + {e} && forall x :: x in m0 ==> m1[x] == m0[x]
    requires OthersUnchanged(m1, m2, e) && OthersUnchanged(m2, m3, e)
    ensures m3.Keys == m0.Keys + {e} && forall x :: x in m0 ==> m3[x] == m0[x]
  {
  }

  /**
   * The relations test: a system on `relation<RelationTestComponent>()`, and
   * three entities with a relation each: two whose parent is
   * RelationTestComponent (on String and on Int) and one whose parent is
   * String. The system matches exactly the first two, each of their types
   * names that parent, and the tick runs twice.
   */
  method Relations(L: Layout, rel: Value, text: Value)
    returns (eng: Engine, a: Id, b: Id, x: Id, ran: nat)
    requires L.Valid() && 10 <= L.idLimit
    requires forall p: Id, c: Id :: p < 10 && c < 10 ==> L.packable(p, c)
    ensures eng.Valid() && eng.layout == L && RelationTestClass in eng.classIds
    ensures MatchingEntities(eng, RelationFamily(eng.classIds[RelationTestClass], false)) == {a, b}
    ensures x in eng.entities && x !in {a, b} && a != b
    ensures RelationParents(L, eng.entities[a].Keys) == {eng.classIds[RelationTestClass]}
    ensures ran == 2
  {
    eng := new Engine(L);
    // declaring `relation<RelationTestComponent>()` registers it
    var rid := eng.GetComponentIdForClass(RelationTestClass);
    var sys := new TickingSystem(FamilyOf(L, eng.classIds, [RelationAccessor(RelationTestClass)]));
    RelationFamilyOf(L, eng.classIds, RelationTestClass);
    ghost var f := RelationFamily(rid, false);
    assert sys.family == f;
    sys.TrackQuery(eng);
    var d := Data(RelationTestClass, rel);
    var t := Data(StringClass, text);
    ghost var sid, iid;
    a, b, x, sid, iid := RelationEntities(eng, rid, d, t);
    assert L.packable(rid, sid) && L.packable(rid, iid) && L.packable(sid, rid);
    // the new archetypes are matched as they appear
    sys.TrackQuery(eng);
    ghost var m1 := eng.entities;
    RelationScene(L, m1, rid, sid, iid, a, b, x, d, t);
    SnapshotIsMatching(sys, eng);
    assert MatchingEntities(eng, sys.family) == MatchingIn(L, f, m1);
    assert sys.Snapshot(eng) == {a, b};
    PairSize(a, b);
    ran := sys.DoTick(eng, Observe);
    ObserveKeeps(L, eng.classIds, m1, eng.entities, {a, b});
  }

  /** Two distinct ids make a set of two. */
  lemma PairSize(a: Id, b: Id)
    requires a != b
    ensures |{a, b}| == 2
  {
  }

  /** The three entities of the relations test, in an engine where only RelationTestComponent is registered. */
  method RelationEntities(eng: Engine, rid: Id, d: Component, t: Component)
    returns (a: Id, b: Id, x: Id, ghost sid: Id, ghost iid: Id)
    requires eng.Valid() && eng.entities == map[] && eng.counter == 1 && 10 <= eng.layout.idLimit
    requires eng.classIds == map[RelationTestClass := rid]
    modifies eng
    ensures eng.Valid() && RelationTestClass in eng.classIds && eng.classIds[RelationTestClass] == rid
    ensures eng.entities.Keys == {a, b, x} && a != b && a != x && b != x
    ensures rid < 10 && sid < 10 && iid < 10 && rid != sid
    ensures eng.entities[a] == Store.Add(eng.layout, Store.Set(eng.layout, map[], eng.layout.pack(rid, sid), d), sid)
    ensures eng.entities[b] == Store.Add(eng.layout, Store.Set(eng.layout, map[], eng.layout.pack(rid, iid), d), iid)
    ensures eng.entities[x] == Store.Add(eng.layout, Store.Set(eng.layout, map[], eng.layout.pack(sid, rid), t), rid)
  {
    a, b, sid, iid := ParentEntities(eng, rid, d);
    ghost var ma, mb := eng.entities[a], eng.entities[b];
    x := NewRelationEntity(eng, StringClass, RelationTestClass, t);
    assert eng.classIds[StringClass] == sid && eng.classIds[RelationTestClass] == rid;
    assert eng.entities[a] == ma && eng.entities[b] == mb;
  }

  /** The two entities of the relations test whose relation parent is RelationTestComponent. */
  method ParentEntities(eng: Engine, rid: Id, d: Component) returns (a: Id, b: Id, ghost sid: Id, ghost iid: Id)
    requires eng.Valid() && eng.entities == map[] && eng.counter == 1 && 10 <= eng.layout.idLimit
    requires eng.classIds == map[RelationTestClass := rid]
    modifies eng
    ensures eng.Valid() && eng.counter <= 7
    ensures RelationTestClass in eng.classIds && eng.classIds[RelationTestClass] == rid
    ensures StringClass in eng.classIds && eng.classIds[StringClass] == sid && rid != sid
    ensures sid < 10 && iid < 10
    ensures eng.entities.Keys == {a, b} && a != b
    ensures eng.entities[a] == Store.Add(eng.layout, Store.Set(eng.layout, map[], eng.layout.pack(rid, sid), d), sid)
    ensures eng.entities[b] == Store.Add(eng.layout, Store.Set(eng.layout, map[], eng.layout.pack(rid, iid), d), iid)
  {
    a := NewRelationEntity(eng, RelationTestClass, StringClass, d);
    assert eng.entities.Keys == {a};
    sid := eng.classIds[StringClass];
    ghost var ma := eng.entities[a];
    b := NewRelationEntity(eng, RelationTestClass, IntClass, d);
    iid := eng.classIds[IntClass];
    assert eng.classIds[StringClass] == sid;
    assert eng.entities[a] == ma;
  }

  /** The matching half of the relations test, on the entities it builds. */
  lemma RelationScene(L: Layout, m: map<Id, Entry>, rid: Id, sid: Id, iid: Id,
                      a: Id, b: Id, x: Id, d: Component, t: Component)
    requires L.Valid() && m.Keys == {a, b, x}
    requires rid < L.idLimit && sid < L.idLimit && iid < L.idLimit && rid != sid
    requires L.packable(rid, sid) && L.packable(rid, iid) && L.packable(sid, rid)
    requires m[a] == Store.Add(L, Store.Set(L, map[], L.pack(rid, sid), d), sid)
    requires m[b] == Store.Add(L, Store.Set(L, map[], L.pack(rid, iid), d), iid)
    requires m[x] == Store.Add(L, Store.Set(L, map[], L.pack(sid, rid), t), rid)
    ensures MatchingIn(L, RelationFamily(rid, false), m) == {a, b}
    ensures RelationParents(L, m[a].Keys) == {rid}
  {
    var f := RelationFamily(rid, false);
    BelowLimit(L, rid);
    BelowLimit(L, sid);
    BelowLimit(L, iid);
    RelationMatching(L, rid, sid, sid, d);
    RelationMatching(L, rid, iid, sid, d);
    RelationMatching(L, sid, rid, rid, t);
    MatchingOfThree(L, f, m, a, b, x);
  }

  /** Of three entities, the family matches exactly the two whose types it contains. */
  lemma MatchingOfThree(L: Layout, f: Family, m: map<Id, Entry>, a: Id, b: Id, x: Id)
    requires m.Keys == {a, b, x}
    requires Contains(L, f, m[a].Keys) && Contains(L, f, m[b].Keys) && !Contains(L, f, m[x].Keys)
    ensures MatchingIn(L, f, m) == {a, b}
  {
    var s := MatchingIn(L, f, m);
    assert a in s && b in s && x !in s;
    forall e | e in s
      ensures e == a || e == b
    {
      assert e in {a, b, x};
    }
  }

  /** `get<T>()` alone gives the family type {T or HOLDS_DATA}. */
  lemma OneGetFamily(L: Layout, ids: map<ClassName, Id>, cls: ClassName)
    requires cls in ids
    ensures Declared(ids, [GetAccessor(cls)])
    ensures FamilyOf(L, ids, [GetAccessor(cls)]) == Family({L.Flag(ids[cls])}, {})
  {
    var acc := [GetAccessor(cls)];
    assert acc[0].GetAccessor?;
    assert FamilyOf(L, ids, acc).has == {L.Flag(ids[cls])};
  }
}
