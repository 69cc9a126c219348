/**
 * The engine service: the live entities with their component data, the
 * type (archetype signature) of each, the archetypes created so far, the
 * class-to-id registry and the id counter.
 *
 * An archetype is identified with its type, so "one archetype per distinct
 * type" holds by construction; `archetypes` only grows.
 */
module Engines {
  import opened Wrappers
  import opened Ids
  import opened Store

  /** A registry in which distinct classes have distinct ids. */
  predicate Injective(ids: map<ClassName, Id>) {
    forall a, b :: a in ids && b in ids && a != b ==> ids[a] != ids[b]
  }

  /** `later` keeps every registration of `earlier`. */
  predicate Extends(earlier: map<ClassName, Id>, later: map<ClassName, Id>) {
    forall k :: k in earlier ==> k in later && later[k] == earlier[k]
  }

  /** `later` is `earlier` with `cls` registered, if it was not already, and nothing else. */
  predicate Registered(earlier: map<ClassName, Id>, later: map<ClassName, Id>, cls: ClassName) {
    Extends(earlier, later) && cls in later && forall k :: k in later ==> k in earlier || k == cls
  }

  /** `later` is `earlier` with the classes of `cs` registered, and nothing else. */
  predicate RegisteredAll(earlier: map<ClassName, Id>, later: map<ClassName, Id>, cs: set<ClassName>) {
    && Extends(earlier, later)
    && (forall k :: k in cs ==> k in later)
    && (forall k :: k in later ==> k in earlier || k in cs)
  }

  /** Registering the classes `cs` and then `cls` registers `cs + {cls}`. */
  lemma RegisteredThen(a: map<ClassName, Id>, b: map<ClassName, Id>, c: map<ClassName, Id>, cs: set<ClassName>, cls: ClassName)
    requires RegisteredAll(a, b, cs) && Registered(b, c, cls)
    ensures RegisteredAll(a, c, cs + {cls})
  {
  }

  /** `after` holds the same entities as `before`, with the same data except possibly for `e`. */
  predicate OthersUnchanged(before: map<Id, Entry>, after: map<Id, Entry>, e: Id) {
    after.Keys == before.Keys && forall x :: x in before && x != e ==> after[x] == before[x]
  }

  /** The archetype's type after `addComponentFor`: the `TreeSet` with `c` added. */
  lemma AddType(L: Layout, m: Entry, c: Id)
    ensures SortedOf(Add(L, m, c).Keys) == Insert(SortedOf(m.Keys), c)
  {
    SortedOfInsert(m.Keys, c);
  }

  /** The archetype's type after `setComponentFor`: the `TreeSet` with the data-holding id added. */
  lemma SetType(L: Layout, m: Entry, c: Id, d: Component)
    ensures SortedOf(Set(L, m, c, d).Keys) == Insert(SortedOf(m.Keys), L.Flag(c))
  {
    SortedOfInsert(m.Keys, L.Flag(c));
  }

  /** The archetype's type after `removeComponentFor`: the `TreeSet` with both forms of `c` removed. */
  lemma RemoveType(L: Layout, m: Entry, c: Id)
    ensures SortedOf(Remove(L, m, c).Keys) == Delete(Delete(SortedOf(m.Keys), c), L.Flag(c))
  {
    var k := m.Keys;
    SortedOfDelete(k, c);
    SortedOfDelete(k - {c}, L.Flag(c));
    assert k - {c} - {L.Flag(c)} == k - {c, L.Flag(c)};
  }

  class Engine {
    const layout: Layout
    /** component data of each live entity */
    var entities: map<Id, Entry>
    /** every type an entity has had; an archetype, once created, is never dropped */
    var archetypes: set<set<Id>>
    /** `componentId<T>()`: the id registered for each class */
    var classIds: map<ClassName, Id>
    /** the next id to hand out */
    var counter: nat

    ghost predicate Valid()
      reads this
    {
      && layout.Valid()
      && counter <= layout.idLimit
      && (forall e :: e in entities ==> e < counter && entities[e].Keys in archetypes)
      && (forall k :: k in classIds ==> classIds[k] < counter)
      && Injective(classIds)
    }

    /** There is room to hand out `n` more ids. */
    predicate Room(n: nat)
      reads this
    {
      counter + n <= layout.idLimit
    }

    /** The number of ids registering `cls` takes: none once it is registered. */
    function Unregistered(cls: ClassName): (n: nat)
      reads this
      ensures n <= 1 && (n == 0 <==> cls in classIds)
    {
      if cls in classIds then 0 else 1
    }

    /** `componentId<T>()` can answer for `cls`: it is registered, or an id is left for it. */
    predicate CanRegister(cls: ClassName)
      reads this
    {
      Room(Unregistered(cls))
    }

    constructor (L: Layout)
      requires L.Valid()
      ensures Valid() && layout == L
      ensures entities == map[] && classIds == map[] && counter == 0
      ensures archetypes == {{}}
    {
      layout := L;
      entities := map[];
      archetypes := {{}};
      classIds := map[];
      counter := 0;
    }

    /** `getNextId`: a new live entity with an empty type, under an id no live entity or class holds. */
    method GetNextId() returns (e: Id)
      requires Valid() && Room(1)
      modifies this
      ensures Valid()
      ensures e !in old(entities) && e !in old(classIds).Values
      ensures layout.Plain(e)
      ensures entities.Keys == old(entities).Keys + {e} && entities[e] == map[]
      ensures forall x :: x in old(entities) ==> entities[x] == old(entities)[x]
      ensures archetypes == old(archetypes) + {{}}
      ensures classIds == old(classIds) && counter == old(counter) + 1
    {
      e := counter;
      BelowLimit(layout, e);
      counter := counter + 1;
      entities := entities[e := map[]];
      archetypes := archetypes + {{}};
      assert entities[e].Keys == {};
    }

    /** `getComponentsFor`: the payloads of a live entity; nothing for any other id. */
    function GetComponentsFor(e: Id): (r: set<Component>)
      reads this
      ensures e !in entities ==> r == {}
      ensures e in entities ==> r == Components(entities[e])
    {
      if e in entities then Components(entities[e]) else {}
    }

    /** `getComponentFor`: absent when the entity lacks `c` and when `c` holds no data. */
    function GetComponentFor(e: Id, c: Id): (r: Option<Component>)
      reads this
      ensures e !in entities ==> r == None
      ensures e in entities && !Has(layout, entities[e], c) ==> r == None
      ensures e in entities && c in entities[e] && layout.Flag(c) !in entities[e] ==> r == None
      ensures r.Some? ==> e in entities && layout.Flag(c) in entities[e] && entities[e][layout.Flag(c)] == r
      ensures r.Some? ==> r.value in GetComponentsFor(e)
    {
      if e in entities then Get(layout, entities[e], c) else None
    }

    /** `hasComponentFor`: `c` is held, as a tag or with data. */
    predicate HasComponentFor(e: Id, c: Id)
      reads this
    {
      e in entities && Has(layout, entities[e], c)
    }

    /** The ids an entity holds, as a set. */
    function TypeOf(e: Id): set<Id>
      reads this
    {
      if e in entities then entities[e].Keys else {}
    }

    /** `getType`: the ids the entity holds as a `TreeSet`: ascending, duplicate-free, nothing stale or missing. */
    function GetType(e: Id): (t: seq<Id>)
      reads this
      ensures Ascending(t) && Elems(t) == TypeOf(e)
    {
      SortedOf(TypeOf(e))
    }

    /** `addComponentFor`: adds `c` to the entity's type without data. */
    method AddComponentFor(e: Id, c: Id)
      requires Valid() && e in entities
      modifies this
      ensures Valid()
      ensures OthersUnchanged(old(entities), entities, e) && entities[e] == Add(layout, old(entities)[e], c)
      ensures archetypes == old(archetypes) + {entities[e].Keys}
      ensures classIds == old(classIds) && counter == old(counter)
    {
      entities := entities[e := Add(layout, entities[e], c)];
      archetypes := archetypes + {entities[e].Keys};
    }

    /** `setComponentFor`: stores `d` under the data-holding form of `c`. */
    method SetComponentFor(e: Id, c: Id, d: Component)
      requires Valid() && e in entities
      modifies this
      ensures Valid()
      ensures OthersUnchanged(old(entities), entities, e) && entities[e] == Set(layout, old(entities)[e], c, d)
      ensures archetypes == old(archetypes) + {entities[e].Keys}
      ensures classIds == old(classIds) && counter == old(counter)
    {
      entities := entities[e := Set(layout, entities[e], c, d)];
      archetypes := archetypes + {entities[e].Keys};
    }

    /** `setRelationFor`: `setComponentFor` with the id packed from `parent` and `forComponent`. */
    method SetRelationFor(e: Id, parent: Id, forComponent: Id, d: Component)
      requires Valid() && e in entities
      modifies this
      ensures Valid()
      ensures OthersUnchanged(old(entities), entities, e) && entities[e] == Set(layout, old(entities)[e], layout.pack(parent, forComponent), d)
      ensures archetypes == old(archetypes) + {entities[e].Keys}
      ensures classIds == old(classIds) && counter == old(counter)
    {
      SetComponentFor(e, layout.pack(parent, forComponent), d);
    }

    /** `removeComponentFor`: drops `c` with its data; answers whether the type changed. */
    method RemoveComponentFor(e: Id, c: Id) returns (removed: bool)
      requires Valid() && e in entities
      modifies this
      ensures Valid()
      ensures removed == Has(layout, old(entities)[e], c)
      ensures OthersUnchanged(old(entities), entities, e) && entities[e] == Remove(layout, old(entities)[e], c)
      ensures archetypes == old(archetypes) + {entities[e].Keys}
      ensures classIds == old(classIds) && counter == old(counter)
    {
      removed := Has(layout, entities[e], c);
      entities := entities[e := Remove(layout, entities[e], c)];
      archetypes := archetypes + {entities[e].Keys};
    }

    /** `removeEntity`: the entity is no longer live; its id is not handed out again. */
    method RemoveEntity(e: Id)
      requires Valid()
      modifies this
      ensures Valid()
      ensures entities == old(entities) - {e}
      ensures archetypes == old(archetypes) && classIds == old(classIds) && counter == old(counter)
    {
      entities := entities - {e};
    }

    /** `getComponentIdForClass`: the id of `cls`, registered under a new id on first use only. */
    method GetComponentIdForClass(cls: ClassName) returns (c: Id)
      requires Valid() && CanRegister(cls)
      modifies this
      ensures Valid()
      ensures cls in classIds && c == classIds[cls] && layout.Plain(c)
      ensures Registered(old(classIds), classIds, cls) && counter == old(counter) + old(Unregistered(cls))
      ensures cls in old(classIds) ==> classIds == old(classIds) && counter == old(counter)
      ensures cls !in old(classIds) ==>
        c !in old(classIds).Values && classIds == old(classIds)[cls := c] && counter == old(counter) + 1
      ensures entities == old(entities) && archetypes == old(archetypes)
    {
      if cls in classIds {
        c := classIds[cls];
      } else {
        c := counter;
        counter := counter + 1;
        classIds := classIds[cls := c];
      }
      BelowLimit(layout, c);
    }
  }
}
