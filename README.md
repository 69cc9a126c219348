# Geary ECS core in Dafny

This project models the storage core of Geary, an archetype-based
entity-component-relation engine:

- **Id space.** Entities and components share one space of 64-bit
  unsigned ids (`ULong`).
  - A component stored with data sits under its id with the `HOLDS_DATA`
    flag set.
  - `ENTITY_MASK` clears the reserved high bits of an id.
  - A relation packs a parent and a component into one id.
- **Engine.** `Engine` hands out ids (`getNextId`) and registers classes
  (`componentId<T>()`). It stores, reads and removes components, data and
  relations per entity, and reports each entity's type.
- **Type.** A type is the sorted, duplicate-free set (`TreeSet`) of the ids
  an entity holds. Every type an entity takes becomes a known archetype.
- **`GearyEntity`.** This wraps an entity id, together with the helpers of
  `EntityHelpers.kt`. Its convenience operations (`set`, `setAll`,
  `setRelation`, `add`, `remove`, `get`, `getOrSet`, the persisting
  variants, `has`, `hasAll`) go through the engine.
- **Families.** A family is the predicate a system uses to select types:
  required ids plus required relation parents. A relation requirement may
  also demand that the relation's component hold data.
- **Ticking systems.** A ticking system derives its family from its
  accessors (`get<T>`, `has<T>`, `relation<T>`). Tracking the system
  matches that family against the known archetypes, and each tick runs the
  system's body on every entity of a matched archetype.

## Modules

| file | module | models |
|---|---|---|
| `bits.dfy` | `Bits` | bitwise `and` and `or` on unsigned integers, and the facts masking and flagging rely on |
| `ids.dfy` | `Ids` | the id layout (`HOLDS_DATA`, `ENTITY_MASK`, relation packing), kept abstract behind a `Valid` predicate, with one concrete layout that meets it; types as ascending sequences (`TreeSet`) |
| `store.dfy` | `Store` | one entity's component map (id to optional payload) and the engine's per-entity operations on it |
| `engine.dfy` | `Engines` | the `Engine` class: live entities, known archetypes, the class registry and the id counter |
| `entity.dfy` | `Entities` | `GearyEntity` and its operations |
| `helpers.dfy` | `EntityHelpers` | `geary(...)`, `gearyNoMask`, `swapComponent`, `createEntity` |
| `family.dfy` | `Families` | families, relation requirements and `type in family`, with the family test's cases |
| `systems.dfy` | `Systems` | accessors, the family they make up, `trackQuery`, matching entities, `doTick`, and the system manager test's scenarios |
| `wrappers.dfy` | `Wrappers` | `Option` and a pass/fail outcome |

An entity's entry is a `map<Id, Option<Component>>`, and the entry's key set
is the entity's type:

- `setComponentFor(c, d)` stores `Some(d)` under the data-holding form of `c`.
- `addComponentFor(c)` stores `None` under `c`.
- `removeComponentFor(c)` drops both forms.

A `TreeSet` type is recovered from the key set by `SortedOf`, and every id
the engine hands out is plain: the mask leaves it unchanged.

## Model

| member | source | states |
|---|---|---|
| `Ids.FlagFits` | core/src/main/kotlin/com/mineinabyss/geary/ecs/api/TypeAliases.kt:17-20 | every id the engine hands out, and its data-holding form, lies below 2^64, so it is a `ULong` |
| `Ids.PlainFacts` | core/src/main/kotlin/com/mineinabyss/geary/ecs/api/entities/EntityHelpers.kt:17 | an id the mask leaves unchanged has no data flag, differs from its flagged form, is recovered from that form by masking, and is not a relation in either form |
| `Ids.BelowLimit` | core/src/main/kotlin/com/mineinabyss/geary/ecs/api/engine/Engine.kt:22-23 | every id the engine hands out is plain, carries no data flag, and is not a relation in either form |
| `Ids.FlagInjective` | core/src/main/kotlin/com/mineinabyss/geary/ecs/api/entities/GearyEntity.kt:57-59 | two ids without the flag are equal exactly when their data-holding forms are |
| `Ids.FlagDistinct` | core/src/main/kotlin/com/mineinabyss/geary/ecs/api/entities/GearyEntity.kt:57-59 | the data-holding form of a plain id is never a plain id, and it names the same id only for the same plain id |
| `Ids.MaskIdempotent` | core/src/main/kotlin/com/mineinabyss/geary/ecs/api/entities/EntityHelpers.kt:17 | masking an already-masked id leaves it unchanged |
| `Ids.ExampleLayoutValid` | core/src/main/kotlin/com/mineinabyss/geary/ecs/api/TypeAliases.kt:17-20 | a concrete 64-bit layout meets every assumption the model makes about `HOLDS_DATA`, `ENTITY_MASK` and relation packing |
| `Ids.InsertElems` | core/src/main/kotlin/com/mineinabyss/geary/ecs/api/TypeAliases.kt:24 | adding to a `TreeSet` adds exactly that id to its elements |
| `Ids.InsertAscending` | core/src/main/kotlin/com/mineinabyss/geary/ecs/api/TypeAliases.kt:24 | adding to a `TreeSet` keeps it ascending |
| `Ids.InsertPresent` | core/src/main/kotlin/com/mineinabyss/geary/ecs/api/TypeAliases.kt:24 | adding an id that is already present changes nothing |
| `Ids.DeleteSpec` | core/src/main/kotlin/com/mineinabyss/geary/ecs/api/TypeAliases.kt:24 | removing from a `TreeSet` removes exactly that id and keeps it ascending |
| `Ids.AscendingUnique` | core/src/main/kotlin/com/mineinabyss/geary/ecs/api/TypeAliases.kt:24 | two ascending sequences with the same elements are equal, so a type has one representation |
| `Ids.AscendingDistinct` | core/src/main/kotlin/com/mineinabyss/geary/ecs/api/TypeAliases.kt:24 | an ascending sequence has no duplicates |
| `Ids.SortedOf` | core/src/main/kotlin/com/mineinabyss/geary/ecs/api/TypeAliases.kt:24 | the `TreeSet` of a set of ids is ascending and holds exactly those ids |
| `Ids.SortedOfInsert` | core/src/main/kotlin/com/mineinabyss/geary/ecs/api/TypeAliases.kt:24 | sorting a set with one more id equals inserting that id into the sorted set |
| `Ids.Insert` | core/src/main/kotlin/com/mineinabyss/geary/ecs/api/TypeAliases.kt:24 | `TreeSet.add` puts the id at its place in the order, growing the sequence by at most one; what it holds and its order are proved in `Ids.InsertElems`, `Ids.InsertAscending` and `Ids.InsertPresent` |
| `Ids.Delete` | core/src/main/kotlin/com/mineinabyss/geary/ecs/api/TypeAliases.kt:24 | `TreeSet.remove` drops the id and never grows the sequence; what it holds and its order are proved in `Ids.DeleteSpec` |
| `Ids.SortedOfDelete` | core/src/main/kotlin/com/mineinabyss/geary/ecs/api/TypeAliases.kt:24 | sorting a set with one id less equals deleting that id from the sorted set |
| `Store.Components` | core/src/main/kotlin/com/mineinabyss/geary/ecs/api/engine/Engine.kt:28-29 | definition: every payload stored in the entry, tags contributing none |
| `Store.Has` | core/src/main/kotlin/com/mineinabyss/geary/ecs/api/engine/Engine.kt:37-38 | definition: the id is held as a tag or with data |
| `Store.As` | core/src/main/kotlin/com/mineinabyss/geary/ecs/api/entities/GearyEntity.kt:117-118 | `as? T` answers the component exactly when one is present and its class is `T` |
| `Store.Get` | core/src/main/kotlin/com/mineinabyss/geary/ecs/api/engine/Engine.kt:34-35 | absent when the id is not held and when it is held only as a tag; present exactly when a payload is stored under the id's data-holding form, and then it is that payload |
| `Store.Add` | core/src/main/kotlin/com/mineinabyss/geary/ecs/api/engine/Engine.kt:40-41 | the type gains exactly `c`, as a tag when new; every other entry, every payload and the data under `c` are kept |
| `Store.Set` | core/src/main/kotlin/com/mineinabyss/geary/ecs/api/engine/Engine.kt:43-44 | `get(c)` then answers `d`; the type gains exactly the data-holding form of `c`; every other entry is kept |
| `Store.GetSetOther` | core/src/main/kotlin/com/mineinabyss/geary/ecs/api/engine/Engine.kt:43-44 | setting one component leaves the data of every other component as it was |
| `Store.Remove` | core/src/main/kotlin/com/mineinabyss/geary/ecs/api/engine/Engine.kt:54-55 | both forms of `c` leave the type and nothing else changes; removing an id that is not held changes nothing |
| `Store.Recorded` | core/src/main/kotlin/com/mineinabyss/geary/ecs/api/entities/GearyEntity.kt:140-141 | the set in the entity's `PersistingComponents`, or empty when it has none |
| `Store.PersistingComponents` | core/src/main/kotlin/com/mineinabyss/geary/ecs/api/entities/GearyEntity.kt:140-141 | exactly the components that are both held and recorded |
| `Store.InstanceComponents` | core/src/main/kotlin/com/mineinabyss/geary/ecs/api/entities/GearyEntity.kt:145-146 | disjoint from the persisting components and from the record; together with the persisting components it makes up all components |
| `Store.RecordPersisting` | core/src/main/kotlin/com/mineinabyss/geary/ecs/api/entities/GearyEntity.kt:79-85 | definition: the record after `addAll` is the old record plus the added components; `Entities.SetPersistingRecords` and `Entities.SetAllPersistingEntry` are proved against it |
| `Engines.AddType` | core/src/main/kotlin/com/mineinabyss/geary/ecs/api/engine/Engine.kt:64-65 | the type after `addComponentFor(c)` is the old `TreeSet` with `c` inserted |
| `Engines.SetType` | core/src/main/kotlin/com/mineinabyss/geary/ecs/api/engine/Engine.kt:64-65 | the type after `setComponentFor(c)` is the old `TreeSet` with `c or HOLDS_DATA` inserted |
| `Engines.RemoveType` | core/src/main/kotlin/com/mineinabyss/geary/ecs/api/engine/Engine.kt:64-65 | the type after `removeComponentFor(c)` is the old `TreeSet` without `c` and without `c or HOLDS_DATA` |
| `Engines.Engine.GetNextId` | core/src/main/kotlin/com/mineinabyss/geary/ecs/api/engine/Engine.kt:22-23 | a plain id that no live entity and no class holds; it becomes a live entity with an empty type, and nothing else changes |
| `Engines.Engine.GetComponentsFor` | core/src/main/kotlin/com/mineinabyss/geary/ecs/api/engine/Engine.kt:28-29 | definition: the payloads of a live entity, and nothing for any other id; `Entities.GearyEntity.GetComponents` and `Store.Set` build on it |
| `Engines.Engine.GetComponentFor` | core/src/main/kotlin/com/mineinabyss/geary/ecs/api/engine/Engine.kt:34-35 | absent for a dead entity, for an id the entity does not hold, and for an id it holds only as a tag; any answer is the payload under the data-holding form, one of its components |
| `Engines.Engine.HasComponentFor` | core/src/main/kotlin/com/mineinabyss/geary/ecs/api/engine/Engine.kt:37-38 | definition: the entity is live and holds the id as a tag or with data |
| `Engines.Engine.GetType` | core/src/main/kotlin/com/mineinabyss/geary/ecs/api/engine/Engine.kt:64-65 | ascending and holding exactly the ids the entity holds |
| `Engines.Engine.AddComponentFor` | core/src/main/kotlin/com/mineinabyss/geary/ecs/api/engine/Engine.kt:40-41 | only this entity changes, by `Store.Add`; its new type joins the archetypes; the registry and counter are untouched |
| `Engines.Engine.SetComponentFor` | core/src/main/kotlin/com/mineinabyss/geary/ecs/api/engine/Engine.kt:43-44 | only this entity changes, by `Store.Set`; its new type joins the archetypes |
| `Engines.Engine.SetRelationFor` | core/src/main/kotlin/com/mineinabyss/geary/ecs/api/engine/Engine.kt:46-52 | `setComponentFor` under the id packed from parent and component |
| `Engines.Engine.RemoveComponentFor` | core/src/main/kotlin/com/mineinabyss/geary/ecs/api/engine/Engine.kt:54-55 | answers whether the entity held `c`; only this entity changes, by `Store.Remove` |
| `Engines.Engine.RemoveEntity` | core/src/main/kotlin/com/mineinabyss/geary/ecs/api/engine/Engine.kt:57-58 | the entity is no longer live; every other entity, the registry and the counter are untouched |
| `Engines.Engine.GetComponentIdForClass` | core/src/main/kotlin/com/mineinabyss/geary/ecs/api/engine/Engine.kt:61-62 | the class's registered id; a new plain id on first use, and the same id, with nothing changed, afterwards |
| `Entities.SetAllStoresLast` | core/src/main/kotlin/com/mineinabyss/geary/ecs/api/entities/GearyEntity.kt:48-51 | after `setAll(cs)`, the data under each class's id is the last component of that class in `cs` |
| `Entities.SetAllKeepsOthers` | core/src/main/kotlin/com/mineinabyss/geary/ecs/api/entities/GearyEntity.kt:48-51 | `setAll(cs)` leaves the data of every class not in `cs` as it was |
| `Entities.AddAllEntry` | core/src/main/kotlin/com/mineinabyss/geary/ecs/api/entities/GearyEntity.kt:70-72 | the type gains exactly the given ids, new ones as tags; old entries and payloads are kept |
| `Entities.FirstHeld` | core/src/main/kotlin/com/mineinabyss/geary/ecs/api/entities/GearyEntity.kt:113-114 | the first index whose id is held, and none held before it; absent exactly when none is held |
| `Entities.RemoveAllEntry` | core/src/main/kotlin/com/mineinabyss/geary/ecs/api/entities/GearyEntity.kt:113-114 | only the first held id is removed (`any` stops there); nothing changes when none is held |
| `Entities.SetPersistingEntry` | core/src/main/kotlin/com/mineinabyss/geary/ecs/api/entities/GearyEntity.kt:79-85 | afterwards the entity holds a `PersistingComponents` record |
| `Entities.SetPersistingRecords` | core/src/main/kotlin/com/mineinabyss/geary/ecs/api/entities/GearyEntity.kt:79-85 | after `setPersisting(d)`, `d` is a persisting component, and the record is the earlier one plus `d` |
| `Entities.SetAllPersistingEntry` | core/src/main/kotlin/com/mineinabyss/geary/ecs/api/entities/GearyEntity.kt:91-97 | the record after `setAllPersisting(cs)` is the record after `setAll(cs)` plus all of `cs` |
| `Entities.GearyEntity.RemoveEntity` | core/src/main/kotlin/com/mineinabyss/geary/ecs/api/entities/GearyEntity.kt:30-32 | the entity is no longer live and has no components |
| `Entities.GearyEntity.Set` | core/src/main/kotlin/com/mineinabyss/geary/ecs/api/entities/GearyEntity.kt:34-38 | returns the component, which `get` then answers under the class's id; the class is registered on first use; other entities are untouched |
| `Entities.GearyEntity.SetCollection` | core/src/main/kotlin/com/mineinabyss/geary/ecs/api/entities/GearyEntity.kt:45-46 | setting a collection as one component always fails and stores nothing |
| `Entities.GearyEntity.SetAll` | core/src/main/kotlin/com/mineinabyss/geary/ecs/api/entities/GearyEntity.kt:48-51 | each component is set in turn under its own class's id; exactly the classes of `cs` are newly registered |
| `Entities.GearyEntity.SetRelation` | core/src/main/kotlin/com/mineinabyss/geary/ecs/api/entities/GearyEntity.kt:53-55 | the parent data is set under the relation id packed from the two classes' ids; exactly those two classes are registered |
| `Entities.GearyEntity.SetRelationWithData` | core/src/main/kotlin/com/mineinabyss/geary/ecs/api/entities/GearyEntity.kt:57-59 | as `SetRelation`, with the component's data-holding id packed in |
| `Entities.GearyEntity.Add` | core/src/main/kotlin/com/mineinabyss/geary/ecs/api/entities/GearyEntity.kt:62-64 | the id joins the type as a tag, and `has` then holds |
| `Entities.GearyEntity.AddClass` | core/src/main/kotlin/com/mineinabyss/geary/ecs/api/entities/GearyEntity.kt:66-68 | the class's id joins the type, and the class is registered on first use |
| `Entities.GearyEntity.AddAll` | core/src/main/kotlin/com/mineinabyss/geary/ecs/api/entities/GearyEntity.kt:70-72 | the entry becomes `AddAllEntry`: every id is added |
| `Entities.GearyEntity.SetPersisting` | core/src/main/kotlin/com/mineinabyss/geary/ecs/api/entities/GearyEntity.kt:79-85 | returns the component; the entry becomes `SetPersistingEntry`; the class and `PersistingComponents` are registered |
| `Entities.GearyEntity.RecordOne` | core/src/main/kotlin/com/mineinabyss/geary/ecs/api/entities/GearyEntity.kt:83 | the record, created empty when missing, gains the component |
| `Entities.GearyEntity.SetAllPersisting` | core/src/main/kotlin/com/mineinabyss/geary/ecs/api/entities/GearyEntity.kt:91-97 | the entry becomes `SetAllPersistingEntry`: `setAll`, then every component joins the record |
| `Entities.GearyEntity.RecordAll` | core/src/main/kotlin/com/mineinabyss/geary/ecs/api/entities/GearyEntity.kt:94-96 | the existing record gains the components, or a new record of them is set |
| `Entities.GearyEntity.RemoveClass` | core/src/main/kotlin/com/mineinabyss/geary/ecs/api/entities/GearyEntity.kt:104-105 | answers whether the class's id was held; that id is removed in both forms (the masked fallback removes nothing more) |
| `Entities.GearyEntity.RemoveKClass` | core/src/main/kotlin/com/mineinabyss/geary/ecs/api/entities/GearyEntity.kt:107-108 | answers whether the class's id was held, and removes it |
| `Entities.GearyEntity.Remove` | core/src/main/kotlin/com/mineinabyss/geary/ecs/api/entities/GearyEntity.kt:110-111 | answers whether the id was held, and it is not held afterwards |
| `Entities.GearyEntity.RemoveAll` | core/src/main/kotlin/com/mineinabyss/geary/ecs/api/entities/GearyEntity.kt:113-114 | answers whether any id was held; only the first held one is removed |
| `Entities.GearyEntity.Get` | core/src/main/kotlin/com/mineinabyss/geary/ecs/api/entities/GearyEntity.kt:125-126 | absent when the id is not held and when it is held only as a tag; present exactly when a payload is stored under the id's data-holding form; any answer is one of the entity's components |
| `Entities.GearyEntity.GetClass` | core/src/main/kotlin/com/mineinabyss/geary/ecs/api/entities/GearyEntity.kt:117-122 | the component under the class's id exactly when it is of that class; the entities are unchanged |
| `Entities.GearyEntity.GetOrSet` | core/src/main/kotlin/com/mineinabyss/geary/ecs/api/entities/GearyEntity.kt:129-130 | the existing component of the class, with nothing changed; otherwise the default, newly set |
| `Entities.GearyEntity.GetOrSetPersisting` | core/src/main/kotlin/com/mineinabyss/geary/ecs/api/entities/GearyEntity.kt:133-134 | the existing component of the class, with nothing changed; otherwise the default, newly set as persisting |
| `Entities.GearyEntity.GetComponents` | core/src/main/kotlin/com/mineinabyss/geary/ecs/api/entities/GearyEntity.kt:137 | exactly the payloads the entity holds, which include every answer of `get`; empty for a dead entity |
| `Entities.GearyEntity.GetPersistingComponents` | core/src/main/kotlin/com/mineinabyss/geary/ecs/api/entities/GearyEntity.kt:140-141 | the recorded components the entity holds, a subset of its components |
| `Entities.GearyEntity.GetInstanceComponents` | core/src/main/kotlin/com/mineinabyss/geary/ecs/api/entities/GearyEntity.kt:145-146 | the components the entity holds that are not recorded |
| `Entities.GearyEntity.Has` | core/src/main/kotlin/com/mineinabyss/geary/ecs/api/entities/GearyEntity.kt:155-156 | definition: `hasComponentFor` on the entity's own id |
| `Entities.GearyEntity.HasClass` | core/src/main/kotlin/com/mineinabyss/geary/ecs/api/entities/GearyEntity.kt:152 | true exactly when the class's id is held; the entities are unchanged |
| `Entities.GearyEntity.HasAll` | core/src/main/kotlin/com/mineinabyss/geary/ecs/api/entities/GearyEntity.kt:161-162 | true exactly when every class's id is held; only classes of the list are newly registered |
| `EntityHelpers.Geary` | core/src/main/kotlin/com/mineinabyss/geary/ecs/api/entities/EntityHelpers.kt:17 | the entity's id is plain and no larger than the given id |
| `EntityHelpers.GearyNoMask` | core/src/main/kotlin/com/mineinabyss/geary/ecs/api/entities/EntityHelpers.kt:20 | definition: the entity of the id as given; `EntityHelpers.GearyNoMaskAgrees` and `EntityHelpers.GearyDropsFlag` compare it with `geary` |
| `EntityHelpers.GearyIdempotent` | core/src/main/kotlin/com/mineinabyss/geary/ecs/api/entities/EntityHelpers.kt:17 | wrapping the id of a wrapped entity gives that entity back |
| `EntityHelpers.GearyNoMaskAgrees` | core/src/main/kotlin/com/mineinabyss/geary/ecs/api/entities/EntityHelpers.kt:20 | `gearyNoMask` and `geary` agree exactly on plain ids, and so on every id the engine hands out |
| `EntityHelpers.GearyDropsFlag` | core/src/main/kotlin/com/mineinabyss/geary/ecs/api/entities/EntityHelpers.kt:17 | `geary` of a data-holding id names the plain entity, while `gearyNoMask` does not |
| `EntityHelpers.ToULong` | core/src/main/kotlin/com/mineinabyss/geary/ecs/api/entities/EntityHelpers.kt:24 | the unsigned value with the same 64 bits; non-negative values are unchanged |
| `EntityHelpers.ToLong` | core/src/main/kotlin/com/mineinabyss/geary/ecs/api/entities/EntityHelpers.kt:24 | the signed value with the same 64 bits; values up to `Long.MAX_VALUE` are unchanged |
| `EntityHelpers.ToULongRoundTrip` | core/src/main/kotlin/com/mineinabyss/geary/ecs/api/entities/EntityHelpers.kt:24 | `x.toULong().toLong() == x` |
| `EntityHelpers.ToLongRoundTrip` | core/src/main/kotlin/com/mineinabyss/geary/ecs/api/entities/EntityHelpers.kt:24 | `u.toLong().toULong() == u` |
| `EntityHelpers.GearyLong` | core/src/main/kotlin/com/mineinabyss/geary/ecs/api/entities/EntityHelpers.kt:24 | the entity's id is plain |
| `EntityHelpers.GearyLongAgrees` | core/src/main/kotlin/com/mineinabyss/geary/ecs/api/entities/EntityHelpers.kt:24 | `geary(Long)` and `geary(ULong)` name the same entity for the same bits |
| `EntityHelpers.Put` | core/src/main/kotlin/com/mineinabyss/geary/ecs/api/entities/EntityHelpers.kt:35-43 | `get` then answers the put value (absent means the id is gone); ids other than `T`'s are untouched |
| `EntityHelpers.GetAs` | core/src/main/kotlin/com/mineinabyss/geary/ecs/api/entities/EntityHelpers.kt:32-33 | any answer is of class `T` and among the entity's components |
| `EntityHelpers.SwapExchanges` | core/src/main/kotlin/com/mineinabyss/geary/ecs/api/entities/EntityHelpers.kt:31-46 | after a swap each side answers `get<T>()` with what the other answered before |
| `EntityHelpers.SwapTwice` | core/src/main/kotlin/com/mineinabyss/geary/ecs/api/entities/EntityHelpers.kt:31-46 | swapping twice gives each side its own `T` back |
| `EntityHelpers.SwapKeepsOthers` | core/src/main/kotlin/com/mineinabyss/geary/ecs/api/entities/EntityHelpers.kt:31-46 | a swap leaves every id other than `T`'s, in either form, as it was on both sides |
| `EntityHelpers.PutTwice` | core/src/main/kotlin/com/mineinabyss/geary/ecs/api/entities/EntityHelpers.kt:35-43 | putting the same answer twice is putting it once, so swapping an entity with itself is stable |
| `EntityHelpers.PutClass` | core/src/main/kotlin/com/mineinabyss/geary/ecs/api/entities/EntityHelpers.kt:35-43 | only this entity changes, by `Put` |
| `EntityHelpers.SwapComponent` | core/src/main/kotlin/com/mineinabyss/geary/ecs/api/entities/EntityHelpers.kt:31-46 | each present side ends with the other side's `T` (removed when the other has none); the answer is whether either side held a `T`; nothing else changes |
| `EntityHelpers.CreateEntity` | core/src/main/kotlin/com/mineinabyss/geary/ecs/api/entities/EntityHelpers.kt:48-53 | a new live entity holding, under each class's id, the last component of that class, and no component outside the collection |
| `EntityHelpers.SetAllHoldsOnly` | core/src/main/kotlin/com/mineinabyss/geary/ecs/api/entities/EntityHelpers.kt:48-53 | an entity built by `setAll` from nothing holds only components of the collection |
| `Families.Contains` | core/src/test/java/com/mineinabyss/geary/ecs/api/systems/FamilyTest.kt:16-23 | definition of `type in family`: every required id is in the type and every relation requirement is met by some relation of the type |
| `Families.ContainsIds` | core/src/test/java/com/mineinabyss/geary/ecs/api/systems/FamilyTest.kt:16-23 | a family of ids alone matches a type exactly when the type holds all of them; this unfolds the definition of `Families.Contains` |
| `Families.ContainsMonotone` | core/src/test/java/com/mineinabyss/geary/ecs/api/systems/FamilyTest.kt:16-23 | a type holding more ids never loses a match |
| `Families.ContainsAntitone` | core/src/test/java/com/mineinabyss/geary/ecs/api/systems/FamilyTest.kt:16-23 | a family requiring less never loses a match |
| `Families.HoldDataStronger` | core/src/test/java/com/mineinabyss/geary/ecs/api/systems/FamilyTest.kt:37-46 | a relation that meets the data-holding requirement also meets the plain one |
| `Families.WrongParentRejected` | core/src/test/java/com/mineinabyss/geary/ecs/api/systems/FamilyTest.kt:26-34 | a relation to another parent never meets a requirement, with or without data |
| `Families.MissingComponentRejected` | core/src/test/java/com/mineinabyss/geary/ecs/api/systems/FamilyTest.kt:26-34 | a relation whose component is not held never meets a requirement |
| `Families.RelationWithComponent` | core/src/test/java/com/mineinabyss/geary/ecs/api/systems/FamilyTest.kt:37-46 | a relation with its component held meets the plain requirement; the data-holding requirement needs the component's data-holding id |
| `Families.ContainsCases` | core/src/test/java/com/mineinabyss/geary/ecs/api/systems/FamilyTest.kt:16-23 | family {1, 2, 3} rejects {1, 2} and accepts {1, 2, 3} and {1, 2, 3, 4} |
| `Families.ContainsRelationCases` | core/src/test/java/com/mineinabyss/geary/ecs/api/systems/FamilyTest.kt:26-34 | the relation family of parent 15 rejects parent 14 and a missing component, and accepts the relation with its component |
| `Families.ContainsRelationWithDataCases` | core/src/test/java/com/mineinabyss/geary/ecs/api/systems/FamilyTest.kt:37-46 | when data is required, the plain component is also rejected and `1 or HOLDS_DATA` is accepted |
| `Families.ExampleCases` | core/src/test/java/com/mineinabyss/geary/ecs/api/systems/FamilyTest.kt:37-46 | the data-flag cases hold in the concrete layout |
| `Systems.FamilyOf` | core/src/test/java/com/mineinabyss/geary/ecs/api/systems/SystemManagerTest.kt:37-45 | definition: `get<T>` requires `T`'s data-holding id, `has<T>` requires `T`'s id, `relation<T>` requires a relation to `T`; `Systems.GetHasFamily` and `Systems.RelationFamilyOf` compute it for the tests |
| `Systems.MatchedHoldsAccessors` | core/src/test/java/com/mineinabyss/geary/ecs/api/systems/SystemManagerTest.kt:37-45 | an entity the family matches holds what each accessor reads: data for `get<T>`, the id for `has<T>`, and for `relation<T>` a relation to `T` together with that relation's component |
| `Systems.MatchedMonotone` | core/src/test/java/com/mineinabyss/geary/ecs/api/systems/SystemManagerTest.kt:136-137 | the matched archetypes only grow as archetypes are created, and a new archetype is matched exactly when the family contains it |
| `Systems.MatchingEntities` | core/src/test/java/com/mineinabyss/geary/ecs/api/systems/SystemManagerTest.kt:66-71 | definition of `getEntitiesMatching`: the live entities whose type the family contains |
| `Systems.MatchingByArchetype` | core/src/test/java/com/mineinabyss/geary/ecs/api/systems/SystemManagerTest.kt:66-71 | an entity matches the family exactly when its archetype is a matched one |
| `Systems.Visited` | core/src/test/java/com/mineinabyss/geary/ecs/api/systems/SystemManagerTest.kt:86-89 | an observing body changes nothing; `remove<T>()` leaves the entity without `T` and with no new ids |
| `Systems.ObserveKeeps` | core/src/test/java/com/mineinabyss/geary/ecs/api/systems/SystemManagerTest.kt:115-119 | a tick whose body only reads leaves every entity as it was |
| `Systems.Visit` | core/src/test/java/com/mineinabyss/geary/ecs/api/systems/SystemManagerTest.kt:86-89 | only the visited entity changes, as `Visited` says |
| `Systems.TickingSystem.TrackQuery` | core/src/test/java/com/mineinabyss/geary/ecs/api/systems/SystemManagerTest.kt:52 | the matched archetypes are exactly the known archetypes the family contains |
| `Systems.TickingSystem.DoTick` | core/src/test/java/com/mineinabyss/geary/ecs/api/systems/SystemManagerTest.kt:97-105 | the body runs once on each entity of the snapshot taken at the start of the tick and on no other entity; the run count is the snapshot's size |
| `Systems.SnapshotIsMatching` | core/src/test/java/com/mineinabyss/geary/ecs/api/systems/SystemManagerTest.kt:100-103 | for a tracking system, the tick's snapshot is exactly `getEntitiesMatching(family)` |
| `Systems.GetHasFamily` | core/src/test/java/com/mineinabyss/geary/ecs/api/systems/SystemManagerTest.kt:56-58 | `get<String>()` and `has<Int>()` give the family {String or HOLDS_DATA, Int} |
| `Systems.GetHasMatching` | core/src/test/java/com/mineinabyss/geary/ecs/api/systems/SystemManagerTest.kt:66-71 | String data with an Int tag matches that family; String data with Int data does not |
| `Systems.RemoveOnlyComponent` | core/src/test/java/com/mineinabyss/geary/ecs/api/systems/SystemManagerTest.kt:104 | an entity holding only String data has no components once String is removed |
| `Systems.SpawnWith` | core/src/test/java/com/mineinabyss/geary/ecs/api/systems/SystemManagerTest.kt:99 | creates `n` distinct new entities, each holding exactly the given String data |
| `Systems.ConcurrentModification` | core/src/test/java/com/mineinabyss/geary/ecs/api/systems/SystemManagerTest.kt:97-105 | the removing system runs once per matching entity (`ran == total == n`), and every created entity ends with no components |
| `Systems.RelationFamilyOf` | core/src/test/java/com/mineinabyss/geary/ecs/api/systems/SystemManagerTest.kt:121 | `relation<RelationTestComponent>()` gives a family with one relation requirement, on that class's id |
| `Systems.RelationMatching` | core/src/test/java/com/mineinabyss/geary/ecs/api/systems/SystemManagerTest.kt:123-134 | a relation set with data plus its component added matches its parent's relation family and no other; its relation parents are exactly that parent |
| `Systems.NewRelationEntity` | core/src/test/java/com/mineinabyss/geary/ecs/api/systems/SystemManagerTest.kt:123-126 | `Engine.entity { setRelation(...); add(...) }` creates one new entity holding exactly the relation data and the component tag |
| `Systems.ParentEntities` | core/src/test/java/com/mineinabyss/geary/ecs/api/systems/SystemManagerTest.kt:123-130 | creates the two entities with a `RelationTestComponent` relation, on String and on Int |
| `Systems.RelationEntities` | core/src/test/java/com/mineinabyss/geary/ecs/api/systems/SystemManagerTest.kt:123-134 | creates the test's three entities, with distinct ids and the stated entries |
| `Systems.RelationScene` | core/src/test/java/com/mineinabyss/geary/ecs/api/systems/SystemManagerTest.kt:135-137 | of the three entities, the relation family matches exactly the first two, and the first one's relation parents are exactly `RelationTestComponent` |
| `Systems.Relations` | core/src/test/java/com/mineinabyss/geary/ecs/api/systems/SystemManagerTest.kt:111-142 | the relation system matches exactly the first two entities, the third is not matched, and a tick runs twice |

## Left out

- **Id width.** Ids are unbounded naturals. Only the ids the engine hands
  out are shown to fit in 64 bits (`Ids.FlagFits`). Ids passed in by a
  caller, such as `add(component)` or a packed relation, are not bounded.
  - `ULong` arithmetic never wraps in the model, because the engine
    performs none: it only masks and flags ids.
- **Bit layout.** The values of `HOLDS_DATA`, `ENTITY_MASK` and the
  relation packing are defined outside these files. They are kept abstract
  behind `Layout.Valid`, and one concrete layout shows the assumptions can
  all be met.
- **Engine implementation.** The engine (`GearyEngine`) is not part of this
  model beyond its interface. The following are therefore modelled by their
  contracts:
  - archetype storage, records and columns (`getRecord`/`setRecord`);
  - `getNextId`'s free list, replaced by a counter;
  - `Engine.entity { }`, modelled as `getNextId` followed by the block.
- Engines.Engine.AddComponentFor, Engines.Engine.SetComponentFor, Engines.Engine.SetRelationFor, Engines.Engine.RemoveComponentFor: require a live entity. The interface accepts any entity id and does not say what happens for a removed or never-created one, so that case is excluded rather than modelled.
- Entities.GearyEntity.Set, SetAll, SetRelation, SetRelationWithData, Add, AddClass, AddAll, SetPersisting, RecordOne, SetAllPersisting, RecordAll, RemoveClass, RemoveKClass, Remove, RemoveAll, GetOrSet, GetOrSetPersisting: require a live entity for the same reason. `geary(id)` can wrap a removed id, and what these do on it is not modelled.
- EntityHelpers.PutClass, EntityHelpers.SwapComponent: require every present side to be a live entity, for the same reason.
- Systems.Visit: requires the visited entity to be live. `Systems.TickingSystem.DoTick` only visits live entities, because a tick's body cannot remove an entity in this model.
- Engines.Engine.RemoveEntity: freed ids are not reused. A removed id
  stays out of circulation, which is one policy the interface allows.
- **Room for new ids.** `getNextId` never runs out in the source. The model
  requires room below `idLimit` for every class an operation may register.
- Entities.GearyEntity.SetAll: requires room for one id per component, even when classes repeat.
- Entities.GearyEntity.SetAllPersisting: requires room for one id per component, plus one.
- Entities.GearyEntity.HasAll: requires room for one id per listed class, even when classes repeat.
- EntityHelpers.CreateEntity: requires room for one id per component, plus one.
- Engines.Engine.GetType: derived by sorting. The type is the entity's
  key set, sorted, not a stored `TreeSet`. The `TreeSet` updates are stated
  separately (`Engines.AddType`, `Engines.SetType`, `Engines.RemoveType`).
- **Classes.** Classes are numbers, and `componentId<T>()` is the engine's
  class registry.
  - Reflection is not modelled.
  - Kotlin subtyping is not modelled either: `as? T` is class equality.
- Engines.Engine.SetRelationFor: relations stored with data. A relation
  is set through `setComponentFor`, so the packed relation id is stored in
  its data-holding form, like any component set with data.
- **Persisting components are updated in place.** The source mutates the
  `PersistingComponents` record in place (`getOrSet { ... }.add`). The model
  stores a new record with the added component. Aliasing of that set between
  entities is not modelled.
- **Left out entirely**, because each is glue, reflection or I/O rather than
  storage logic:
  - `with` (GearyEntity.kt:149);
  - `geary(id, run)` (EntityHelpers.kt:10-11);
  - `getRelatedComponentsFor`;
  - `addSystem`;
  - the companion's service lookup (Engine.kt:20);
  - the deprecated `setPersisting(Collection)` (GearyEntity.kt:88-89), which
    would store the collection itself as one component through type
    reification;
  - the spigot files and `Expiry`.
- Families.Satisfies: the no-data relation requirement. Without
  `componentMustHoldData`, the requirement accepts the relation's component
  either as a tag or with data. The family test fixes only the tag case.
- **The family's merge scan.** The ordered merge scan that decides
  `type in family` is modelled by its result, a subset test; the scan
  itself is not modelled.
- **Family.of(type)** is modelled only by the relation parents it names
  (`Systems.RelationParents`).
- **Archetype matching.** `Systems.TickingSystem.TrackQuery` models both
  the first match and the incremental one: matching archetypes created
  later is modelled by tracking again.
- Systems.TickingSystem.DoTick: tick order and body.
  - Entities are visited in ascending id order, from the snapshot taken
    when the tick begins.
  - The body is one of "only read the accessors" and `remove<T>()`.
  - The accessor reads themselves are stated once, by
    `Systems.MatchedHoldsAccessors`, rather than per tick.
- Systems.Relations: needs the layout to pack every pair of ids below 10.
- Systems.ConcurrentModification: needs room for `n + 1` ids.
  - Both needs exist only because the bit layout is abstract.
  - The test creates 10 entities; the model proves the scenario for any `n`.
