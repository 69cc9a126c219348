/**
 * Free-standing entity helpers: wrapping an id as an entity (with or
 * without the entity mask), swapping one class of component between two
 * possibly absent entities, and creating an entity from a collection of
 * components.
 */
module EntityHelpers {
  import opened Wrappers
  import opened Ids
  import opened Store
  import opened Engines
  import opened Entities

  // ---- wrapping ids ----

  /** `geary(id)`: the entity of `id and ENTITY_MASK`. */
  function Geary(L: Layout, x: Id): (e: GearyEntity)
    ensures L.Plain(e.id) && e.id <= x
  {
    MaskIdempotent(L, x);
    GearyEntity(L.Mask(x))
  }

  /** `gearyNoMask(id)`: the entity of `id` as given. */
  function GearyNoMask(x: Id): (e: GearyEntity)
  {
    GearyEntity(x)
  }

  /** Wrapping is idempotent: the entity of a wrapped entity's id is that entity. */
  lemma GearyIdempotent(L: Layout, x: Id)
    ensures Geary(L, Geary(L, x).id) == Geary(L, x)
  {
  }

  /** Both wrappers agree exactly on the ids the mask leaves unchanged, which include every id the engine hands out. */
  lemma GearyNoMaskAgrees(L: Layout, x: Id)
    ensures GearyNoMask(x) == Geary(L, x) <==> L.Plain(x)
    ensures L.Valid() && x < L.idLimit ==> GearyNoMask(x) == Geary(L, x)
  {
    if L.Valid() && x < L.idLimit {
      BelowLimit(L, x);
    }
  }

  /** Wrapping the data-holding form of a plain id gives the entity of the plain id: `geary` drops the data flag. */
  lemma GearyDropsFlag(L: Layout, x: Id)
    requires L.Valid() && L.Plain(x)
    ensures Geary(L, L.Flag(x)) == GearyNoMask(x)
    ensures GearyNoMask(L.Flag(x)) != Geary(L, L.Flag(x))
  {
    PlainFacts(L, x);
  }

  const I64Min: int := -0x8000_0000_0000_0000
  const I64Max: int := 0x7FFF_FFFF_FFFF_FFFF

  /** A Kotlin `Long`. */
  type Long = x: int | I64Min <= x <= I64Max

  /** `toULong()`: the same 64 bits read as unsigned, the one value in range congruent modulo 2^64. */
  function ToULong(x: Long): (u: Id)
    ensures u < U64 && (u - x) % U64 == 0
    ensures 0 <= x ==> u == x
  {
    if x < 0 then x + U64 else x
  }

  /** `toLong()`: the same 64 bits read as signed. */
  function ToLong(u: Id): (x: Long)
    requires u < U64
    ensures (u - x) % U64 == 0
    ensures u <= I64Max ==> x == u
  {
    if u <= I64Max then u else u - U64
  }

  /** Converting a `Long` to `ULong` and back gives the same `Long`. */
  lemma ToULongRoundTrip(x: Long)
    ensures ToLong(ToULong(x)) == x
  {
  }

  /** Converting a `ULong` to `Long` and back gives the same `ULong`. */
  lemma ToLongRoundTrip(u: Id)
    requires u < U64
    ensures ToULong(ToLong(u)) == u
  {
  }

  /** `geary(id: Long)`: the entity of `id.toULong() and ENTITY_MASK`. */
  function GearyLong(L: Layout, x: Long): (e: GearyEntity)
    ensures L.Plain(e.id)
  {
    Geary(L, ToULong(x))
  }

  /** `geary(x: Long)` is `geary(x.toULong())`: the signed and unsigned wrappers name the same entity for the same bits. */
  lemma GearyLongAgrees(L: Layout, u: Id)
    requires u < U64
    ensures GearyLong(L, ToLong(u)) == Geary(L, u)
  {
    ToLongRoundTrip(u);
  }

  // ---- swapComponent ----

  /** The entry after `set(o)` when `o` is present and `remove<T>()` otherwise, where `c` is the id of `T`. */
  function Put(L: Layout, m: Entry, c: Id, o: Option<Component>): (r: Entry)
    ensures Store.Get(L, r, c) == o
    ensures o.None? ==> !Has(L, r, c)
    ensures forall k :: k in m && k != c && k != L.Flag(c) ==> k in r && r[k] == m[k]
    ensures forall k :: k in r && k != L.Flag(c) ==> k in m && r[k] == m[k]
  {
    if o.Some? then Store.Set(L, m, c, o.value) else Store.Remove(L, m, c)
  }

  /** What `get<T>()` answers on an entry, `c` being the id of `T`. */
  function GetAs(L: Layout, m: Entry, c: Id, cls: ClassName): (r: Option<Component>)
    ensures r.Some? ==> ClassOf(r.value) == cls && r.value in Components(m)
  {
    As(Store.Get(L, m, c), cls)
  }

  /**
   * The entries of two distinct entities after `swapComponent`: each gets
   * the other's former `T`, or loses `T` if the other had none.
   */
  function Swapped(L: Layout, m: Entry, n: Entry, c: Id, cls: ClassName): (r: (Entry, Entry))
  {
    (Put(L, m, c, GetAs(L, n, c, cls)), Put(L, n, c, GetAs(L, m, c, cls)))
  }

  /** After a swap, each side answers `get<T>()` with what the other side answered before. */
  lemma SwapExchanges(L: Layout, m: Entry, n: Entry, c: Id, cls: ClassName)
    ensures GetAs(L, Swapped(L, m, n, c, cls).0, c, cls) == GetAs(L, n, c, cls)
    ensures GetAs(L, Swapped(L, m, n, c, cls).1, c, cls) == GetAs(L, m, c, cls)
  {
  }

  /** Swapping twice gives each side its own `T` back. */
  lemma {:induction false} SwapTwice(L: Layout, m: Entry, n: Entry, c: Id, cls: ClassName)
    ensures var (m1, n1) := Swapped(L, m, n, c, cls);
      var (m2, n2) := Swapped(L, m1, n1, c, cls);
      GetAs(L, m2, c, cls) == GetAs(L, m, c, cls) && GetAs(L, n2, c, cls) == GetAs(L, n, c, cls)
  {
    SwapExchanges(L, m, n, c, cls);
    var (m1, n1) := Swapped(L, m, n, c, cls);
    SwapExchanges(L, m1, n1, c, cls);
  }

  /** Swapping leaves every id other than `T`'s, in either form, as it was on both sides. */
  lemma SwapKeepsOthers(L: Layout, m: Entry, n: Entry, c: Id, cls: ClassName, k: Id)
    requires k != c && k != L.Flag(c)
    ensures k in Swapped(L, m, n, c, cls).0 <==> k in m
    ensures k in m ==> Swapped(L, m, n, c, cls).0[k] == m[k]
    ensures k in Swapped(L, m, n, c, cls).1 <==> k in n
    ensures k in n ==> Swapped(L, m, n, c, cls).1[k] == n[k]
  {
  }

  /** Putting the same answer twice is putting it once. */
  lemma PutTwice(L: Layout, m: Entry, c: Id, o: Option<Component>)
    ensures Put(L, Put(L, m, c, o), c, o) == Put(L, m, c, o)
  {
    if o.None? {
      assert m - {c, L.Flag(c)} - {c, L.Flag(c)} == m - {c, L.Flag(c)};
    }
  }

  /** `set(o)` for a present `T`, `remove<T>()` for an absent one. */
  method PutClass(eng: Engine, e: GearyEntity, o: Option<Component>, cls: ClassName)
    requires eng.Valid() && e.id in eng.entities && cls in eng.classIds
    requires o.Some? ==> ClassOf(o.value) == cls
    modifies eng
    ensures eng.Valid() && eng.classIds == old(eng.classIds) && eng.counter == old(eng.counter)
    ensures OthersUnchanged(old(eng.entities), eng.entities, e.id)
    ensures eng.entities[e.id] == Put(eng.layout, old(eng.entities)[e.id], eng.classIds[cls], o)
  {
    if o.Some? {
      var _ := e.Set(eng, o.value, ClassOf(o.value));
    } else {
      var _ := e.RemoveClass(eng, cls);
    }
  }

  /**
   * `swapComponent<T>(with)`: `T` changes places between the receiver and
   * `with`, either of which may be absent; the answer is whether either
   * held a `T`. When both are the same entity, it keeps its `T`.
   */
  method SwapComponent(eng: Engine, self: Option<GearyEntity>, other: Option<GearyEntity>, cls: ClassName)
    returns (r: bool)
    requires eng.Valid() && eng.CanRegister(cls)
    requires self.Some? ==> self.value.id in eng.entities
    requires other.Some? ==> other.value.id in eng.entities
    modifies eng
    ensures eng.Valid() && eng.entities.Keys == old(eng.entities).Keys
    ensures self.None? && other.None? ==> eng.classIds == old(eng.classIds) && eng.entities == old(eng.entities)
    ensures self.Some? || other.Some? ==> Registered(old(eng.classIds), eng.classIds, cls)
    ensures forall x :: (x in old(eng.entities) && (self.None? || x != self.value.id)
      && (other.None? || x != other.value.id)) ==> eng.entities[x] == old(eng.entities)[x]
    ensures r <==>
      || (self.Some? && GetAs(eng.layout, old(eng.entities)[self.value.id], eng.classIds[cls], cls).Some?)
      || (other.Some? && GetAs(eng.layout, old(eng.entities)[other.value.id], eng.classIds[cls], cls).Some?)
    ensures self.Some? && other.Some? && self.value.id != other.value.id ==>
      var (m, n) := Swapped(eng.layout, old(eng.entities)[self.value.id], old(eng.entities)[other.value.id],
        eng.classIds[cls], cls);
      eng.entities[self.value.id] == m && eng.entities[other.value.id] == n
    ensures self.Some? && other.Some? && self.value.id == other.value.id ==>
      var m := old(eng.entities)[self.value.id]; var c := eng.classIds[cls];
      eng.entities[self.value.id] == Put(eng.layout, m, c, GetAs(eng.layout, m, c, cls))
    ensures self.Some? && other.None? ==>
      eng.entities[self.value.id] == Store.Remove(eng.layout, old(eng.entities)[self.value.id], eng.classIds[cls])
    ensures self.None? && other.Some? ==>
      eng.entities[other.value.id] == Store.Remove(eng.layout, old(eng.entities)[other.value.id], eng.classIds[cls])
  {
    var component: Option<Component> := None;
    if self.Some? {
      component := self.value.GetClass(eng, cls);
    }
    var otherComponent: Option<Component> := None;
    if other.Some? {
      otherComponent := other.value.GetClass(eng, cls);
    }
    ghost var mid := eng.entities;
    if other.Some? {
      PutClass(eng, other.value, component, cls);
    }
    if self.Some? {
      PutClass(eng, self.value, otherComponent, cls);
      if other.Some? && self.value.id == other.value.id {
        PutTwice(eng.layout, old(eng.entities)[self.value.id], eng.classIds[cls], component);
      }
    }
    r := component.Some? || otherComponent.Some?;
  }

  // ---- createEntity ----

  /** Every class the engine has registered has an id the mask leaves unchanged. */
  lemma RegistryPlain(eng: Engine)
    requires eng.Valid()
    ensures PlainRegistry(eng.layout, eng.classIds)
  {
    forall k | k in eng.classIds
      ensures eng.layout.Plain(eng.classIds[k])
    {
      BelowLimit(eng.layout, eng.classIds[k]);
    }
  }

  /**
   * `createEntity()` on a collection: a new entity, built by `setAll`. It
   * holds each component of the collection under its own class's id, the
   * last one of each class winning.
   */
  method CreateEntity(eng: Engine, cs: seq<Component>) returns (e: GearyEntity)
    requires eng.Valid() && eng.Room(|cs| + 1)
    modifies eng
    ensures eng.Valid() && e.id !in old(eng.entities) && e.id in eng.entities
    ensures eng.entities.Keys == old(eng.entities).Keys + {e.id}
    ensures forall x :: x in old(eng.entities) ==> eng.entities[x] == old(eng.entities)[x]
    ensures RegisteredAll(old(eng.classIds), eng.classIds, ClassesOf(cs)) && AllRegistered(eng.classIds, cs)
    ensures eng.entities[e.id] == SetAllEntry(eng.layout, map[], eng.classIds, cs)
    ensures forall i :: 0 <= i < |cs| && LastOfClass(cs, i) ==>
      eng.GetComponentFor(e.id, eng.classIds[ClassOf(cs[i])]) == Some(cs[i])
    ensures eng.GetComponentsFor(e.id) <= SetOf(cs)
  {
    var x := eng.GetNextId();
    e := GearyEntity(x);
    e.SetAll(eng, cs);
    RegistryPlain(eng);
    forall i | 0 <= i < |cs| && LastOfClass(cs, i)
      ensures eng.GetComponentFor(e.id, eng.classIds[ClassOf(cs[i])]) == Some(cs[i])
    {
      SetAllStoresLast(eng.layout, map[], eng.classIds, cs, i);
    }
    SetAllHoldsOnly(eng.layout, eng.classIds, cs);
  }

  /** An entity built by `setAll` from nothing holds only components of the collection. */
  lemma {:induction false} SetAllHoldsOnly(L: Layout, ids: map<ClassName, Id>, cs: seq<Component>)
    requires AllRegistered(ids, cs)
    ensures Components(SetAllEntry(L, map[], ids, cs)) <= SetOf(cs)
  {
    if cs != [] {
      var init := cs[..|cs| - 1];
      var last := cs[|cs| - 1];
      SetAllHoldsOnly(L, ids, init);
      var m := SetAllEntry(L, map[], ids, init);
      var r := Store.Set(L, m, ids[ClassOf(last)], last);
      forall d | d in Components(r)
        ensures d in SetOf(cs)
      {
        var k :| k in r && r[k].Some? && r[k].value == d;
        if k != L.Flag(ids[ClassOf(last)]) {
          assert d in Components(m);
          assert d in init;
        }
      }
    }
  }
}
