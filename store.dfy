/**
 * The data one entity holds: a map from component id to an optional
 * payload. A key with no payload is a tag (`add`); a key with a payload
 * holds data (`set`). The entity's type is the key set.
 */
module Store {
  import opened Wrappers
  import opened Ids

  /** Payloads are arbitrary objects (`Any`): the store never looks inside them. */
  type Value(==)

  /** The runtime class of a component, the key of the class-to-id registry. */
  type ClassName = nat

  const PersistingClass: ClassName := 0

  type DataClass = c: ClassName | c != PersistingClass witness 1

  /**
   * A component instance: an opaque payload of some class, or the
   * `PersistingComponents` record of which components should be saved.
   */
  datatype Component =
    | Data(cls: DataClass, value: Value)
    | Persisting(components: set<Component>)

  function ClassOf(d: Component): ClassName {
    match d
    case Data(cls, _) => cls
    case Persisting(_) => PersistingClass
  }

  /** `as? T`: the component if its class is `cls`, otherwise absent. */
  function As(o: Option<Component>, cls: ClassName): (r: Option<Component>)
    ensures r.Some? <==> o.Some? && ClassOf(o.value) == cls
    ensures r.Some? ==> r == o
  {
    if o.Some? && ClassOf(o.value) == cls then o else None
  }

  type Entry = map<Id, Option<Component>>

  /** `getComponentsFor`: every payload the entity holds. */
  function Components(m: Entry): set<Component> {
    set k | k in m && m[k].Some? :: m[k].value
  }

  /** `hasComponentFor`: the id is held, with or without data. */
  predicate Has(L: Layout, m: Entry, c: Id) {
    c in m || L.Flag(c) in m
  }

  /**
   * `getComponentFor`: the payload stored under the data-holding form of `c`.
   * Absent when `c` is not held, and absent when `c` is held only as a tag.
   */
  function Get(L: Layout, m: Entry, c: Id): (r: Option<Component>)
    ensures !Has(L, m, c) ==> r == None
    ensures c in m && L.Flag(c) !in m ==> r == None
    ensures r.Some? <==> L.Flag(c) in m && m[L.Flag(c)].Some?
    ensures r.Some? ==> r == m[L.Flag(c)] && r.value in Components(m)
  {
    if L.Flag(c) in m then m[L.Flag(c)] else None
  }

  /** `addComponentFor`: puts `c` into the type without data. */
  function Add(L: Layout, m: Entry, c: Id): (r: Entry)
    ensures Has(L, r, c) && c in r
    ensures r.Keys == m.Keys + {c}
    ensures c !in m ==> r[c] == None
    ensures forall k :: k in m ==> r[k] == m[k]
    ensures L.Flag(c) != c ==> Get(L, r, c) == Get(L, m, c)
    ensures Components(r) == Components(m)
  {
    if c in m then m
    else
      var r := m[c := None];
      assert Components(r) == Components(m) by {
        forall d | d in Components(r) ensures d in Components(m) {
          var k :| k in r && r[k].Some? && r[k].value == d;
          assert k != c && k in m && m[k] == r[k];
        }
        forall d | d in Components(m) ensures d in Components(r) {
          var k :| k in m && m[k].Some? && m[k].value == d;
          assert k in r && r[k] == m[k];
        }
      }
      r
  }

  /** `setComponentFor`: stores `d` under the data-holding form of `c`, replacing any earlier payload. */
  function Set(L: Layout, m: Entry, c: Id, d: Component): (r: Entry)
    ensures Get(L, r, c) == Some(d)
    ensures Has(L, r, c)
    ensures r.Keys == m.Keys + {L.Flag(c)}
    ensures forall k :: k in m && k != L.Flag(c) ==> r[k] == m[k]
    ensures d in Components(r)
  {
    m[L.Flag(c) := Some(d)]
  }

  /** Setting one component leaves the data of any other as it was. */
  lemma GetSetOther(L: Layout, m: Entry, c: Id, k: Id, d: Component)
    requires L.Flag(c) != L.Flag(k)
    ensures Get(L, Set(L, m, c, d), k) == Get(L, m, k)
  {
  }

  /** `removeComponentFor`: drops `c` and its data-holding form with its payload. */
  function Remove(L: Layout, m: Entry, c: Id): (r: Entry)
    ensures !Has(L, r, c) && Get(L, r, c) == None
    ensures r.Keys == m.Keys - {c, L.Flag(c)}
    ensures forall k :: k in r ==> r[k] == m[k]
    ensures !Has(L, m, c) ==> r == m
    ensures Components(r) <= Components(m)
  {
    m - {c, L.Flag(c)}
  }

  // ---- persisting and instance components ----

  /** The set recorded in the entity's `PersistingComponents`, or empty when there is none. */
  function Recorded(L: Layout, m: Entry, pid: Id): (r: set<Component>)
    ensures As(Get(L, m, pid), PersistingClass).None? ==> r == {}
    ensures As(Get(L, m, pid), PersistingClass).Some? ==>
      Get(L, m, pid).value.Persisting? && r == Get(L, m, pid).value.components
  {
    match As(Get(L, m, pid), PersistingClass)
    case Some(Persisting(s)) => s
    case _ => {}
  }

  /** `getPersistingComponents`: the recorded components the entity still holds. */
  function PersistingComponents(L: Layout, m: Entry, pid: Id): (r: set<Component>)
    ensures r <= Components(m)
    ensures r <= Recorded(L, m, pid)
    ensures forall d :: d in Components(m) && d in Recorded(L, m, pid) ==> d in r
  {
    Recorded(L, m, pid) * Components(m)
  }

  /** `getInstanceComponents`: the components the entity holds that are not recorded as persisting. */
  function InstanceComponents(L: Layout, m: Entry, pid: Id): (r: set<Component>)
    ensures r !! PersistingComponents(L, m, pid)
    ensures r + PersistingComponents(L, m, pid) == Components(m)
    ensures r !! Recorded(L, m, pid)
  {
    Components(m) - Recorded(L, m, pid)
  }

  /** The record of an entity after `component` is added to its `PersistingComponents`. */
  function RecordPersisting(L: Layout, m: Entry, pid: Id, added: set<Component>): (r: Component)
    ensures r.Persisting? && r.components == Recorded(L, m, pid) + added
  {
    Persisting(Recorded(L, m, pid) + added)
  }
}
