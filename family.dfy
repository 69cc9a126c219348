/**
 * Families: the predicate a system uses to select types. A family names
 * ids a type must hold and relation parents a type must hold a relation
 * to; for a relation, the relation's component must also be held, with its
 * data-holding form when the requirement says so.
 */
module Families {
  import opened Ids

  /** `has(RelationParent(parent), componentMustHoldData)`. */
  datatype RelationRequirement = RelationRequirement(parent: Id, componentMustHoldData: bool)

  /** A family: required ids and required relations. */
  datatype Family = Family(has: set<Id>, relations: set<RelationRequirement>)

  /** The requirement `q` is met by the relation id `r` of type `t`. */
  predicate Satisfies(L: Layout, t: set<Id>, q: RelationRequirement, r: Id) {
    && r in t && L.isRelation(r) && L.parentOf(r) == q.parent
    && (if q.componentMustHoldData then L.Flag(L.componentOf(r)) in t
        else L.componentOf(r) in t || L.Flag(L.componentOf(r)) in t)
  }

  /** Some relation of `t` meets the requirement `q`. */
  predicate HasRelation(L: Layout, t: set<Id>, q: RelationRequirement) {
    exists r :: r in t && Satisfies(L, t, q, r)
  }

  /** `type in family`: every required id is held and every required relation is met. */
  predicate Contains(L: Layout, f: Family, t: set<Id>) {
    f.has <= t && forall q :: q in f.relations ==> HasRelation(L, t, q)
  }

  /** A family of required ids only matches exactly the supersets of those ids. */
  lemma ContainsIds(L: Layout, has: set<Id>, t: set<Id>)
    ensures Contains(L, Family(has, {}), t) <==> has <= t
  {
  }

  /** Holding more ids never loses a match. */
  lemma ContainsMonotone(L: Layout, f: Family, t: set<Id>, u: set<Id>)
    requires Contains(L, f, t) && t <= u
    ensures Contains(L, f, u)
  {
    forall q | q in f.relations
      ensures HasRelation(L, u, q)
    {
      var r :| r in t && Satisfies(L, t, q, r);
      assert Satisfies(L, u, q, r);
    }
  }

  /** Requiring more never gains a match. */
  lemma ContainsAntitone(L: Layout, f: Family, g: Family, t: set<Id>)
    requires Contains(L, g, t) && f.has <= g.has && f.relations <= g.relations
    ensures Contains(L, f, t)
  {
  }

  /** A requirement that the component hold data is stronger than one that does not. */
  lemma HoldDataStronger(L: Layout, t: set<Id>, p: Id)
    requires HasRelation(L, t, RelationRequirement(p, true))
    ensures HasRelation(L, t, RelationRequirement(p, false))
  {
    var r :| r in t && Satisfies(L, t, RelationRequirement(p, true), r);
    assert Satisfies(L, t, RelationRequirement(p, false), r);
  }

  /** The family of a single relation requirement. */
  function RelationFamily(p: Id, mustHoldData: bool): Family {
    Family({}, {RelationRequirement(p, mustHoldData)})
  }

  /** A relation whose parent differs from the required parent does not count, whatever the data flag. */
  lemma WrongParentRejected(L: Layout, p: Id, q: Id, c: Id, mustHoldData: bool)
    requires L.Valid() && L.packable(q, c) && L.Plain(c) && p != q
    ensures !Contains(L, RelationFamily(p, mustHoldData), {L.pack(q, c), c})
    ensures !Contains(L, RelationFamily(p, mustHoldData), {L.pack(q, c), c, L.Flag(c)})
  {
    PlainFacts(L, c);
  }

  /** A relation whose component is not held does not count, whatever the data flag. */
  lemma MissingComponentRejected(L: Layout, p: Id, c: Id, mustHoldData: bool)
    requires L.Valid() && L.packable(p, c) && L.Plain(c)
    ensures !Contains(L, RelationFamily(p, mustHoldData), {L.pack(p, c)})
  {
    PlainFacts(L, c);
  }

  /** With the relation and its component held, the family matches; requiring data then demands the data-holding form. */
  lemma RelationWithComponent(L: Layout, p: Id, c: Id)
    requires L.Valid() && L.packable(p, c) && L.Plain(c)
    ensures Contains(L, RelationFamily(p, false), {L.pack(p, c), c})
    ensures !Contains(L, RelationFamily(p, true), {L.pack(p, c), c})
    ensures Contains(L, RelationFamily(p, true), {L.pack(p, c), L.Flag(c)})
    ensures Contains(L, RelationFamily(p, false), {L.pack(p, c), L.Flag(c)})
  {
    PlainFacts(L, c);
    var r := L.pack(p, c);
    assert Satisfies(L, {r, c}, RelationRequirement(p, false), r);
    assert Satisfies(L, {r, L.Flag(c)}, RelationRequirement(p, true), r);
    assert Satisfies(L, {r, L.Flag(c)}, RelationRequirement(p, false), r);
  }

  // The cases of the family test, for any layout that can pack them.

  /** A family of {1, 2, 3}: rejects {1, 2}, accepts {1, 2, 3} and {1, 2, 3, 4}. */
  lemma ContainsCases(L: Layout)
    ensures !Contains(L, Family({1, 2, 3}, {}), {1, 2})
    ensures Contains(L, Family({1, 2, 3}, {}), {1, 2, 3})
    ensures Contains(L, Family({1, 2, 3}, {}), {1, 2, 3, 4})
  {
    assert 3 !in {1, 2};
  }

  /** A family of relation parent 15: rejects parent 14 and a missing component, accepts the relation with its component. */
  lemma ContainsRelationCases(L: Layout)
    requires L.Valid() && L.packable(14, 1) && L.packable(15, 1) && L.Plain(1)
    ensures !Contains(L, RelationFamily(15, false), {L.pack(14, 1), 1})
    ensures !Contains(L, RelationFamily(15, false), {L.pack(15, 1)})
    ensures Contains(L, RelationFamily(15, false), {L.pack(15, 1), 1})
  {
    WrongParentRejected(L, 15, 14, 1, false);
    MissingComponentRejected(L, 15, 1, false);
    RelationWithComponent(L, 15, 1);
  }

  /** The same family requiring the component to hold data: also rejects the plain component, accepts `1 or HOLDS_DATA`. */
  lemma ContainsRelationWithDataCases(L: Layout)
    requires L.Valid() && L.packable(14, 1) && L.packable(15, 1) && L.Plain(1)
    ensures !Contains(L, RelationFamily(15, true), {L.pack(14, 1), 1})
    ensures !Contains(L, RelationFamily(15, true), {L.pack(15, 1)})
    ensures !Contains(L, RelationFamily(15, true), {L.pack(15, 1), 1})
    ensures Contains(L, RelationFamily(15, true), {L.pack(15, 1), L.Flag(1)})
  {
    WrongParentRejected(L, 15, 14, 1, true);
    MissingComponentRejected(L, 15, 1, true);
    RelationWithComponent(L, 15, 1);
  }

  /** The test cases hold in the example layout. */
  lemma ExampleCases()
    ensures ExampleLayout().Valid()
    ensures !Contains(ExampleLayout(), RelationFamily(15, true), {ExamplePack(15, 1), 1})
    ensures Contains(ExampleLayout(), RelationFamily(15, true), {ExamplePack(15, 1), ExampleLayout().Flag(1)})
  {
    ExampleLayoutValid();
    ExampleBelowLimitPlain(1);
    assert ExamplePackable(15, 1);
    RelationWithComponent(ExampleLayout(), 15, 1);
  }
}
