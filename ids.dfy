/**
 * The identifier space of the ECS: entity ids and component ids are one
 * 64-bit unsigned space, and an entity's type is an ordered, duplicate-free
 * set of such ids (a `TreeSet`).
 */
module Ids {
  import opened Bits

  const U64: nat := 0x1_0000_0000_0000_0000

  /**
   * An entity id (`ULong`); a component id is the same type, so one space
   * serves both. Ids are unbounded here; the engine keeps the ids it hands
   * out below `U64` (see `Layout.Valid` and `FlagFits`).
   */
  type Id = nat

  /**
   * The bit layout of ids, kept abstract: the `HOLDS_DATA` flag, the
   * `ENTITY_MASK`, the bound below which the engine hands out ids, and the
   * packing of a relation (parent, component) into one id. `Valid` states
   * everything the model assumes about them.
   */
  datatype Layout = Layout(
    holdsData: Id,
    entityMask: Id,
    idLimit: nat,
    pack: (Id, Id) -> Id,
    packable: (Id, Id) -> bool,
    parentOf: Id -> Id,
    componentOf: Id -> Id,
    isRelation: Id -> bool)
  {
    /** `id or HOLDS_DATA`. */
    function Flag(x: Id): (r: Id)
      ensures x <= r
    {
      Or(x, holdsData)
    }

    /** `id and ENTITY_MASK`. */
    function Mask(x: Id): (r: Id)
      ensures r <= x && r <= entityMask
    {
      And(x, entityMask)
    }

    /** An id that masking leaves unchanged. */
    predicate Plain(x: Id) {
      Mask(x) == x
    }

    /** `x` is a relation id whose parent is `p` and whose component is `c`. */
    predicate RelationOf(x: Id, p: Id, c: Id) {
      isRelation(x) && parentOf(x) == p && componentOf(x) == c
    }

    ghost predicate Valid() {
      // the data flag is a bit of its own, cleared by the entity mask
      && holdsData != 0 && holdsData < U64
      && And(holdsData, entityMask) == 0
      // every id the engine can hand out is unchanged by the mask
      && idLimit <= U64
      && (forall x: Id :: x < idLimit ==> Plain(x))
      // a packable (parent, component) pair is recovered from its relation id,
      // with or without the data flag
      && (forall p, c :: packable(p, c) ==> RelationOf(pack(p, c), p, c))
      && (forall p, c :: packable(p, c) ==> RelationOf(Flag(pack(p, c)), p, c))
      // an id that the mask leaves unchanged is not a relation, flagged or not
      && (forall x :: Plain(x) ==> !isRelation(x) && !isRelation(Flag(x)))
    }
  }

  /** A plain id carries no data flag, differs from its flagged form, and is recovered from it by masking. */
  lemma PlainFacts(L: Layout, x: Id)
    requires L.Valid() && L.Plain(x)
    ensures And(x, L.holdsData) == 0
    ensures L.Flag(x) != x
    ensures L.Mask(L.Flag(x)) == x
    ensures !L.isRelation(x) && !L.isRelation(L.Flag(x))
  {
    AndInsideOutside(x, L.holdsData, L.entityMask);
    OrChanges(x, L.holdsData);
    AndOrOutside(x, L.holdsData, L.entityMask);
  }

  /** Every id the engine hands out is plain. */
  lemma BelowLimit(L: Layout, x: Id)
    requires L.Valid() && x < L.idLimit
    ensures L.Plain(x) && And(x, L.holdsData) == 0 && L.Flag(x) != x
    ensures !L.isRelation(x) && !L.isRelation(L.Flag(x))
  {
    assert L.Plain(x);
    PlainFacts(L, x);
  }

  /** An id the engine hands out, flagged or not, fits in 64 bits. */
  lemma FlagFits(L: Layout, x: Id)
    requires L.Valid() && x < L.idLimit
    ensures x < U64 && L.Flag(x) < U64
  {
    Pow2Values();
    OrBound(x, L.holdsData, 64);
  }

  /** Two ids without the data flag are equal exactly when their flagged forms are. */
  lemma FlagInjective(L: Layout, x: Id, y: Id)
    requires And(x, L.holdsData) == 0 && And(y, L.holdsData) == 0
    ensures L.Flag(x) == L.Flag(y) <==> x == y
  {
    if L.Flag(x) == L.Flag(y) {
      OrInjective(x, y, L.holdsData);
    }
  }

  /** A flagged id is never the flagged form of a different plain id, nor a plain id itself. */
  lemma FlagDistinct(L: Layout, x: Id, y: Id)
    requires L.Valid() && L.Plain(x) && L.Plain(y)
    ensures L.Flag(x) != y
    ensures L.Flag(x) == L.Flag(y) <==> x == y
  {
    PlainFacts(L, x);
    PlainFacts(L, y);
    FlagInjective(L, x, y);
  }

  /** Masking an already-masked id changes nothing. */
  lemma MaskIdempotent(L: Layout, x: Id)
    ensures L.Plain(L.Mask(x))
  {
    AndIdempotent(x, L.entityMask);
  }

  // One concrete layout, to show that `Valid` can be met: bit 63 marks a
  // relation, bit 62 is the data flag, the mask keeps bits 0..55, the parent
  // of a relation sits in bits 32..55 and its component in bits 0..31.

  predicate ExamplePackable(p: Id, c: Id) {
    p < 0x100_0000 && c < 0x1_0000_0000
  }

  function ExamplePack(p: Id, c: Id): Id {
    if ExamplePackable(p, c) then 0x8000_0000_0000_0000 + p * 0x1_0000_0000 + c
    else 0x8000_0000_0000_0000
  }

  function ExampleParentOf(x: Id): Id { (x / 0x1_0000_0000) % 0x100_0000 }

  function ExampleComponentOf(x: Id): Id { x % 0x1_0000_0000 }

  predicate ExampleIsRelation(x: Id) { x >= 0x8000_0000_0000_0000 }

  function ExampleLayout(): Layout {
    Layout(0x4000_0000_0000_0000, 0x00FF_FFFF_FFFF_FFFF, 0x0100_0000_0000_0000,
      ExamplePack, ExamplePackable, ExampleParentOf, ExampleComponentOf, ExampleIsRelation)
  }

  lemma ExampleFlagOutsideMask()
    ensures And(ExampleLayout().holdsData, ExampleLayout().entityMask) == 0
  {
    Pow2Values();
    AndHighBit(0x00FF_FFFF_FFFF_FFFF, 62);
  }

  lemma ExampleBelowLimitPlain(x: Id)
    requires x < 0x0100_0000_0000_0000
    ensures ExampleLayout().Plain(x)
  {
    Pow2Values();
    AndLowBits(x, 56);
  }

  lemma ExamplePackRecovered(p: Id, c: Id)
    requires ExamplePackable(p, c)
    ensures ExampleLayout().RelationOf(ExamplePack(p, c), p, c)
  {
    var x := ExamplePack(p, c);
    var q := 0x8000_0000 + p;
    assert x == q * 0x1_0000_0000 + c;
    assert x / 0x1_0000_0000 == q;
    assert x % 0x1_0000_0000 == c;
    assert q == 0x80 * 0x100_0000 + p;
    assert q % 0x100_0000 == p;
  }

  lemma ExampleFlagOfPack(p: Id, c: Id)
    requires ExamplePackable(p, c)
    ensures ExampleLayout().Flag(ExamplePack(p, c)) == 0xC000_0000_0000_0000 + p * 0x1_0000_0000 + c
  {
    var x := ExamplePack(p, c);
    var low := p * 0x1_0000_0000 + c;
    Pow2Values();
    assert Pow2(63) == 2 * Pow2(62);
    AndBitClear(x, 62, 1, low);
    OrDisjoint(x, 0x4000_0000_0000_0000);
  }

  lemma ExampleFlaggedPackRecovered(p: Id, c: Id)
    requires ExamplePackable(p, c)
    ensures ExampleLayout().RelationOf(ExampleLayout().Flag(ExamplePack(p, c)), p, c)
  {
    ExampleFlagOfPack(p, c);
    var y := ExampleLayout().Flag(ExamplePack(p, c));
    var q := 0xC000_0000 + p;
    assert y == q * 0x1_0000_0000 + c;
    assert y / 0x1_0000_0000 == q;
    assert y % 0x1_0000_0000 == c;
    assert q == 0xC0 * 0x100_0000 + p;
    assert q % 0x100_0000 == p;
  }

  lemma ExamplePlainNotRelation(x: Id)
    requires ExampleLayout().Plain(x)
    ensures !ExampleIsRelation(x) && !ExampleIsRelation(ExampleLayout().Flag(x))
  {
    var L := ExampleLayout();
    assert x <= L.entityMask;
    assert L.Flag(x) <= x + L.holdsData;
  }

  /** The example layout meets every assumption of the model. */
  lemma ExampleLayoutValid()
    ensures ExampleLayout().Valid()
  {
    var L := ExampleLayout();
    ExampleFlagOutsideMask();
    forall x: Id | x < L.idLimit
      ensures L.Plain(x)
    {
      ExampleBelowLimitPlain(x);
    }
    forall p, c | L.packable(p, c)
      ensures L.RelationOf(L.pack(p, c), p, c) && L.RelationOf(L.Flag(L.pack(p, c)), p, c)
    {
      ExamplePackRecovered(p, c);
      ExampleFlaggedPackRecovered(p, c);
    }
    forall x | L.Plain(x)
      ensures !L.isRelation(x) && !L.isRelation(L.Flag(x))
    {
      ExamplePlainNotRelation(x);
    }
  }

  // ---- GearyType: a TreeSet of ids, as a strictly ascending sequence ----

  /** Strictly ascending in the unsigned order of `ULong`. */
  predicate Ascending(s: seq<Id>) {
    forall i, j :: 0 <= i < j < |s| ==> s[i] < s[j]
  }

  function Elems(s: seq<Id>): set<Id> {
    set x | x in s
  }

  /** `TreeSet.add`: puts `x` at its place in the order, and changes nothing if it is there. */
  function Insert(s: seq<Id>, x: Id): (r: seq<Id>)
    ensures |r| <= |s| + 1
  {
    if s == [] then [x]
    else if x < s[0] then [x] + s
    else if x == s[0] then s
    else [s[0]] + Insert(s[1..], x)
  }

  /** Inserting adds exactly `x`. */
  lemma {:induction false} InsertElems(s: seq<Id>, x: Id)
    ensures Elems(Insert(s, x)) == Elems(s) + {x}
  {
    if s != [] && x != s[0] && !(x < s[0]) {
      InsertElems(s[1..], x);
      assert Elems(s) == {s[0]} + Elems(s[1..]);
      assert Elems([s[0]] + Insert(s[1..], x)) == {s[0]} + Elems(Insert(s[1..], x));
    } else if s != [] && x < s[0] {
      assert Elems([x] + s) == {x} + Elems(s);
    }
  }

  /** Inserting keeps a type ascending. */
  lemma {:induction false} InsertAscending(s: seq<Id>, x: Id)
    requires Ascending(s)
    ensures Ascending(Insert(s, x))
  {
    if s == [] {
    } else if x < s[0] {
      Prepend(x, s);
    } else if x == s[0] {
    } else {
      var rest := Insert(s[1..], x);
      InsertAscending(s[1..], x);
      InsertElems(s[1..], x);
      forall k | 0 <= k < |rest|
        ensures s[0] < rest[k]
      {
        assert rest[k] in Elems(rest);
      }
      Prepend(s[0], rest);
    }
  }

  /** Inserting an id the type already holds leaves it as it was. */
  lemma {:induction false} InsertPresent(s: seq<Id>, x: Id)
    requires Ascending(s) && x in s
    ensures Insert(s, x) == s
  {
    if x != s[0] {
      assert !(x < s[0]);
      assert x in s[1..];
      InsertPresent(s[1..], x);
      assert [s[0]] + s[1..] == s;
    }
  }

  lemma Prepend(y: Id, s: seq<Id>)
    requires Ascending(s) && (forall k :: 0 <= k < |s| ==> y < s[k])
    ensures Ascending([y] + s)
  {
  }

  /** `TreeSet.remove`: drops `x` and keeps the order of the rest. */
  function Delete(s: seq<Id>, x: Id): (r: seq<Id>)
    ensures |r| <= |s|
  {
    if s == [] then []
    else if s[0] == x then s[1..]
    else [s[0]] + Delete(s[1..], x)
  }

  /** Deleting from a type keeps it ascending and removes exactly `x`. */
  lemma {:induction false} DeleteSpec(s: seq<Id>, x: Id)
    requires Ascending(s)
    ensures Ascending(Delete(s, x))
    ensures Elems(Delete(s, x)) == Elems(s) - {x}
  {
    if s != [] {
      assert Elems(s) == {s[0]} + Elems(s[1..]);
      if s[0] == x {
        assert x !in Elems(s[1..]);
      } else {
        var rest := Delete(s[1..], x);
        DeleteSpec(s[1..], x);
        forall k | 0 <= k < |rest|
          ensures s[0] < rest[k]
        {
          assert rest[k] in Elems(rest);
        }
        Prepend(s[0], rest);
        assert Elems([s[0]] + rest) == {s[0]} + Elems(rest);
      }
    }
  }

  /** A type has one canonical order: two ascending sequences with the same ids are equal,
      whatever order the ids were inserted in. */
  lemma {:induction false} AscendingUnique(a: seq<Id>, b: seq<Id>)
    requires Ascending(a) && Ascending(b) && Elems(a) == Elems(b)
    ensures a == b
  {
    ElemsEmpty(a);
    ElemsEmpty(b);
    if a != [] {
      assert a[0] in Elems(b) && b[0] in Elems(a);
      assert a[0] == b[0];
      assert Elems(a) == {a[0]} + Elems(a[1..]);
      assert Elems(b) == {b[0]} + Elems(b[1..]);
      assert a[0] !in Elems(a[1..]);
      assert b[0] !in Elems(b[1..]);
      AscendingUnique(a[1..], b[1..]);
      assert a == [a[0]] + a[1..];
      assert b == [b[0]] + b[1..];
    }
  }

  lemma ElemsEmpty(s: seq<Id>)
    ensures Elems(s) == {} <==> s == []
  {
    if s != [] {
      assert s[0] in Elems(s);
    }
  }

  /** A type never holds the same id twice: its length is its number of distinct ids. */
  lemma {:induction false} AscendingDistinct(s: seq<Id>)
    requires Ascending(s)
    ensures |Elems(s)| == |s|
  {
    if s != [] {
      assert Elems(s) == {s[0]} + Elems(s[1..]);
      assert s[0] !in Elems(s[1..]);
      AscendingDistinct(s[1..]);
    }
  }

  /** The ids of a prefix one longer: the next id is new. */
  lemma AscendingPrefix(s: seq<Id>, i: nat)
    requires Ascending(s) && i < |s|
    ensures Elems(s[..i + 1]) == Elems(s[..i]) + {s[i]} && s[i] !in Elems(s[..i])
  {
    assert s[..i + 1] == s[..i] + [s[i]];
  }

  predicate IsLeast(m: Id, s: set<Id>) {
    m in s && forall y :: y in s ==> m <= y
  }

  /** Every nonempty set of ids has a least element. */
  lemma {:induction false} MinExists(s: set<Id>)
    requires s != {}
    ensures exists m :: IsLeast(m, s)
    decreases |s|
  {
    var x :| x in s;
    var rest := s - {x};
    if rest == {} {
      assert s == {x};
      assert IsLeast(x, s);
    } else {
      MinExists(rest);
      var m :| IsLeast(m, rest);
      var least := if x < m then x else m;
      assert s == rest + {x};
      assert IsLeast(least, s);
    }
  }

  /** The least id of a nonempty set. */
  function MinOf(s: set<Id>): (m: Id)
    requires s != {}
    ensures m in s && forall y :: y in s ==> m <= y
  {
    MinExists(s);
    var m :| IsLeast(m, s);
    m
  }

  /** The set of ids as a type: its ids in ascending order. */
  function SortedOf(s: set<Id>): (t: seq<Id>)
    ensures Ascending(t) && Elems(t) == s
    decreases |s|
  {
    if s == {} then []
    else
      var m := MinOf(s);
      var rest := SortedOf(s - {m});
      assert forall k :: 0 <= k < |rest| ==> rest[k] in Elems(rest);
      Prepend(m, rest);
      assert Elems([m] + rest) == {m} + Elems(rest);
      [m] + rest
  }

  /** Keeping the type as a `TreeSet` updated by `add` gives the same sequence as sorting the new set. */
  lemma SortedOfInsert(s: set<Id>, x: Id)
    ensures SortedOf(s + {x}) == Insert(SortedOf(s), x)
  {
    InsertElems(SortedOf(s), x);
    InsertAscending(SortedOf(s), x);
    AscendingUnique(SortedOf(s + {x}), Insert(SortedOf(s), x));
  }

  /** Likewise for `remove`. */
  lemma SortedOfDelete(s: set<Id>, x: Id)
    ensures SortedOf(s - {x}) == Delete(SortedOf(s), x)
  {
    DeleteSpec(SortedOf(s), x);
    AscendingUnique(SortedOf(s - {x}), Delete(SortedOf(s), x));
  }
}
