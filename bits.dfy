/**
 * Bitwise `and` / `or` on unsigned integers, defined bit by bit, with the
 * facts the id space relies on (masking, flagging).
 */
module Bits {

  function Pow2(k: nat): (r: nat)
    ensures r >= 1
  {
    if k == 0 then 1 else 2 * Pow2(k - 1)
  }

  lemma {:induction false} Pow2Add(a: nat, b: nat)
    ensures Pow2(a + b) == Pow2(a) * Pow2(b)
  {
    if a > 0 {
      Pow2Add(a - 1, b);
    }
  }

  /** The powers of two the id layout is written with. */
  lemma Pow2Values()
    ensures Pow2(64) == 0x1_0000_0000_0000_0000
    ensures Pow2(63) == 0x8000_0000_0000_0000
    ensures Pow2(62) == 0x4000_0000_0000_0000
    ensures Pow2(56) == 0x0100_0000_0000_0000
  {
    assert Pow2(8) == 0x100;
    assert Pow2(6) == 64 && Pow2(7) == 128;
    Pow2Add(8, 8);
    Pow2Add(16, 16);
    Pow2Add(32, 32);
    Pow2Add(32, 16);
    Pow2Add(48, 8);
    Pow2Add(56, 6);
    Pow2Add(56, 7);
  }

  /** Bitwise `and`. */
  function And(x: nat, y: nat): (r: nat)
    ensures r <= x && r <= y
    decreases x
  {
    if x == 0 || y == 0 then 0
    else 2 * And(x / 2, y / 2) + (if x % 2 == 1 && y % 2 == 1 then 1 else 0)
  }

  /** Bitwise `or`. */
  function Or(x: nat, y: nat): (r: nat)
    ensures x <= r && y <= r && r <= x + y
    decreases x + y
  {
    if x == 0 then y
    else if y == 0 then x
    else 2 * Or(x / 2, y / 2) + (if x % 2 == 1 || y % 2 == 1 then 1 else 0)
  }

  /** `or` never sets a bit at or above position k that neither operand has. */
  lemma {:induction false} OrBound(x: nat, y: nat, k: nat)
    requires x < Pow2(k) && y < Pow2(k)
    ensures Or(x, y) < Pow2(k)
  {
    if x != 0 && y != 0 {
      assert k > 0;
      OrBound(x / 2, y / 2, k - 1);
    }
  }

  /** Masking twice is masking once. */
  lemma {:induction false} AndIdempotent(x: nat, m: nat)
    ensures And(And(x, m), m) == And(x, m)
  {
    if x != 0 && m != 0 {
      var a := And(x, m);
      AndIdempotent(x / 2, m / 2);
      if a != 0 {
        assert a / 2 == And(x / 2, m / 2);
        assert a % 2 == (if x % 2 == 1 && m % 2 == 1 then 1 else 0);
      }
    }
  }

  /** Masking clears a flag that lies outside the mask. */
  lemma {:induction false} AndOrOutside(x: nat, h: nat, m: nat)
    requires And(h, m) == 0
    ensures And(Or(x, h), m) == And(x, m)
    decreases x + h
  {
    if x != 0 && h != 0 && m != 0 {
      var o := Or(x, h);
      assert And(h / 2, m / 2) == 0;
      AndOrOutside(x / 2, h / 2, m / 2);
      assert o / 2 == Or(x / 2, h / 2);
      assert o % 2 == (if x % 2 == 1 || h % 2 == 1 then 1 else 0);
    }
  }

  /** An id inside the mask shares no bit with a flag outside it. */
  lemma {:induction false} AndInsideOutside(x: nat, h: nat, m: nat)
    requires And(x, m) == x && And(h, m) == 0
    ensures And(x, h) == 0
    decreases x
  {
    if x != 0 && h != 0 {
      assert m != 0;
      assert And(x / 2, m / 2) == x / 2;
      assert And(h / 2, m / 2) == 0;
      AndInsideOutside(x / 2, h / 2, m / 2);
    }
  }

  /** Setting a nonempty flag that `x` lacks changes `x`. */
  lemma {:induction false} OrChanges(x: nat, h: nat)
    requires And(x, h) == 0 && h != 0
    ensures Or(x, h) != x
    decreases x
  {
    if x != 0 && h % 2 == 0 {
      assert And(x / 2, h / 2) == 0;
      OrChanges(x / 2, h / 2);
    }
  }

  /** Setting a flag is injective on values that lack it. */
  lemma {:induction false} OrInjective(x: nat, y: nat, h: nat)
    requires And(x, h) == 0 && And(y, h) == 0 && Or(x, h) == Or(y, h)
    ensures x == y
    decreases x + y
  {
    if h == 0 {
    } else if x == 0 {
      if y != 0 {
        assert And(y / 2, h / 2) == 0;
        OrInjective(0, y / 2, h / 2);
      }
    } else if y == 0 {
      assert And(x / 2, h / 2) == 0;
      OrInjective(x / 2, 0, h / 2);
    } else {
      assert And(x / 2, h / 2) == 0 && And(y / 2, h / 2) == 0;
      OrInjective(x / 2, y / 2, h / 2);
    }
  }

  /** Setting a flag twice is setting it once. */
  lemma {:induction false} OrIdempotent(x: nat, h: nat)
    ensures Or(Or(x, h), h) == Or(x, h)
    decreases x + h
  {
    if x != 0 && h != 0 {
      var o := Or(x, h);
      var b := if x % 2 == 1 || h % 2 == 1 then 1 else 0;
      assert o == 2 * Or(x / 2, h / 2) + b;
      OrIdempotent(x / 2, h / 2);
      assert o / 2 == Or(x / 2, h / 2) && o % 2 == b;
      assert Or(o, h) == 2 * Or(o / 2, h / 2) + (if o % 2 == 1 || h % 2 == 1 then 1 else 0);
    } else if x == 0 {
      OrSelf(h);
    }
  }

  lemma {:induction false} OrSelf(h: nat)
    ensures Or(h, h) == h
  {
    if h != 0 {
      OrSelf(h / 2);
    }
  }

  /** The mask of the k low bits keeps every value below 2^k. */
  lemma {:induction false} AndLowBits(x: nat, k: nat)
    requires x < Pow2(k)
    ensures And(x, Pow2(k) - 1) == x
  {
    if x != 0 {
      assert k > 0;
      AndLowBits(x / 2, k - 1);
    }
  }

  /** A single bit at position k shares nothing with a value below 2^k. */
  lemma {:induction false} AndHighBit(y: nat, k: nat)
    requires y < Pow2(k)
    ensures And(Pow2(k), y) == 0
  {
    if k > 0 && y != 0 {
      AndHighBit(y / 2, k - 1);
    }
  }

  /** `or` of values with no common bit is their sum. */
  lemma {:induction false} OrDisjoint(x: nat, h: nat)
    requires And(x, h) == 0
    ensures Or(x, h) == x + h
    decreases x + h
  {
    if x != 0 && h != 0 {
      assert !(x % 2 == 1 && h % 2 == 1);
      assert And(x / 2, h / 2) == 0;
      OrDisjoint(x / 2, h / 2);
    }
  }

  /** The single bit k is clear in y = a * 2^(k+1) + b with b < 2^k. */
  lemma {:induction false} AndBitClear(y: nat, k: nat, a: nat, b: nat)
    requires b < Pow2(k) && y == a * Pow2(k + 1) + b
    ensures And(y, Pow2(k)) == 0
  {
    var p := Pow2(k);
    var m := a * p;
    assert a * Pow2(k + 1) == 2 * m by {
      assert a * (2 * p) == 2 * (a * p);
    }
    if k == 0 {
      assert y == 2 * m;
    } else if y != 0 {
      assert p / 2 == Pow2(k - 1) && p % 2 == 0;
      assert y / 2 == m + b / 2;
      AndBitClear(y / 2, k - 1, a, b / 2);
    }
  }
}
