/** What JavaScript's parseInt makes of decimal digits: the nearest double, ties to even (ECMA-262, section 6.1.6.1). */
module Doubles {
  import opened Integers

  /** A double that is no fraction and not negative. */
  datatype Double = Finite(n: nat) | Infinite

  const TWO_52 := 0x10_0000_0000_0000
  const TWO_53 := 0x20_0000_0000_0000

  /** Numbers of the size of x are spaced so far apart. */
  function Unit(x: nat): (u: nat)
    ensures u >= 1
    ensures if x < TWO_53 then u == 1 else u >= 2 && TWO_52 * u <= x < TWO_53 * u
  {
    if x < TWO_53 then 1 else 2 * Unit(x / 2)
  }

  /** The nearest integer of 53 significant bits. */
  function Rounded(x: nat): nat {
    var u := Unit(x);
    var over := x % u;
    if 2 * over > u || (2 * over == u && x / u % 2 == 1) then x - over + u else x - over
  }

  /** How often x is to be halved before it has 53 bits at most. */
  function Halvings(x: nat): nat {
    if x < TWO_53 then 0 else 1 + Halvings(x / 2)
  }

  /** A double has an exponent of 971 at most, that is, it is less than 2^1024. */
  function ToDouble(x: nat): Double {
    if Halvings(Rounded(x)) <= 971 then Finite(Rounded(x)) else Infinite
  }

  /** What it rounds to has at most 53 significant bits; no multiple of the unit is nearer, and of two that are as
      near the even one is taken. */
  lemma RoundsToNearest(x: nat, q: int)
    ensures exists k: nat :: NearestIs(x, q, k)
  {
    var u := Unit(x);
    var k := x / u;
    hide Unit;
    UnitsBelow(x, u, k);
    if q <= k {
      MulOrder(q, k, u);
    } else {
      MulOrder(k + 1, q, u);
    }
    assert NearestIs(x, q, if Rounded(x) == u * k then k else k + 1);
  }

  lemma UnitsBelow(x: nat, u: nat, k: nat)
    requires u > 0 && k == x / u && x < TWO_53 * u
    ensures x == u * k + x % u && u * (k + 1) == u * k + u && k < TWO_53
  {
    assert x == u * k + x % u;
    Distribute(u, k, 1);
    if k >= TWO_53 {
      MulOrder(TWO_53, k, u);
    }
  }

  ghost predicate NearestIs(x: nat, q: int, k: nat) {
    var u, r := Unit(x), Rounded(x);
    r == u * k && k <= TWO_53 && Abs(r - x) <= Abs(u * q - x)
        && (Abs(r - x) == Abs(u * q - x) ==> r == u * q || k % 2 == 0)
  }

  lemma MulOrder(a: int, b: int, u: nat)
    requires a <= b
    ensures u * a <= u * b
  {
  }

  /** Below 2^53 every integer is a double, and no other rounds to it. */
  lemma SmallIsExact(x: nat)
    ensures if x < TWO_53 then ToDouble(x) == Finite(x) else ToDouble(x) == Infinite || ToDouble(x).n >= TWO_53
  {
    if x < TWO_53 {
      assert Rounded(x) == x;
    } else {
      RoundedIsLarge(x);
    }
  }

  lemma RoundedIsLarge(x: nat)
    requires x >= TWO_53
    ensures Rounded(x) >= TWO_53
  {
    var u := Unit(x);
    hide Unit;
    var k := x / u;
    assert x == u * k + x % u;
    if k < TWO_52 {
      MulOrder(k + 1, TWO_52, u);
      Distribute(u, k, 1);
    }
    MulOrder(TWO_52, k, u);
  }
}
