/** Integer arithmetic behind the big-integer and SRP code: divisibility, congruence, powers, the truncating
    remainder of JavaScript, Bezout's identity and Fermat's little theorem. Fermat is proved by the binomial
    theorem: modulo a prime p all inner binomial coefficients vanish, so (a + 1)^p is a^p + 1, and by induction a^p
    is a. */
module Integers {

  function Abs(x: int): nat {
    if x >= 0 then x else -x
  }

  /** The `/` of JavaScript's BigInt: the quotient rounded towards zero. */
  function Quot(a: int, m: int): int
    requires m != 0
  {
    if (a >= 0) == (m > 0) then Abs(a) / Abs(m) else -(Abs(a) / Abs(m))
  }

  /** The `%` of JavaScript's BigInt: the remainder takes the sign of the dividend. */
  function Rem(a: int, m: int): int
    requires m != 0
  {
    if a >= 0 then a % Abs(m) else -((-a) % Abs(m))
  }

  function Pow(b: int, e: nat): int {
    if e == 0 then 1 else b * Pow(b, e - 1)
  }

  ghost predicate Divides(d: int, x: int) {
    exists k: int :: Multiple(d, k, x)
  }

  ghost predicate Multiple(d: int, k: int, x: int) {
    x == d * k
  }

  ghost predicate Congruent(a: int, b: int, m: int) {
    Divides(m, a - b)
  }

  ghost predicate IsPrime(p: int) {
    p > 1 && forall d :: 1 < d < p ==> !Divides(d, p)
  }

  // Products

  lemma Distribute(a: int, b: int, c: int)
    ensures a * (b + c) == a * b + a * c && (b + c) * a == b * a + c * a
    ensures a * (b - c) == a * b - a * c && (b - c) * a == b * a - c * a
  {
  }

  lemma Associate(a: int, b: int, c: int)
    ensures a * (b * c) == (a * b) * c == b * (a * c)
  {
  }

  // Divisibility

  lemma DividesMul(d: int, x: int, y: int)
    requires Divides(d, x)
    ensures Divides(d, x * y)
  {
    var k :| Multiple(d, k, x);
    assert x * y == d * (k * y);
    assert Multiple(d, k * y, x * y);
  }

  lemma DividesAdd(d: int, x: int, y: int)
    requires Divides(d, x) && Divides(d, y)
    ensures Divides(d, x + y) && Divides(d, x - y)
  {
    var k :| Multiple(d, k, x);
    var l :| Multiple(d, l, y);
    assert x + y == d * (k + l) && x - y == d * (k - l);
    assert Multiple(d, k + l, x + y) && Multiple(d, k - l, x - y);
  }

  lemma DividesNegate(d: int, x: int)
    requires Divides(d, x)
    ensures Divides(d, -x) && Divides(-d, x)
  {
    var k :| Multiple(d, k, x);
    assert Multiple(d, -k, -x) && Multiple(-d, -k, x);
  }

  lemma DividesAbs(d: int, x: int)
    ensures Divides(d, x) <==> Divides(d, Abs(x))
    ensures Divides(d, x) <==> Divides(Abs(d), x)
  {
    if Divides(d, x) {
      DividesNegate(d, x);
    }
    if Divides(d, Abs(x)) {
      DividesNegate(d, Abs(x));
    }
    if Divides(Abs(d), x) {
      DividesNegate(Abs(d), x);
    }
  }

  lemma DividesSmall(d: int, x: int)
    requires Divides(d, x) && Abs(x) < Abs(d)
    ensures x == 0
  {
    var k :| Multiple(d, k, x);
    assert Abs(x) == Abs(d) * Abs(k);
    if k != 0 {
      MulGrows(Abs(d), Abs(k));
      assert false;
    }
  }

  lemma MulGrows(d: nat, k: int)
    requires k >= 1
    ensures d * k >= d
  {
  }

  // Congruence

  lemma CongruentRefl(a: int, m: int)
    ensures Congruent(a, a, m)
  {
    assert Multiple(m, 0, a - a);
  }

  lemma CongruentSym(a: int, b: int, m: int)
    requires Congruent(a, b, m)
    ensures Congruent(b, a, m)
  {
    var k :| Multiple(m, k, a - b);
    assert Multiple(m, -k, b - a);
  }

  lemma CongruentTrans(a: int, b: int, c: int, m: int)
    requires Congruent(a, b, m) && Congruent(b, c, m)
    ensures Congruent(a, c, m)
  {
    DividesAdd(m, a - b, b - c);
    assert (a - b) + (b - c) == a - c;
  }

  lemma CongruentAdd(a: int, b: int, c: int, d: int, m: int)
    requires Congruent(a, b, m) && Congruent(c, d, m)
    ensures Congruent(a + c, b + d, m) && Congruent(a - c, b - d, m)
  {
    DividesAdd(m, a - b, c - d);
    assert (a + c) - (b + d) == (a - b) + (c - d);
    assert (a - c) - (b - d) == (a - b) - (c - d);
  }

  lemma CongruentMul(a: int, b: int, c: int, d: int, m: int)
    requires Congruent(a, b, m) && Congruent(c, d, m)
    ensures Congruent(a * c, b * d, m)
  {
    DividesMul(m, a - b, c);
    DividesMul(m, c - d, b);
    DividesAdd(m, (a - b) * c, (c - d) * b);
    assert (a - b) * c + (c - d) * b == a * c - b * d;
  }

  lemma {:induction false} CongruentPow(a: int, b: int, e: nat, m: int)
    requires Congruent(a, b, m)
    ensures Congruent(Pow(a, e), Pow(b, e), m)
  {
    if e == 0 {
      CongruentRefl(1, m);
    } else {
      CongruentPow(a, b, e - 1, m);
      CongruentMul(a, b, Pow(a, e - 1), Pow(b, e - 1), m);
    }
  }

  lemma CongruentMod(a: int, m: int)
    requires m > 0
    ensures Congruent(a % m, a, m)
  {
    assert a == m * (a / m) + a % m;
    assert Multiple(m, -(a / m), a % m - a);
  }

  /** Congruent numbers have the same canonical residue, and conversely. */
  lemma {:induction false} CongruentIffSameMod(a: int, b: int, m: int)
    requires m > 0
    ensures Congruent(a, b, m) <==> a % m == b % m
  {
    CongruentMod(a, m);
    CongruentMod(b, m);
    if Congruent(a, b, m) {
      CongruentTrans(a % m, a, b, m);
      CongruentSym(b % m, b, m);
      CongruentTrans(a % m, b, b % m, m);
      DividesSmall(m, a % m - b % m);
    }
    if a % m == b % m {
      CongruentSym(a % m, a, m);
      CongruentTrans(a, b % m, b, m);
    }
  }

  // The truncated remainder

  lemma RemQuot(a: int, m: int)
    requires m != 0
    ensures a == m * Quot(a, m) + Rem(a, m)
    ensures Abs(Rem(a, m)) < Abs(m)
    ensures Congruent(Rem(a, m), a, m)
  {
    var n := Abs(m);
    var q := Abs(a) / n;
    assert Abs(a) == n * q + Abs(a) % n;
    if (a >= 0) == (m > 0) {
      assert m * q == (if a >= 0 then n * q else -(n * q));
    } else {
      assert m * (-q) == (if a >= 0 then n * q else -(n * q));
    }
    assert Multiple(m, -Quot(a, m), Rem(a, m) - a) by {
      assert Rem(a, m) - a == -(m * Quot(a, m));
      assert -(m * Quot(a, m)) == m * (-Quot(a, m));
    }
  }

  lemma RemSmall(a: int, m: int)
    requires m != 0 && Abs(a) < Abs(m)
    ensures Rem(a, m) == a
  {
    ModSmall(Abs(a), Abs(m));
  }

  lemma ModSmall(r: int, n: int)
    requires 0 <= r < n
    ensures r % n == r
  {
  }

  lemma RemSign(a: int, m: int)
    requires m != 0
    ensures a >= 0 ==> Rem(a, m) >= 0
    ensures a <= 0 ==> Rem(a, m) <= 0
  {
  }

  /** A truncated remainder is settled by its residue class and its sign. */
  lemma {:induction false} RemUnique(a: int, b: int, m: int)
    requires m != 0 && Congruent(a, b, m)
    requires (a >= 0 && b >= 0) || (a <= 0 && b <= 0)
    ensures Rem(a, m) == Rem(b, m)
  {
    hide Rem, Quot;
    RemQuot(a, m);
    RemQuot(b, m);
    RemSign(a, m);
    RemSign(b, m);
    CongruentTrans(Rem(a, m), a, b, m);
    CongruentSym(Rem(b, m), b, m);
    CongruentTrans(Rem(a, m), b, Rem(b, m), m);
    DividesSmall(m, Rem(a, m) - Rem(b, m));
  }

  /** Reducing one factor first does not change the remainder of a product. */
  lemma {:induction false} RemMul(a: int, c: int, m: int)
    requires m != 0
    ensures Rem(Rem(a, m) * c, m) == Rem(a * c, m)
  {
    RemQuot(a, m);
    CongruentRefl(c, m);
    CongruentMul(Rem(a, m), a, c, c, m);
    if a >= 0 && c >= 0 {
      assert Rem(a, m) * c >= 0 && a * c >= 0;
    } else if a >= 0 {
      assert Rem(a, m) * c <= 0 && a * c <= 0;
    } else if c >= 0 {
      assert Rem(a, m) * c <= 0 && a * c <= 0;
    } else {
      assert Rem(a, m) * c >= 0 && a * c >= 0;
    }
    RemUnique(Rem(a, m) * c, a * c, m);
  }

  // Powers

  lemma {:induction false} PowAdd(b: int, e: nat, f: nat)
    ensures Pow(b, e + f) == Pow(b, e) * Pow(b, f)
  {
    if e != 0 {
      PowAdd(b, e - 1, f);
    }
  }

  lemma {:induction false} PowMul(b: int, e: nat, f: nat)
    ensures Pow(b, e * f) == Pow(Pow(b, e), f)
  {
    if f != 0 {
      PowMul(b, e, f - 1);
      assert e * f == e + e * (f - 1);
      PowAdd(b, e, e * (f - 1));
    } else {
      assert e * f == 0;
    }
  }

  lemma {:induction false} PowOne(e: nat)
    ensures Pow(1, e) == 1
  {
    if e != 0 {
      PowOne(e - 1);
    }
  }

  lemma {:induction false} RemPow(b: int, e: nat, m: int)
    requires m != 0
    ensures Rem(Pow(Rem(b, m), e), m) == Rem(Pow(b, e), m)
  {
    if e != 0 {
      var x := Rem(b, m);
      RemPow(b, e - 1, m);
      var p, q := Pow(x, e - 1), Pow(b, e - 1);
      RemMul(b, p, m);
      RemMul(p, b, m);
      RemMul(q, b, m);
      assert b * p == p * b && b * q == q * b;
    }
  }

  // Bezout and Euclid

  lemma {:induction false} Bezout(a: nat, b: nat) returns (g: nat, x: int, y: int)
    ensures a * x + b * y == g
    ensures Divides(g, a) && Divides(g, b)
    decreases b
  {
    if b == 0 {
      g, x, y := a, 1, 0;
      assert Multiple(g, 1, a) && Multiple(g, 0, b);
    } else {
      var q, r := a / b, a % b;
      assert a == b * q + r;
      var s, t;
      g, s, t := Bezout(b, r);
      x, y := t, s - q * t;
      assert a * x + b * y == b * s + r * t by {
        assert a * t == b * q * t + r * t;
        assert b * (s - q * t) == b * s - b * q * t;
      }
      DividesMul(g, b, q);
      DividesAdd(g, b * q, r);
    }
  }

  lemma DivisorBound(d: nat, x: int)
    requires Divides(d, x) && x > 0
    ensures 0 < d <= x
  {
    if d > x {
      DividesSmall(d, x);
    }
    if d == 0 {
      var k :| Multiple(0, k, x);
      assert false;
    }
  }

  /** Euclid's lemma: a prime that divides a product divides a factor. */
  lemma Euclid(p: int, x: int, y: int)
    requires IsPrime(p) && Divides(p, x * y)
    ensures Divides(p, x) || Divides(p, y)
  {
    var g, s, t := Bezout(Abs(x), p);
    DivisorBound(g, p);
    if g == p {
      DividesAbs(p, x);
    } else {
      var s' := if x < 0 then -s else s;
      assert x * s' == Abs(x) * s;
      Coprime(p, x, y, s', t);
    }
  }

  lemma Coprime(p: int, x: int, y: int, s: int, t: int)
    requires x * s + p * t == 1 && Divides(p, x * y)
    ensures Divides(p, y)
  {
    DividesMul(p, x * y, s);
    assert Multiple(p, t * y, p * (t * y));
    DividesAdd(p, (x * y) * s, p * (t * y));
    Distribute(y, x * s, p * t);
    Associate(x, y, s);
    Associate(x, s, y);
    Associate(p, t, y);
    assert (x * y) * s + p * (t * y) == y;
  }

  // Fermat's little theorem, through the binomial expansion of (a + 1)^p

  ghost function Choose(n: nat, k: nat): nat {
    if k == 0 then 1 else if n == 0 then 0 else Choose(n - 1, k - 1) + Choose(n - 1, k)
  }

  lemma {:induction false} ChooseZero(n: nat, k: nat)
    requires k > n
    ensures Choose(n, k) == 0
  {
    if n > 0 {
      ChooseZero(n - 1, k - 1);
      ChooseZero(n - 1, k);
    }
  }

  lemma {:induction false} ChooseAbsorb(n: nat, k: nat)
    requires n >= 1 && k >= 1
    ensures k * Choose(n, k) == n * Choose(n - 1, k - 1)
  {
    if n == 1 {
      if k >= 2 {
        ChooseZero(n, k);
        ChooseZero(n - 1, k - 1);
      }
    } else if k == 1 {
      ChooseAbsorb(n - 1, 1);
    } else {
      ChooseAbsorb(n - 1, k);
      ChooseAbsorb(n - 1, k - 1);
      AbsorbStep(n, k, Choose(n - 1, k - 1), Choose(n - 1, k), Choose(n - 2, k - 2), Choose(n - 2, k - 1));
    }
  }

  lemma AbsorbStep(n: int, k: int, c: int, d: int, l: int, r: int)
    requires c == l + r && k * d == (n - 1) * r && (k - 1) * c == (n - 1) * l
    ensures k * (c + d) == n * c
  {
    Distribute(k, c, d);
    Distribute(n - 1, l, r);
    Distribute(c, k - 1, 1);
    Distribute(c, n - 1, 1);
  }

  /** The first k terms of the expansion of (a + 1)^n. */
  ghost function Expansion(n: nat, a: int, k: nat): int {
    if k == 0 then 0 else Expansion(n, a, k - 1) + Choose(n, k - 1) * Pow(a, k - 1)
  }

  lemma {:induction false} ExpansionStep(n: nat, a: int, k: nat)
    ensures Expansion(n + 1, a, k + 1) == Expansion(n, a, k + 1) + a * Expansion(n, a, k)
  {
    if k == 0 {
      assert Expansion(n + 1, a, 0) == Expansion(n, a, 0) == 0;
    } else {
      ExpansionStep(n, a, k - 1);
      var c, d, p := Choose(n, k - 1), Choose(n, k), Pow(a, k - 1);
      assert Choose(n + 1, k) == c + d && Pow(a, k) == a * p;
      Distribute(a * p, c, d);
      Associate(a, c, p);
      Associate(c, a, p);
      Distribute(a, Expansion(n, a, k - 1), c * p);
    }
  }

  lemma {:induction false} Binomial(n: nat, a: int)
    ensures Expansion(n, a, n + 1) == Pow(a + 1, n)
  {
    if n > 0 {
      Binomial(n - 1, a);
      ExpansionStep(n - 1, a, n);
      ChooseZero(n - 1, n);
    }
  }

  lemma PrimeDividesChoose(p: int, k: nat)
    requires IsPrime(p) && 0 < k < p
    ensures Divides(p, Choose(p, k))
  {
    ChooseAbsorb(p, k);
    assert Multiple(p, Choose(p - 1, k - 1), k * Choose(p, k));
    Euclid(p, k, Choose(p, k));
    if Divides(p, k) {
      DividesSmall(p, k);
    }
  }

  lemma {:induction false} ExpansionModPrime(p: int, a: int, k: nat)
    requires IsPrime(p) && 1 <= k <= p
    ensures Congruent(Expansion(p, a, k), 1, p)
  {
    if k == 1 {
      assert Expansion(p, a, 1) == 1 by {
        assert Expansion(p, a, 0) == 0;
      }
      CongruentRefl(1, p);
    } else {
      ExpansionModPrime(p, a, k - 1);
      PrimeDividesChoose(p, k - 1);
      DividesMul(p, Choose(p, k - 1), Pow(a, k - 1));
      DividesAdd(p, Expansion(p, a, k - 1) - 1, Choose(p, k - 1) * Pow(a, k - 1));
    }
  }

  lemma {:induction false} ChooseAll(n: nat)
    ensures Choose(n, n) == 1
  {
    if n > 0 {
      ChooseAll(n - 1);
      ChooseZero(n - 1, n);
    }
  }

  lemma {:induction false} FermatPower(p: int, a: nat)
    requires IsPrime(p)
    ensures Congruent(Pow(a, p), a, p)
  {
    if a == 0 {
      assert Pow(0, p) == 0 * Pow(0, p - 1);
      CongruentRefl(0, p);
    } else {
      FermatPower(p, a - 1);
      FermatStep(p, a - 1);
      CongruentAdd(Pow(a - 1, p), a - 1, 1, 1, p) by { CongruentRefl(1, p); }
      CongruentTrans(Pow(a, p), Pow(a - 1, p) + 1, a, p);
    }
  }

  lemma FermatStep(p: int, a: int)
    requires IsPrime(p)
    ensures Congruent(Pow(a + 1, p), Pow(a, p) + 1, p)
  {
    Binomial(p, a);
    ExpansionModPrime(p, a, p);
    ChooseAll(p);
    CongruentRefl(Pow(a, p), p);
    CongruentAdd(Expansion(p, a, p), 1, Pow(a, p), Pow(a, p), p);
    assert Expansion(p, a, p + 1) == Expansion(p, a, p) + Pow(a, p);
  }

  /** Fermat's little theorem. */
  lemma Fermat(p: int, a: int)
    requires IsPrime(p) && a % p != 0
    ensures Congruent(Pow(a, p - 1), 1, p)
  {
    var b := a % p;
    CongruentMod(a, p);
    CongruentPow(b, a, p - 1, p);
    FermatPower(p, b);
    assert Pow(b, p) == b * Pow(b, p - 1);
    assert b * Pow(b, p - 1) - b == b * (Pow(b, p - 1) - 1);
    Euclid(p, b, Pow(b, p - 1) - 1);
    if Divides(p, b) {
      DividesSmall(p, b);
    }
    CongruentSym(Pow(b, p - 1), Pow(a, p - 1), p);
    CongruentTrans(Pow(a, p - 1), Pow(b, p - 1), 1, p);
  }

  /** Reducing an exponent modulo p - 1 is harmless for a base the prime p does not divide. */
  lemma {:induction false} PowExponentReduce(p: int, a: int, e: nat)
    requires IsPrime(p) && a % p != 0
    ensures Congruent(Pow(a, e % (p - 1)), Pow(a, e), p)
  {
    var q, r := e / (p - 1), e % (p - 1);
    assert e == (p - 1) * q + r;
    Fermat(p, a);
    PowPeriod(p, a, p - 1, q, r);
  }

  lemma PowPeriod(m: int, a: int, d: nat, q: nat, r: nat)
    requires Congruent(Pow(a, d), 1, m)
    ensures d * q + r >= 0 && Congruent(Pow(a, r), Pow(a, d * q + r), m)
  {
    PowAdd(a, d * q, r);
    PowMul(a, d, q);
    CongruentPow(Pow(a, d), 1, q, m);
    PowOne(q);
    CongruentRefl(Pow(a, r), m);
    CongruentMul(Pow(a, d * q), 1, Pow(a, r), Pow(a, r), m);
    CongruentSym(Pow(a, d * q + r), Pow(a, r), m);
  }
}
