/** packages/crypto/src/pmcrypto/bigInteger.ts: modular arithmetic and byte codecs on BigInt. */
module BigInteger {
  import opened Integers
  import opened Bytes
  import opened Results

  datatype ArithmeticError = ZeroModulus | NegativeExponent | NoInverse | DivisionByZero

  /** The residue `mod` returns; BigInt's `%` throws on a zero modulus. */
  function Mod(a: int, m: int): (r: int)
    requires m != 0
    ensures m > 0 ==> r == a % m
    ensures Congruent(r, a, m)
  {
    var reduced := Rem(a, m);
    ReducedFacts(a, m, reduced, if reduced < 0 then reduced + m else reduced);
    if reduced < 0 then reduced + m else reduced
  }

  lemma ReducedFacts(a: int, m: int, reduced: int, r: int)
    requires m != 0 && reduced == Rem(a, m) && r == if reduced < 0 then reduced + m else reduced
    ensures Congruent(r, a, m) && (m > 0 ==> r == a % m)
  {
    hide Rem, Congruent, Divides;
    RemQuot(a, m);
    if reduced < 0 {
      assert Congruent(reduced + m, reduced, m) by {
        OneModulusAway(reduced, m);
      }
      CongruentTrans(reduced + m, reduced, a, m);
    }
    if m > 0 {
      CongruentIffSameMod(r, a, m);
      SmallResidue(r, m);
    }
  }

  lemma OneModulusAway(x: int, m: int)
    ensures Congruent(x + m, x, m)
  {
    assert Multiple(m, 1, x + m - x);
  }

  lemma SmallResidue(r: int, m: int)
    requires 0 <= r < m
    ensures r % m == r
  {
  }

  /** Square and multiply. The result is JavaScript's `b ** e % n`, sign of the base included,
      except that the modulus -1 with exponent 0 yields 1. A unit modulus is answered before the
      exponent is looked at. */
  method ModExp(b: int, e: int, n: int) returns (res: Result<int, ArithmeticError>)
    ensures n == 0 ==> res == Failure(ZeroModulus)
    ensures n == 1 ==> res == Success(0)
    ensures n != 0 && n != 1 && e < 0 ==> res == Failure(NegativeExponent)
    ensures n != 0 && n != 1 && e >= 0 ==> res.Success?
    ensures n != 0 && n != 1 && e >= 0 ==> (res.value == Rem(Pow(b, e), n) <==> !(n == -1 && e == 0))
  {
    if n == 0 {
      return Failure(ZeroModulus);
    }
    if n == 1 {
      return Success(0);
    }
    if e < 0 {
      return Failure(NegativeExponent);
    }
    var exp := e;
    var x := Rem(b, n);
    var r := 1;
    RemPow(b, e, n);
    while exp > 0
      invariant exp >= 0
      invariant Rem(r * Pow(x, exp), n) == Rem(Pow(b, e), n)
      invariant e == 0 ==> r == 1
      invariant Abs(r) < Abs(n) || (r == 1 && (exp > 0 || e == 0))
    {
      var lsb := exp % 2;
      ModExpStep(r, x, exp, n);
      exp := exp / 2;
      var rx := Rem(r * x, n);
      RemQuot(r * x, n);
      r := if lsb != 0 then rx else r;
      x := Rem(x * x, n);
    }
    assert r * Pow(x, 0) == r;
    if n == -1 {
      assert Rem(Pow(b, e), n) == 0;
    } else {
      RemSmall(r, n);
    }
    return Success(r);
  }

  /** One round of square and multiply keeps the remainder of r * x^exp. */
  lemma {:induction false} ModExpStep(r: int, x: int, exp: nat, n: int)
    requires n != 0 && exp > 0
    ensures Rem((if exp % 2 != 0 then Rem(r * x, n) else r) * Pow(Rem(x * x, n), exp / 2), n)
         == Rem(r * Pow(x, exp), n)
  {
    var h := exp / 2;
    var p := Pow(x * x, h);
    PowMul(x, 2, h);
    assert Pow(x, 2) == x * Pow(x, 1) == x * x by {
      assert Pow(x, 0) == 1;
    }
    RemPow(x * x, h, n);
    var s := if exp % 2 != 0 then Rem(r * x, n) else r;
    RemMulRight(s, Pow(Rem(x * x, n), h), p, n);
    if exp % 2 != 0 {
      assert exp == 2 * h + 1;
      PowAdd(x, 1, 2 * h);
      assert Pow(x, 1) == x by { assert Pow(x, 0) == 1; }
      RemMul(r * x, p, n);
      Associate(r, x, p);
    } else {
      assert exp == 2 * h;
    }
  }

  lemma {:induction false} RemMulRight(s: int, p: int, q: int, n: int)
    requires n != 0 && Rem(p, n) == Rem(q, n)
    ensures Rem(s * p, n) == Rem(s * q, n)
  {
    RemMul(p, s, n);
    RemMul(q, s, n);
    assert p * s == s * p && q * s == s * q;
  }

  /** For a non-negative base and a positive modulus the result is the least residue of b^e. */
  lemma {:induction false} ModExpResidue(b: int, e: nat, n: int)
    requires b >= 0 && n > 0
    ensures Rem(Pow(b, e), n) == Pow(b, e) % n
  {
    PowNonNegative(b, e);
  }

  lemma PowNonNegative(b: int, e: nat)
    requires b >= 0
    ensures Pow(b, e) >= 0
  {
  }

  // Extended Euclid

  ghost predicate IsGcd(g: nat, a: int, b: int) {
    Divides(g, a) && Divides(g, b) && forall d :: Divides(d, a) && Divides(d, b) ==> Divides(d, g)
  }

  ghost predicate SameCommonDivisors(a: int, b: int, c: int, d: int) {
    forall e :: Divides(e, a) && Divides(e, b) <==> Divides(e, c) && Divides(e, d)
  }

  lemma EuclidStep(a: int, b: int, q: int, r: int)
    requires a == b * q + r
    ensures SameCommonDivisors(a, b, b, r)
  {
    forall e | Divides(e, b)
      ensures Divides(e, a) <==> Divides(e, r)
    {
      DividesMul(e, b, q);
      if Divides(e, a) {
        DividesAdd(e, a, b * q);
      }
      if Divides(e, r) {
        DividesAdd(e, b * q, r);
      }
    }
  }

  /** Coefficients and greatest common divisor for any signs of the operands. */
  method Egcd(aInput: int, bInput: int) returns (gcd: nat, xOut: int, yOut: int)
    ensures aInput * xOut + bInput * yOut == gcd
    ensures IsGcd(gcd, aInput, bInput)
  {
    var x, y, xPrev, yPrev := 0, 1, 1, 0;
    ghost var a0, b0 := Abs(aInput), Abs(bInput);
    var a: int, b: int := Abs(aInput), Abs(bInput);
    while b != 0
      invariant a >= 0 && b >= 0
      invariant a0 * xPrev + b0 * yPrev == a
      invariant a0 * x + b0 * y == b
      invariant SameCommonDivisors(a, b, a0, b0)
      decreases b
    {
      var q := a / b;
      CombineStep(a0, b0, xPrev, yPrev, x, y, q, a, b);
      EuclidStep(a, b, q, a % b);
      x, xPrev := xPrev - q * x, x;
      y, yPrev := yPrev - q * y, y;
      a, b := b, a % b;
    }
    gcd := a;
    xOut := if aInput < 0 then -xPrev else xPrev;
    yOut := if bInput < 0 then -yPrev else yPrev;
    assert aInput * xOut == a0 * xPrev;
    assert bInput * yOut == b0 * yPrev;
    assert IsGcd(gcd, a0, b0) by {
      assert Multiple(gcd, 1, gcd);
      forall e
        ensures Divides(e, 0)
      {
        assert Multiple(e, 0, 0);
      }
    }
    GcdAbs(gcd, aInput, bInput);
  }

  lemma CombineStep(a0: int, b0: int, xp: int, yp: int, x: int, y: int, q: int, a: int, b: int)
    requires a0 * xp + b0 * yp == a && a0 * x + b0 * y == b
    ensures a0 * (xp - q * x) + b0 * (yp - q * y) == a - b * q
  {
    Distribute(a0, xp, q * x);
    Distribute(b0, yp, q * y);
    Associate(a0, q, x);
    Associate(b0, q, y);
    Distribute(q, a0 * x, b0 * y);
  }

  lemma GcdAbs(g: nat, a: int, b: int)
    requires IsGcd(g, Abs(a), Abs(b))
    ensures IsGcd(g, a, b)
  {
    DividesAbs(g, a);
    DividesAbs(g, b);
    forall d | Divides(d, a) && Divides(d, b)
      ensures Divides(d, g)
    {
      DividesAbs(d, a);
      DividesAbs(d, b);
    }
  }

  ghost predicate AreCoprime(a: int, n: int) {
    forall d :: Divides(d, a) && Divides(d, n) ==> d == 1 || d == -1
  }

  lemma GcdOneIffCoprime(g: nat, a: int, n: int)
    requires IsGcd(g, a, n)
    ensures g == 1 <==> AreCoprime(a, n)
  {
    if g == 1 {
      forall d | Divides(d, a) && Divides(d, n)
        ensures d == 1 || d == -1
      {
        DividesAbs(d, 1);
        DivisorBound(Abs(d), 1);
      }
    }
  }

  /** The inverse exists exactly for coprime operands, and lies in [0, n) for a positive modulus. */
  method ModInv(a: int, n: int) returns (res: Result<int, ArithmeticError>)
    ensures res.Success? <==> AreCoprime(a, n) && n != 0
    ensures res.Failure? ==> res.error == (if AreCoprime(a, n) then DivisionByZero else NoInverse)
    ensures res.Success? ==> Congruent(a * res.value, 1, n)
    ensures res.Success? && n > 0 ==> 0 <= res.value < n
  {
    var gcd, x, y := Egcd(a, n);
    GcdOneIffCoprime(gcd, a, n);
    if gcd != 1 {
      return Failure(NoInverse);
    }
    if n == 0 {
      return Failure(DivisionByZero);
    }
    InverseFromBezout(a, n, x, y, Mod(x + n, n));
    return Success(Mod(x + n, n));
  }

  lemma InverseFromBezout(a: int, n: int, x: int, y: int, r: int)
    requires a * x + n * y == 1 && Congruent(r, x + n, n)
    ensures Congruent(a * r, 1, n)
  {
    assert Multiple(n, 1, (x + n) - x);
    CongruentTrans(r, x + n, x, n);
    CongruentRefl(a, n);
    CongruentMul(a, a, r, x, n);
    assert Multiple(n, -y, a * x - 1);
    CongruentTrans(a * r, a * x, 1, n);
  }

  /** An inverse modulo a positive n is the only one in [0, n). */
  lemma {:induction false} InverseUnique(a: int, n: int, r: int, s: int)
    requires n > 0 && 0 <= r < n && 0 <= s < n
    requires Congruent(a * r, 1, n) && Congruent(a * s, 1, n)
    ensures r == s
  {
    // r == (a * s) * r == (a * r) * s == s modulo n
    CongruentRefl(r, n);
    CongruentRefl(s, n);
    CongruentMul(a * s, 1, r, r, n);
    CongruentMul(a * r, 1, s, s, n);
    Associate(a, s, r);
    Associate(a, r, s);
    assert (a * s) * r == (a * r) * s;
    ResiduesAgree((a * s) * r, r, s, n);
  }

  lemma {:induction false} ResiduesAgree(p: int, r: int, s: int, n: int)
    requires n > 0 && Congruent(p, r, n) && Congruent(p, s, n)
    requires 0 <= r < n && 0 <= s < n
    ensures r == s
  {
    assert p % n == r % n by { CongruentIffSameMod(p, r, n); }
    assert p % n == s % n by { CongruentIffSameMod(p, s, n); }
    ModSmall(r, n);
    ModSmall(s, n);
  }

  // Sizes

  /** The least positive number of octets holding x, in two's complement less its sign bit when x is
      negative. */
  method ByteLength(x: int) returns (len: nat)
    ensures x >= 0 ==> IsLength(x, len)
    ensures x < 0 ==> IsLength(-x - 1, len)
  {
    var target := if x < 0 then -1 else 0;
    len := 1;
    var tmp := x / 256;
    assert Pow(256, 1) == 256 by { assert Pow(256, 0) == 1; }
    while tmp != target
      invariant len >= 1 && Pow(256, len) > 0
      invariant tmp == x / Pow(256, len)
      invariant x >= 0 ==> tmp >= 0
      invariant x < 0 ==> tmp <= -1
      invariant len > 1 && x >= 0 ==> Pow(256, len - 1) <= x
      invariant len > 1 && x < 0 ==> x < -Pow(256, len - 1)
      decreases Abs(tmp)
    {
      ShiftStep(x, Pow(256, len));
      len := len + 1;
      tmp := tmp / 256;
    }
    QuotientBounds(x, Pow(256, len));
  }

  lemma QuotientBounds(x: int, m: int)
    requires m > 0
    ensures x / m == 0 <==> 0 <= x < m
    ensures x / m == -1 <==> -m <= x < 0
    ensures x / m > 0 ==> x >= m
    ensures x / m < -1 ==> x < -m
  {
    var q, r := x / m, x % m;
    assert x == m * q + r;
    if q >= 1 {
      MulGrows(m, q);
    } else if q <= -2 {
      MulGrows(m, -q - 1);
      Distribute(m, -q, 1);
      assert m * q == -(m * (-q));
    }
  }

  lemma {:induction false} ShiftStep(x: int, m: int)
    requires m > 0
    ensures 256 * m > 0 && x / m / 256 == x / (256 * m)
    ensures x >= 0 && x / m != 0 ==> m <= x
    ensures x < 0 && x / m != -1 ==> x < -m
  {
    QuotientBounds(x, m);
    var q, r := x / m, x % m;
    assert x == m * q + r;
    ShiftCombine(x, m, q, r, q / 256, q % 256);
  }

  lemma {:induction false} ShiftCombine(x: int, m: int, q: int, r: int, s: int, t: int)
    requires m > 0 && 0 <= r < m && 0 <= t < 256
    requires x == m * q + r && q == 256 * s + t
    ensures x / (256 * m) == s
  {
    Distribute(m, 256 * s, t);
    Associate(m, 256, s);
    TimesByte(m, t);
    QuotientUnique(x, 256 * m, s, m * t + r);
  }

  lemma {:induction false} TimesByte(m: int, t: nat)
    requires m > 0 && t < 256
    ensures 0 <= m * t <= 255 * m
  {
    if t > 0 {
      TimesByteStep(m, t);
    }
  }

  lemma {:induction false} TimesByteStep(m: int, t: nat)
    requires m > 0
    ensures 0 <= m * t <= t * m
  {
    if t > 0 {
      TimesByteStep(m, t - 1);
      Distribute(m, t - 1, 1);
    }
  }

  lemma {:induction false} QuotientUnique(x: int, m: int, q: int, r: int)
    requires m > 0 && x == m * q + r && 0 <= r < m
    ensures x / m == q
  {
    var w := x / m;
    assert x == m * w + x % m;
    Distribute(m, q, w);
    if q > w {
      MulGrows(m, q - w);
      assert false;
    }
    if w > q {
      Distribute(m, w, q);
      MulGrows(m, w - q);
      assert false;
    }
  }

  // Hexadecimal

  predicate AllHex(s: string) {
    forall c | c in s :: IsHex(c)
  }

  /** The number a string of hexadecimal digits denotes. */
  function ParseHex(s: string): nat {
    if s == "" then 0 else 16 * ParseHex(s[..|s| - 1]) + HexValue(s[|s| - 1])
  }

  /** `x.toString(16)` of a non-negative BigInt. */
  function ToHex(x: nat): (s: string)
    ensures |s| > 0 && AllHex(s)
    ensures ParseHex(s) == x
    ensures x < 16 ==> |s| == 1
    ensures x >= 16 ==> |s| > 1 && s[0] != '0'
    ensures x < 16 ==> s[0] == HEX_LOWER[x]
  {
    HexDigit(x % 16);
    if x < 16 then
      var s := [HEX_LOWER[x]];
      assert s[..0] == "";
      s
    else
      var front := ToHex(x / 16);
      var s := front + [HEX_LOWER[x % 16]];
      assert s[..|s| - 1] == front;
      s
  }

  /** The two digits written for one octet. */
  function HexDigits(v: byte): string {
    [HEX_UPPER[v / 16], HEX_UPPER[v % 16]]
  }

  lemma ParseHexAppend(s: string, v: byte)
    ensures ParseHex(s + HexDigits(v)) == 256 * ParseHex(s) + v
  {
    ParseHexTwo(s, HEX_UPPER[v / 16], HEX_UPPER[v % 16]);
    assert s + [HEX_UPPER[v / 16]] + [HEX_UPPER[v % 16]] == s + HexDigits(v);
    HexDigit(v / 16);
    HexDigit(v % 16);
  }

  method Uint8ArrayToBigInt(bytes: seq<byte>) returns (x: nat)
    ensures x == FromBigEndian(bytes)
  {
    var s := "";
    for i := 0 to |bytes|
      invariant ParseHex(s) == FromBigEndian(bytes[..i])
    {
      ParseHexAppend(s, bytes[i]);
      assert bytes[..i + 1][..i] == bytes[..i];
      s := s + HexDigits(bytes[i]);
    }
    assert bytes[..|bytes|] == bytes;
    x := ParseHex(s);
  }

  /** The octet stored for `parseInt(hex.slice(2 * i, 2 * i + 2), 16)`: what comes after a sign is negated modulo 256,
      and a sign after a digit ends the number. */
  function HexPair(hex: string, i: nat): byte
    requires 2 * i + 1 < |hex|
  {
    var c, d := hex[2 * i], hex[2 * i + 1];
    if c == '-' then (256 - HexValue(d)) % 256
    else if d == '-' then HexValue(c)
    else 16 * HexValue(c) + HexValue(d)
  }

  /** The octets of an even number of hexadecimal digits. */
  function HexBytes(hex: string): (b: seq<byte>)
    requires |hex| % 2 == 0
  {
    seq(|hex| / 2, i requires 0 <= i < |hex| / 2 => HexPair(hex, i))
  }

  lemma {:induction false} HexBytesValue(hex: string)
    requires |hex| % 2 == 0 && '-' !in hex
    ensures FromBigEndian(HexBytes(hex)) == ParseHex(hex)
  {
    hide HexValue;
    if hex != "" {
      var n := |hex| - 2;
      var front := hex[..n];
      HexBytesValue(front);
      LastPair(hex);
      hide HexPair, HexBytes;
      ParseHexTwo(front, hex[n], hex[n + 1]);
      assert hex == front + [hex[n]] + [hex[n + 1]];
    }
  }

  lemma LastPair(hex: string)
    requires |hex| % 2 == 0 && '-' !in hex && hex != ""
    ensures var n := |hex| - 2;
            HexBytes(hex) == HexBytes(hex[..n]) + [16 * HexValue(hex[n]) + HexValue(hex[n + 1])]
  {
    hide HexValue;
    var n := |hex| - 2;
    assert HexPair(hex, n / 2) == 16 * HexValue(hex[n]) + HexValue(hex[n + 1]) by {
      assert hex[n] in hex && hex[n + 1] in hex;
    }
    assert forall i :: 0 <= i < n / 2 ==> HexPair(hex, i) == HexPair(hex[..n], i);
  }

  lemma ParseHexTwo(s: string, c: char, d: char)
    ensures ParseHex(s + [c] + [d]) == 256 * ParseHex(s) + 16 * HexValue(c) + HexValue(d)
  {
    var s' := s + [c];
    assert s'[..|s'| - 1] == s;
    var s'' := s' + [d];
    assert s''[..|s''| - 1] == s';
  }

  /** Where octet j of the array comes from once octets 0 to i of `raw` have been placed. */
  predicate Placed(raw: seq<byte>, offset: int, i: nat, j: int, v: byte)
  {
    v == if offset <= j < i + offset && j - offset < |raw| then raw[j - offset] else 0
  }

  /** The writing loop; a write outside the typed array is ignored. */
  method WriteOctets(hex: string, ghost raw: seq<byte>, bytes: array<byte>, offset: int)
    requires |hex| == 2 * |raw| && forall i :: 0 <= i < |raw| ==> raw[i] == HexPair(hex, i)
    requires forall j :: 0 <= j < bytes.Length ==> bytes[j] == 0
    modifies bytes
    ensures forall j :: 0 <= j < bytes.Length ==> Placed(raw, offset, |raw|, j, bytes[j])
  {
    var i := 0;
    while i < |hex| / 2
      invariant 0 <= i <= |raw|
      invariant forall j :: 0 <= j < bytes.Length ==> Placed(raw, offset, i, j, bytes[j])
    {
      if 0 <= i + offset < bytes.Length {
        bytes[i + offset] := HexPair(hex, i);
      }
      i := i + 1;
    }
  }

  /** The octets of x in the requested byte order. Without a length the array is as short as it can be;
      with one, x is padded to it, and octets that do not fit are dropped from the high end. For a negative x the
      octets are those of another number, as the sign is read with the first digit or ends the first pair. */
  method BigIntToUint8Array(x: int, bigEndian: bool, length: Option<nat>) returns (bytes: array<byte>)
    ensures fresh(bytes)
    ensures length.Some? ==> bytes.Length == length.value
    ensures length.None? ==> if x >= 0 then IsLength(x, bytes.Length) else bytes.Length == |SignedOctets(x)|
    ensures var low := LittleEndian(if x >= 0 then x else FromBigEndian(SignedOctets(x)), bytes.Length);
            bytes[..] == if bigEndian then Reverse(low) else low
  {
    hide ToHex, LittleEndian, Reverse, SignedOctets;
    var hex := if x >= 0 then ToHex(x) else "-" + ToHex(-x);
    if |hex| % 2 == 1 {
      hex := "0" + hex;
    }
    ghost var raw := HexBytes(hex);
    if x >= 0 {
      assert hex == EvenHex(x);
      PaddedHex(x);
    } else {
      SignedHex(x, hex);
    }
    var rawLength := |hex| / 2;
    var size := if length.None? then rawLength else length.value;
    bytes := new byte[size](_ => 0);
    var offset := if length.Some? && length.value != 0 then length.value - rawLength else 0;
    WriteOctets(hex, raw, bytes, offset);
    PlacedOctets(FromBigEndian(raw), raw, bytes[..], offset);
    if !bigEndian {
      ReverseTwice(LittleEndian(FromBigEndian(raw), size));
      ReverseInPlace(bytes);
    }
  }

  method ReverseInPlace(a: array<byte>)
    modifies a
    ensures a[..] == Reverse(old(a[..]))
  {
    var n, i := a.Length, 0;
    while i < n / 2
      invariant 0 <= i <= n / 2
      invariant forall k :: 0 <= k < i ==> a[k] == old(a[n - 1 - k]) && a[n - 1 - k] == old(a[k])
      invariant forall k :: i <= k < n - i ==> a[k] == old(a[k])
    {
      a[i], a[n - 1 - i] := a[n - 1 - i], a[i];
      i := i + 1;
    }
  }

  /** n octets hold x and no fewer (but at least one) would. */
  ghost predicate IsLength(x: nat, n: nat) {
    n >= 1 && x < Pow(256, n) && (n > 1 ==> Pow(256, n - 1) <= x)
  }

  /** The digits of x, padded to an even number of them. */
  function EvenHex(x: nat): (hex: string)
    ensures |hex| % 2 == 0 && |hex| >= 2
  {
    if |ToHex(x)| % 2 == 1 then "0" + ToHex(x) else ToHex(x)
  }

  /** As many octets as x needs, most significant first. */
  ghost function Octets(x: nat): (b: seq<byte>)
    ensures FromBigEndian(b) == x && IsLength(x, |b|) && b != []
  {
    PaddedHex(x);
    HexBytes(EvenHex(x))
  }

  /** The octets written for a negative number: those of its absolute value after a zero, or, if that begins with a
      single digit, with the first one negated. */
  ghost function SignedOctets(x: int): seq<byte>
    requires x < 0
  {
    var b := Octets(-x);
    if b[0] < 16 then [(256 - b[0] as int) % 256] + b[1..] else [0] + b
  }

  lemma SignedHex(x: int, hex: string)
    requires x < 0
    requires var signed := "-" + ToHex(-x); hex == if |signed| % 2 == 1 then "0" + signed else signed
    ensures |hex| % 2 == 0 && HexBytes(hex) == SignedOctets(x)
  {
    hide ToHex, HexPair, HexBytes, FromBigEndian, IsLength, AllHex;
    var digits := ToHex(-x);
    LeadingDigit(-x);
    if |digits| % 2 == 1 {
      SignFirst(digits);
    } else {
      SignSecond(digits);
      assert hex == "0-" + digits;
    }
  }

  /** The sign takes the place of the zero. */
  lemma SignFirst(digits: string)
    requires |digits| % 2 == 1 && '-' !in digits
    ensures var b := HexBytes("0" + digits); HexBytes("-" + digits) == [(256 - b[0] as int) % 256] + b[1..]
  {
    var s, b := "-" + digits, HexBytes("0" + digits);
    assert HexPair(s, 0) == (256 - b[0] as int) % 256;
    forall i | 0 < i < |b|
      ensures HexPair(s, i) == b[i]
    {
      assert s[2 * i] == ("0" + digits)[2 * i] && s[2 * i + 1] == ("0" + digits)[2 * i + 1];
    }
  }

  /** The sign comes after a zero, in a pair of its own. */
  lemma SignSecond(digits: string)
    requires |digits| % 2 == 0
    ensures HexBytes("0-" + digits) == [0] + HexBytes(digits)
  {
    var s := "0-" + digits;
    assert HexPair(s, 0) == 0;
    forall i | 0 <= i < |digits| / 2
      ensures HexPair(s, i + 1) == HexPair(digits, i)
    {
      assert s[2 * i + 2] == digits[2 * i] && s[2 * i + 3] == digits[2 * i + 1];
    }
  }

  /** The first octet has a single digit if the number of digits is odd, else two. */
  lemma LeadingDigit(x: nat)
    requires x > 0
    ensures Octets(x)[0] < 16 <==> |ToHex(x)| % 2 == 1
    ensures '-' !in ToHex(x)
  {
    hide ToHex, FromBigEndian, IsLength;
    var digits := ToHex(x);
    FirstPair(digits);
    assert Octets(x)[0] == HexPair(EvenHex(x), 0);
  }

  lemma FirstPair(digits: string)
    requires digits != "" && AllHex(digits) && (|digits| > 1 ==> digits[0] != '0')
    ensures '-' !in digits
    ensures HexPair(if |digits| % 2 == 1 then "0" + digits else digits, 0) < 16 <==> |digits| % 2 == 1
  {
    var c := digits[0];
    assert c in digits;
    if |digits| % 2 == 1 {
      assert ("0" + digits)[0] == '0' && ("0" + digits)[1] == c;
    } else {
      assert digits[1] in digits && HexValue(c) > 0;
    }
  }

  /** Padding keeps the value and needs no spare octet. */
  lemma PaddedHex(x: nat)
    ensures FromBigEndian(HexBytes(EvenHex(x))) == x
    ensures IsLength(x, |EvenHex(x)| / 2)
  {
    var hex := EvenHex(x);
    HexBytesValue(hex);
    LeadingZero(ToHex(x));
    var b := HexBytes(hex);
    BigEndianBound(b);
    if |hex| > 2 {
      LeadingOctet(x);
      BigEndianLeading(b);
    }
  }

  lemma LeadingOctet(x: nat)
    requires |EvenHex(x)| > 2
    ensures HexPair(EvenHex(x), 0) > 0
  {
    var c := ToHex(x)[0];
    assert c in ToHex(x) && HexValue(c) > 0;
  }

  lemma {:induction false} LeadingZero(s: string)
    ensures ParseHex("0" + s) == ParseHex(s)
  {
    if s == "" {
      assert ("0" + s)[..0] == "";
    } else {
      LeadingZero(s[..|s| - 1]);
      assert ("0" + s)[..|s|] == "0" + s[..|s| - 1];
    }
  }

  lemma BigEndianBound(b: seq<byte>)
    ensures FromBigEndian(b) < Pow(256, |b|)
  {
    FromReverse(b);
    LittleEndianBound(Reverse(b));
  }

  lemma {:induction false} BigEndianLeading(b: seq<byte>)
    requires b != [] && b[0] > 0
    ensures Pow(256, |b| - 1) <= FromBigEndian(b)
  {
    if |b| > 1 {
      BigEndianLeading(b[..|b| - 1]);
    } else {
      assert b[..0] == [];
    }
  }

  /** Octets written from `offset` on, cut at the ends of the array, are the low-order octets of x. */
  lemma {:induction false} PlacedOctets(x: nat, raw: seq<byte>, out: seq<byte>, offset: int)
    requires FromBigEndian(raw) == x
    requires offset + |raw| == |out| || out == []
    requires forall j :: 0 <= j < |out| ==> Placed(raw, offset, |raw|, j, out[j])
    ensures out == Reverse(LittleEndian(x, |out|))
  {
    FromReverse(raw);
    LittleEndianPlaced(x, Reverse(raw), Reverse(out));
    assert out == Reverse(Reverse(out)) by { ReverseTwice(out); }
  }

  lemma {:induction false} LittleEndianPlaced(x: nat, raw: seq<byte>, out: seq<byte>)
    requires FromLittleEndian(raw) == x
    requires forall j :: 0 <= j < |out| ==> out[j] == if j < |raw| then raw[j] else 0
    ensures out == LittleEndian(x, |out|)
  {
    if out != [] {
      var rest := if raw == [] then [] else raw[1..];
      LittleEndianPlaced(x / 256, rest, out[1..]);
      assert out == [out[0]] + out[1..];
    }
  }

  /** Round trip: the octets of x decode to x if and only if the requested length is enough. */
  lemma CodecRoundTrip(x: nat, n: nat)
    ensures FromLittleEndian(LittleEndian(x, n)) == x <==> x < Pow(256, n)
    ensures FromBigEndian(Reverse(LittleEndian(x, n))) == FromLittleEndian(LittleEndian(x, n))
  {
    LittleEndianValue(x, n);
    LittleEndianBound(LittleEndian(x, n));
    FromReverse(LittleEndian(x, n));
  }

  /** What `byteLength` reports is exactly the least number of octets that loses nothing. */
  lemma ByteLengthDecides(x: nat, len: nat, n: nat)
    requires IsLength(x, len) && n >= 1
    ensures FromLittleEndian(LittleEndian(x, n)) == x <==> len <= n
  {
    CodecRoundTrip(x, n);
    if n < len {
      PowMonotone(256, n, len - 1);
    } else {
      PowMonotone(256, len, n);
    }
  }

  lemma {:induction false} PowMonotone(b: int, e: nat, f: nat)
    requires b >= 1 && e <= f
    ensures Pow(b, e) <= Pow(b, f)
    decreases f
  {
    if e < f {
      PowMonotone(b, e, f - 1);
      PowPositive(b, f - 1);
      MulGrows(Pow(b, f - 1), b);
    }
  }
}
