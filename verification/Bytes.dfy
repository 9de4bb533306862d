/** Octet strings and the numbers they denote in either byte order. A number has one string of octets of a given
    length, as long as it fits; decoding that string gives the number back, and a string one octet too short
    gives its residue, which is what the source makes of a number that does not fit. The facts are those of place
    value: the value of a string is below 256 to its length, splitting off the lowest octet is division by 256 with
    remainder, and two strings of the same length and value are the same. Reversing a string changes the byte order
    and nothing else. */
module Bytes {
  import opened Integers

  type byte = x: int | 0 <= x < 256

  function Reverse<T>(s: seq<T>): (r: seq<T>)
    ensures |r| == |s|
    ensures forall i :: 0 <= i < |s| ==> r[i] == s[|s| - 1 - i]
  {
    if s == [] then [] else Reverse(s[1..]) + [s[0]]
  }

  lemma ReverseTwice<T>(s: seq<T>)
    ensures Reverse(Reverse(s)) == s
  {
  }

  function FromBigEndian(b: seq<byte>): nat {
    if b == [] then 0 else 256 * FromBigEndian(b[..|b| - 1]) + b[|b| - 1]
  }

  function FromLittleEndian(b: seq<byte>): nat {
    if b == [] then 0 else b[0] + 256 * FromLittleEndian(b[1..])
  }

  /** The n low-order octets of x, least significant first. */
  function LittleEndian(x: nat, n: nat): (b: seq<byte>)
    ensures |b| == n
  {
    if n == 0 then [] else [x % 256] + LittleEndian(x / 256, n - 1)
  }

  lemma {:induction false} FromReverse(b: seq<byte>)
    ensures FromLittleEndian(Reverse(b)) == FromBigEndian(b)
    ensures FromBigEndian(Reverse(b)) == FromLittleEndian(b)
  {
    if b != [] {
      var n := |b| - 1;
      FromReverse(b[..n]);
      assert Reverse(b) == [b[n]] + Reverse(b[..n]);
      FromReverse(b[1..]);
      assert Reverse(b)[..n] == Reverse(b[1..]);
    }
  }

  lemma {:induction false} LittleEndianBound(b: seq<byte>)
    ensures FromLittleEndian(b) < Pow(256, |b|)
  {
    if b != [] {
      LittleEndianBound(b[1..]);
    }
  }

  lemma PowPositive(b: int, e: nat)
    requires b > 0
    ensures Pow(b, e) > 0
  {
  }

  /** Splitting the residue modulo 256 * m into its low octet and the rest. */
  lemma {:induction false} ModSplit(x: nat, m: int)
    requires m > 0
    ensures x % (256 * m) == x % 256 + 256 * ((x / 256) % m)
  {
    var q, r := x / 256, x % 256;
    var s, t := q / m, q % m;
    assert q == m * s + t;
    assert x == (256 * m) * s + (256 * t + r) by {
      Associate(256, m, s);
    }
    ModUnique(x, 256 * m, s, 256 * t + r);
  }

  lemma {:induction false} ModUnique(x: int, m: int, q: int, r: int)
    requires m > 0 && x == m * q + r && 0 <= r < m
    ensures x % m == r
  {
    assert Multiple(m, q, x - r);
    CongruentIffSameMod(x, r, m);
  }

  /** Decoding the n low octets of x gives x modulo 256^n: all of x exactly when it fits. */
  lemma {:induction false} LittleEndianValue(x: nat, n: nat)
    ensures Pow(256, n) > 0
    ensures FromLittleEndian(LittleEndian(x, n)) == x % Pow(256, n)
  {
    PowPositive(256, n);
    if n > 0 {
      LittleEndianValue(x / 256, n - 1);
      PowPositive(256, n - 1);
      assert LittleEndian(x, n)[1..] == LittleEndian(x / 256, n - 1);
      ModSplit(x, Pow(256, n - 1));
    } else {
      assert Pow(256, 0) == 1;
    }
  }

  // Hexadecimal

  const HEX_UPPER := "0123456789ABCDEF"
  const HEX_LOWER := "0123456789abcdef"

  predicate IsHex(c: char) {
    '0' <= c <= '9' || 'a' <= c <= 'f' || 'A' <= c <= 'F'
  }

  function HexValue(c: char): (d: nat)
    ensures d < 16
  {
    if '0' <= c <= '9' then (c - '0') as nat
    else if 'a' <= c <= 'f' then (c - 'a') as nat + 10
    else if 'A' <= c <= 'F' then (c - 'A') as nat + 10
    else 0
  }

  lemma HexDigit(d: nat)
    requires d < 16
    ensures HexValue(HEX_UPPER[d]) == HexValue(HEX_LOWER[d]) == d
    ensures IsHex(HEX_LOWER[d]) && IsHex(HEX_UPPER[d]) && HEX_UPPER[d] !in ['_', '?']
    ensures d > 0 ==> HEX_LOWER[d] != '0'
  {
  }
}
