/** packages/crypto/src/pmcrypto/key/forwarding.ts: the factor that lets a proxy turn a ciphertext for
    one Curve25519 key into one for another. */
module Forwarding {
  import opened Integers
  import opened Bytes
  import opened Results
  import opened BigInteger

  /** The order of the Curve25519 base point, 2^252 + 0x14def9dea2f79cd65812631a5cf5d3ed. */
  const ORDER := 0x1000000000000000000000000000000014def9dea2f79cd65812631a5cf5d3ed

  /** k turns the forwardee's secret into the forwarder's. */
  ghost predicate IsProxyFactor(k: int, forwarder: nat, forwardee: nat) {
    0 <= k < ORDER && Congruent(k * forwardee, forwarder, ORDER)
  }

  /** Fails exactly when the forwardee's secret has no inverse. The factor is exact for secrets of at least
      32 octets; a shorter array keeps only its low octets. */
  method ComputeProxyParameter(forwarderSecret: seq<byte>, forwardeeSecret: seq<byte>)
    returns (res: Result<seq<byte>, ArithmeticError>)
    ensures res.Success? <==> AreCoprime(FromBigEndian(forwardeeSecret), ORDER)
    ensures res.Failure? ==> res.error == NoInverse
    ensures res.Success? ==> |res.value| == |forwardeeSecret| && exists k ::
      && IsProxyFactor(k, FromBigEndian(forwarderSecret), FromBigEndian(forwardeeSecret))
      && res.value == LittleEndian(k, |forwardeeSecret|)
      && (|forwardeeSecret| >= 32 ==> FromLittleEndian(res.value) == k)
  {
    var dB := Uint8ArrayToBigInt(forwarderSecret);
    var dC := Uint8ArrayToBigInt(forwardeeSecret);
    var inverse :- ModInv(dC, ORDER);
    var k := Mod(inverse * dB, ORDER);
    FactorFromInverse(k, inverse, dB, dC);
    var bytes := BigIntToUint8Array(k, false, Some(|forwardeeSecret|));
    OrderFits(|forwardeeSecret|);
    CodecRoundTrip(k, |forwardeeSecret|);
    assert IsProxyFactor(k, dB, dC);
    return Success(bytes[..]);
  }

  lemma FactorFromInverse(k: int, inverse: int, dB: nat, dC: nat)
    requires Congruent(dC * inverse, 1, ORDER) && Congruent(k, inverse * dB, ORDER)
    ensures Congruent(k * dC, dB, ORDER)
  {
    CongruentRefl(dC, ORDER);
    CongruentRefl(dB, ORDER);
    CongruentMul(k, inverse * dB, dC, dC, ORDER);
    CongruentMul(dC * inverse, 1, dB, dB, ORDER);
    Associate(dC, inverse, dB);
    assert (inverse * dB) * dC == (dC * inverse) * dB;
    CongruentTrans(k * dC, (inverse * dB) * dC, dB, ORDER);
  }

  lemma OrderFits(n: nat)
    ensures n >= 32 ==> ORDER < Pow(256, n)
  {
    if n >= 32 {
      assert Pow(256, 1) == 256 by { assert Pow(256, 0) == 1; }
      PowAdd(256, 1, 1);
      PowAdd(256, 2, 2);
      PowAdd(256, 4, 4);
      PowAdd(256, 8, 8);
      PowAdd(256, 16, 16);
      PowMonotone(256, 32, n);
    }
  }

  /** The factor is determined by the two secrets. */
  lemma {:induction false} ProxyFactorUnique(k: int, l: int, forwarder: nat, forwardee: nat, inverse: int)
    requires IsProxyFactor(k, forwarder, forwardee) && IsProxyFactor(l, forwarder, forwardee)
    requires Congruent(forwardee * inverse, 1, ORDER)
    ensures k == l
  {
    FactorReduces(k, forwarder, forwardee, inverse);
    FactorReduces(l, forwarder, forwardee, inverse);
    ResiduesAgree(forwarder * inverse, k, l, ORDER);
  }

  lemma {:induction false} FactorReduces(k: int, forwarder: nat, forwardee: nat, inverse: int)
    requires IsProxyFactor(k, forwarder, forwardee)
    requires Congruent(forwardee * inverse, 1, ORDER)
    ensures Congruent(forwarder * inverse, k, ORDER)
  {
    CongruentRefl(inverse, ORDER);
    CongruentRefl(k, ORDER);
    CongruentMul(k * forwardee, forwarder, inverse, inverse, ORDER);
    CongruentMul(forwardee * inverse, 1, k, k, ORDER);
    Associate(k, forwardee, inverse);
    CongruentSym((k * forwardee) * inverse, forwarder * inverse, ORDER);
    CongruentTrans(forwarder * inverse, (k * forwardee) * inverse, k, ORDER);
  }
}
