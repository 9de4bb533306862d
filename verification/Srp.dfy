/** packages/crypto/src/srp/srp.ts: the client's half of SRP-6a and the password verifier. Hash functions
    and randomness are parameters. */
module Srp {
  import opened Integers
  import opened Bytes
  import opened Results
  import opened BigInteger

  const GENERATOR := 2
  const MAX_VALUE_ITERATIONS: nat := 1000

  datatype SrpError = ModulusSize | EphemeralOutOfBounds | NoSafeParameters | Arithmetic(error: ArithmeticError)

  datatype Parameters = Parameters(clientSecret: nat, clientEphemeral: nat, scramblingParam: nat)

  datatype Proofs = Proofs(clientEphemeral: seq<byte>, clientProof: seq<byte>, expectedServerProof: seq<byte>,
                           sharedSession: seq<byte>)

  type Hash = seq<byte> -> seq<byte>

  /** An attempt's parameters, from the random octets drawn for it. */
  function ParametersFrom(n: nat, modulus: int, serverEphemeral: seq<byte>, random: seq<byte>, hash: Hash): Parameters
    requires modulus > 0
  {
    var a := FromLittleEndian(random);
    var bigA := Pow(GENERATOR, a) % modulus;
    Parameters(a, bigA, FromLittleEndian(hash(LittleEndian(bigA, n) + serverEphemeral)))
  }

  predicate IsSafe(p: Parameters) {
    p.scramblingParam != 0 && p.clientEphemeral != 0
  }

  /** The first of the attempts from i on whose parameters are safe. */
  function FirstSafe(n: nat, modulus: int, serverEphemeral: seq<byte>, randoms: nat -> seq<byte>, hash: Hash, i: nat)
    : (p: Option<Parameters>)
    requires modulus > 0
    ensures p.Some? ==> IsSafe(p.value)
    ensures p.Some? ==> (exists j {:trigger randoms(j)} :: i <= j < MAX_VALUE_ITERATIONS &&
                           p.value == ParametersFrom(n, modulus, serverEphemeral, randoms(j), hash))
    decreases MAX_VALUE_ITERATIONS - i
  {
    if i >= MAX_VALUE_ITERATIONS then None
    else
      var p := ParametersFrom(n, modulus, serverEphemeral, randoms(i), hash);
      if IsSafe(p) then Some(p) else FirstSafe(n, modulus, serverEphemeral, randoms, hash, i + 1)
  }

  method GenerateParameters(n: nat, modulus: int, serverEphemeral: seq<byte>, random: seq<byte>, hash: Hash)
    returns (p: Parameters)
    requires modulus > 0
    ensures p == ParametersFrom(n, modulus, serverEphemeral, random, hash)
  {
    var clientSecret := Uint8ArrayToBigInt(Reverse(random));
    FromReverse(random);
    var power := ModExp(GENERATOR, clientSecret, modulus);
    ModExpResidue(GENERATOR, clientSecret, modulus);
    var clientEphemeral := power.value;
    var clientEphemeralArray := BigIntToUint8Array(clientEphemeral, false, Some(n));
    var digest := hash(clientEphemeralArray[..] + serverEphemeral);
    var scramblingParam := Uint8ArrayToBigInt(Reverse(digest));
    FromReverse(digest);
    p := Parameters(clientSecret, clientEphemeral, scramblingParam);
  }

  /** Retries until both values are usable, and gives up after the last attempt. */
  method GetParameters(n: nat, modulus: int, serverEphemeral: seq<byte>, randoms: nat -> seq<byte>, hash: Hash)
    returns (p: Option<Parameters>)
    requires modulus > 0
    ensures p == FirstSafe(n, modulus, serverEphemeral, randoms, hash, 0)
  {
    for i := 0 to MAX_VALUE_ITERATIONS
      invariant FirstSafe(n, modulus, serverEphemeral, randoms, hash, 0)
             == FirstSafe(n, modulus, serverEphemeral, randoms, hash, i)
    {
      var q := GenerateParameters(n, modulus, serverEphemeral, randoms(i), hash);
      if !(q.scramblingParam == 0 || q.clientEphemeral == 0) {
        return Some(q);
      }
    }
    return None;
  }

  /** The number k of the protocol. */
  function Multiplier(n: nat, modulusArray: seq<byte>, hash: Hash): nat {
    FromLittleEndian(hash(LittleEndian(GENERATOR, n) + modulusArray))
  }

  /** The client's key, with its exponent reduced modulo N - 1. */
  function ClientKey(modulus: int, k: nat, x: nat, serverEphemeral: nat, p: Parameters): nat
    requires modulus > 1
  {
    var kgx := ((Pow(GENERATOR, x) % modulus) * (k % modulus)) % modulus;
    Pow((serverEphemeral - kgx) % modulus, (p.scramblingParam * x + p.clientSecret) % (modulus - 1)) % modulus
  }

  /** The messages and the key of a run with the given parameters. */
  function ProofsFrom(n: nat, modulusArray: seq<byte>, x: nat, serverEphemeral: seq<byte>, p: Parameters,
                      hash: Hash): Proofs
    requires FromLittleEndian(modulusArray) > 1
  {
    var key := ClientKey(FromLittleEndian(modulusArray), Multiplier(n, modulusArray, hash), x,
                         FromLittleEndian(serverEphemeral), p);
    var bigA, session := LittleEndian(p.clientEphemeral, n), LittleEndian(key, n);
    var proof := hash(bigA + serverEphemeral + session);
    Proofs(bigA, proof, hash(bigA + proof + session), session)
  }

  /** What a run of the client ends with: the error of the first check that fails, or the messages and the key. */
  ghost predicate IsResult(n: nat, modulusArray: seq<byte>, hashedPassword: seq<byte>, serverEphemeral: seq<byte>,
                           randoms: nat -> seq<byte>, hash: Hash, res: Result<Proofs, SrpError>) {
    var modulus, x := FromLittleEndian(modulusArray), FromLittleEndian(hashedPassword);
    if !IsLength(modulus, n) then res == Failure(ModulusSize)
    else if modulus == 0 then res == Failure(Arithmetic(DivisionByZero))
    else if FromLittleEndian(serverEphemeral) == 0 then res == Failure(EphemeralOutOfBounds)
    else
      match FirstSafe(n, modulus, serverEphemeral, randoms, hash, 0)
      case None => res == Failure(NoSafeParameters)
      case Some(p) => modulus > 1 && res == Success(ProofsFrom(n, modulusArray, x, serverEphemeral, p, hash))
  }

  method GenerateProofs(n: nat, modulusArray: seq<byte>, hashedPassword: seq<byte>, serverEphemeralArray: seq<byte>,
                        randoms: nat -> seq<byte>, hash: Hash)
    returns (res: Result<Proofs, SrpError>)
    ensures IsResult(n, modulusArray, hashedPassword, serverEphemeralArray, randoms, hash, res)
  {
    var modulus := LittleEndianArrayToBigInteger(modulusArray);
    var size := ByteLength(modulus);
    if size != n {
      LengthUnique(modulus, size, n);
      return Failure(ModulusSize);
    }
    var generatorArray := BigIntToUint8Array(GENERATOR, false, Some(n));
    var multiplier := LittleEndianArrayToBigInteger(hash(generatorArray[..] + modulusArray));
    var serverEphemeral := LittleEndianArrayToBigInteger(serverEphemeralArray);
    var x := LittleEndianArrayToBigInteger(hashedPassword);
    if modulus == 0 {
      return Failure(Arithmetic(DivisionByZero));
    }
    var multiplierReduced := Mod(multiplier, modulus);
    if serverEphemeral == 0 {
      return Failure(EphemeralOutOfBounds);
    }
    var found := GetParameters(n, modulus, serverEphemeralArray, randoms, hash);
    if found.None? {
      return Failure(NoSafeParameters);
    }
    var p := found.value;
    UnitModulusIsUnsafe(n, modulus, serverEphemeralArray, p, hash);
    var key := SharedSessionKey(modulus, multiplier, multiplierReduced, x, serverEphemeral, p);
    var clientEphemeralArray := BigIntToUint8Array(p.clientEphemeral, false, Some(n));
    var sharedSessionArray := BigIntToUint8Array(key, false, Some(n));
    var clientProof := hash(clientEphemeralArray[..] + serverEphemeralArray + sharedSessionArray[..]);
    var expectedServerProof := hash(clientEphemeralArray[..] + clientProof + sharedSessionArray[..]);
    return Success(Proofs(clientEphemeralArray[..], clientProof, expectedServerProof, sharedSessionArray[..]));
  }

  /** Section 2.5.3 of RFC 5054 asks the client to abort if and only if the modulus divides the server's value; it is
      aborted for its value exactly then, unless the value is a positive multiple of the modulus. */
  lemma EphemeralGuard(n: nat, modulusArray: seq<byte>, hashedPassword: seq<byte>, serverEphemeral: seq<byte>,
                       randoms: nat -> seq<byte>, hash: Hash, res: Result<Proofs, SrpError>)
    requires IsLength(FromLittleEndian(modulusArray), n) && FromLittleEndian(modulusArray) > 0
    requires IsResult(n, modulusArray, hashedPassword, serverEphemeral, randoms, hash, res)
    ensures var modulus, value := FromLittleEndian(modulusArray), FromLittleEndian(serverEphemeral);
            (res == Failure(EphemeralOutOfBounds) <==> Divides(modulus, value))
                <==> !(value >= modulus && value % modulus == 0)
  {
    hide FromLittleEndian, IsLength, FirstSafe, ProofsFrom;
    DivisibleValues(FromLittleEndian(serverEphemeral), FromLittleEndian(modulusArray));
  }

  lemma DivisibleValues(value: nat, modulus: nat)
    requires modulus > 0
    ensures Divides(modulus, value) <==> value % modulus == 0
    ensures 0 < value < modulus ==> value % modulus != 0
    ensures value == 0 ==> value % modulus == 0
  {
    ZeroResidueDivides(value, modulus);
    if value < modulus {
      ModSmall(value, modulus);
    }
  }

  /** The octets of the modulus itself are not refused, although the modulus divides them. */
  lemma ModulusPassesGuard(n: nat, modulusArray: seq<byte>, hashedPassword: seq<byte>, randoms: nat -> seq<byte>,
                           hash: Hash, res: Result<Proofs, SrpError>)
    requires IsLength(FromLittleEndian(modulusArray), n) && FromLittleEndian(modulusArray) > 0
    requires IsResult(n, modulusArray, hashedPassword, modulusArray, randoms, hash, res)
    ensures Divides(FromLittleEndian(modulusArray), FromLittleEndian(modulusArray))
    ensures res != Failure(EphemeralOutOfBounds)
  {
    hide FromLittleEndian, IsLength, FirstSafe, ProofsFrom;
    assert Multiple(FromLittleEndian(modulusArray), 1, FromLittleEndian(modulusArray));
  }

  lemma UnitModulusIsUnsafe(n: nat, modulus: int, serverEphemeral: seq<byte>, p: Parameters, hash: Hash)
    requires modulus > 0 && IsSafe(p)
    requires exists random :: p == ParametersFrom(n, modulus, serverEphemeral, random, hash)
    ensures modulus > 1
  {
  }

  method LittleEndianArrayToBigInteger(arr: seq<byte>) returns (x: nat)
    ensures x == FromLittleEndian(arr)
  {
    x := Uint8ArrayToBigInt(Reverse(arr));
    FromReverse(arr);
  }

  method SharedSessionKey(modulus: int, k: nat, kReduced: int, x: nat, serverEphemeral: nat, p: Parameters)
    returns (key: nat)
    requires modulus > 1 && kReduced == k % modulus
    ensures key == ClientKey(modulus, k, x, serverEphemeral, p)
  {
    var power := ModExp(GENERATOR, x, modulus);
    ModExpResidue(GENERATOR, x, modulus);
    var kgx := Mod(power.value * kReduced, modulus);
    var exponent := Mod(p.scramblingParam * x + p.clientSecret, modulus - 1);
    var base := Mod(serverEphemeral - kgx, modulus);
    var result := ModExp(base, exponent, modulus);
    ModExpResidue(base, exponent, modulus);
    key := result.value;
  }

  lemma LengthUnique(x: nat, m: nat, n: nat)
    requires IsLength(x, m) && m != n
    ensures !IsLength(x, n)
  {
    if IsLength(x, n) {
      if n < m {
        PowMonotone(256, n, m - 1);
      } else {
        PowMonotone(256, m, n - 1);
      }
      assert false;
    }
  }

  method GenerateVerifier(n: nat, hashedPassword: seq<byte>, modulusArray: seq<byte>)
    returns (res: Result<seq<byte>, ArithmeticError>)
    ensures FromLittleEndian(modulusArray) == 0 ==> res == Failure(ZeroModulus)
    ensures FromLittleEndian(modulusArray) > 0 ==>
      res == Success(LittleEndian(Pow(GENERATOR, FromLittleEndian(hashedPassword)) % FromLittleEndian(modulusArray), n))
  {
    var modulus := LittleEndianArrayToBigInteger(modulusArray);
    var x := LittleEndianArrayToBigInteger(hashedPassword);
    var verifier :- ModExp(GENERATOR, x, modulus);
    if modulus > 0 {
      ModExpResidue(GENERATOR, x, modulus);
    }
    var bytes := BigIntToUint8Array(verifier, false, Some(n));
    return Success(bytes[..]);
  }

  // Agreement with the host (section 2.6 of RFC 5054)

  /** The host's key (A * v^u)^b. */
  function HostKey(modulus: int, v: nat, bigA: nat, u: nat, b: nat): nat
    requires modulus > 0
  {
    PowNonNegative(v, u);
    PowNonNegative(bigA * Pow(v, u), b);
    Pow(bigA * Pow(v, u), b) % modulus
  }

  /** A power of the generator is never zero modulo an odd prime. */
  lemma {:induction false} GeneratorPowerNonZero(modulus: int, e: nat)
    requires IsPrime(modulus) && modulus > 2
    ensures Pow(GENERATOR, e) % modulus != 0
  {
    if e == 0 {
      ModSmall(1, modulus);
    } else {
      GeneratorPowerNonZero(modulus, e - 1);
      if Pow(GENERATOR, e) % modulus == 0 {
        ZeroResidueDivides(Pow(GENERATOR, e), modulus);
        Euclid(modulus, GENERATOR, Pow(GENERATOR, e - 1));
        ZeroResidueDivides(Pow(GENERATOR, e - 1), modulus);
        DividesSmallGenerator(modulus);
        assert false;
      }
    }
  }

  lemma ZeroResidueDivides(x: int, m: int)
    requires m > 0
    ensures x % m == 0 <==> Divides(m, x)
  {
    CongruentIffSameMod(x, 0, m);
    ModSmall(0, m);
    assert x - 0 == x;
  }

  lemma DividesSmallGenerator(m: int)
    requires m > 2
    ensures !Divides(m, GENERATOR)
  {
    if Divides(m, GENERATOR) {
      DividesSmall(m, GENERATOR);
    }
  }

  /** Both sides raise the generator to b * (a + u * x): the reduction of the client's exponent modulo
      N - 1 does not show, by Fermat's little theorem. */
  lemma {:induction false} KeysAgree(modulus: int, k: nat, x: nat, b: nat, p: Parameters, serverEphemeral: nat)
    requires IsPrime(modulus) && modulus > 2
    requires p.clientEphemeral == Pow(GENERATOR, p.clientSecret) % modulus
    requires Congruent(serverEphemeral, k * (Pow(GENERATOR, x) % modulus) + Pow(GENERATOR, b), modulus)
    ensures ClientKey(modulus, k, x, serverEphemeral, p)
         == HostKey(modulus, Pow(GENERATOR, x) % modulus, p.clientEphemeral, p.scramblingParam, b)
  {
    var v, u, a := Pow(GENERATOR, x) % modulus, p.scramblingParam, p.clientSecret;
    var kgx := (v * (k % modulus)) % modulus;
    var base := (serverEphemeral - kgx) % modulus;
    BaseIsHostPower(modulus, k, v, Pow(GENERATOR, b), serverEphemeral);
    GeneratorPowerNonZero(modulus, b);
    HostPower(modulus, x, a, u, b);
    ReducedPowerAgrees(modulus, base, Pow(GENERATOR, b), u * x + a, Pow(p.clientEphemeral * Pow(v, u), b));
  }

  lemma {:induction false} ReducedPowerAgrees(modulus: int, base: int, gb: int, e: nat, host: int)
    requires IsPrime(modulus) && gb % modulus != 0
    requires Congruent(base, gb, modulus) && Congruent(host, Pow(gb, e), modulus)
    ensures Pow(base, e % (modulus - 1)) % modulus == host % modulus
  {
    CongruentIffSameMod(base, gb, modulus);
    PowExponentReduce(modulus, base, e);
    CongruentPow(base, gb, e, modulus);
    CongruentIffSameMod(Pow(base, e % (modulus - 1)), Pow(base, e), modulus);
    CongruentIffSameMod(Pow(base, e), Pow(gb, e), modulus);
    CongruentIffSameMod(host, Pow(gb, e), modulus);
  }

  /** Removing k * g^x from the server's value leaves g^b. */
  lemma BaseIsHostPower(modulus: int, k: nat, v: nat, gb: int, serverEphemeral: nat)
    requires modulus > 1 && Congruent(serverEphemeral, k * v + gb, modulus)
    ensures Congruent((serverEphemeral - (v * (k % modulus)) % modulus) % modulus, gb, modulus)
  {
    var kgx := (v * (k % modulus)) % modulus;
    CongruentMod(v * (k % modulus), modulus);
    CongruentMod(k, modulus);
    CongruentRefl(v, modulus);
    CongruentMul(v, v, k % modulus, k, modulus);
    CongruentTrans(kgx, v * (k % modulus), v * k, modulus);
    assert v * k == k * v;
    CongruentAdd(serverEphemeral, k * v + gb, kgx, k * v, modulus);
    CongruentMod(serverEphemeral - kgx, modulus);
    CongruentTrans((serverEphemeral - kgx) % modulus, serverEphemeral - kgx, gb, modulus);
  }

  /** The host's base and exponent combine to the same power of the generator. */
  lemma {:induction false} HostPower(modulus: int, x: nat, a: nat, u: nat, b: nat)
    requires modulus > 1
    ensures u * x + a >= 0
    ensures Congruent(Pow((Pow(GENERATOR, a) % modulus) * Pow(Pow(GENERATOR, x) % modulus, u), b),
                      Pow(Pow(GENERATOR, b), u * x + a), modulus)
  {
    var g, v, bigA := GENERATOR, Pow(GENERATOR, x) % modulus, Pow(GENERATOR, a) % modulus;
    assert u * x >= 0;
    CongruentMod(Pow(g, x), modulus);
    CongruentMod(Pow(g, a), modulus);
    CongruentPow(v, Pow(g, x), u, modulus);
    PowMul(g, x, u);
    CongruentMul(bigA, Pow(g, a), Pow(v, u), Pow(g, x * u), modulus);
    PowAdd(g, a, x * u);
    CongruentPow(bigA * Pow(v, u), Pow(g, a + x * u), b, modulus);
    PowMul(g, a + x * u, b);
    PowMul(g, b, u * x + a);
    assert a + x * u == u * x + a;
    assert (u * x + a) * b == b * (u * x + a);
  }

  /** A whole login: with the verifier registered by `generateVerifier` and the server's value B = kv + g^b,
      a run of the client that succeeds leaves both sides with the same key octets, and each side's proof
      is the one the other computes. */
  lemma {:induction false} LoginSucceeds(n: nat, modulusArray: seq<byte>, hashedPassword: seq<byte>,
                                         serverEphemeral: seq<byte>,
                      p: Parameters, random: seq<byte>, hash: Hash, b: nat)
    requires
      var modulus, x := FromLittleEndian(modulusArray), FromLittleEndian(hashedPassword);
      && IsPrime(modulus) && modulus > 2 && IsLength(modulus, n)
      && p == ParametersFrom(n, modulus, serverEphemeral, random, hash)
      && Congruent(FromLittleEndian(serverEphemeral),
                   Multiplier(n, modulusArray, hash) * FromLittleEndian(LittleEndian(Pow(GENERATOR, x) % modulus, n))
                   + Pow(GENERATOR, b), modulus)
    ensures
      var modulus, x := FromLittleEndian(modulusArray), FromLittleEndian(hashedPassword);
      var client := ProofsFrom(n, modulusArray, x, serverEphemeral, p, hash);
      var verifier := LittleEndian(Pow(GENERATOR, x) % modulus, n);
      var u := FromLittleEndian(hash(client.clientEphemeral + serverEphemeral));
      var clientPublic := FromLittleEndian(client.clientEphemeral);
      var host := LittleEndian(HostKey(modulus, FromLittleEndian(verifier), clientPublic, u, b), n);
      && client.sharedSession == host
      && client.clientProof == hash(client.clientEphemeral + serverEphemeral + host)
      && client.expectedServerProof == hash(client.clientEphemeral + client.clientProof + host)
      && FromLittleEndian(host) < modulus
      && FromLittleEndian(client.clientEphemeral) != 0
  {
    hide Pow, FromLittleEndian, LittleEndian, IsPrime, Congruent;
    var modulus, x := FromLittleEndian(modulusArray), FromLittleEndian(hashedPassword);
    var v := Pow(GENERATOR, x) % modulus;
    var k := Multiplier(n, modulusArray, hash);
    CodecRoundTrip(v, n);
    CodecRoundTrip(p.clientEphemeral, n);
    KeysAgree(modulus, k, x, b, p, FromLittleEndian(serverEphemeral));
    CodecRoundTrip(ClientKey(modulus, k, x, FromLittleEndian(serverEphemeral), p), n);
    GeneratorPowerNonZero(modulus, p.clientSecret);
  }

  /** For an odd prime modulus an attempt is unsafe only when its scrambling parameter is zero. */
  lemma SafeUnlessScramblingZero(n: nat, modulus: int, serverEphemeral: seq<byte>, random: seq<byte>, hash: Hash)
    requires IsPrime(modulus) && modulus > 2
    ensures var p := ParametersFrom(n, modulus, serverEphemeral, random, hash);
            IsSafe(p) <==> p.scramblingParam != 0
  {
    GeneratorPowerNonZero(modulus, FromLittleEndian(random));
  }
}
