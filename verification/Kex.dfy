/** Diffie-Hellman key exchange over a multiplicative group (section 8 of RFC 4253). */
module Kex {
  import opened Arithmetic
  import opened Bytes
  import opened Messages
  import opened Mpint

  // ---- Exponents ----

  function Pow(a: int, n: nat): int
  {
    if n == 0 then 1 else a * Pow(a, n - 1)
  }

  /** a^n mod p. */
  function Exp(a: int, n: nat, p: nat): (r: int)
    requires p > 0
    ensures 0 <= r < p
  {
    Pow(a, n) % p
  }

  lemma {:induction false} PowAdd(a: int, m: nat, n: nat)
    ensures Pow(a, m + n) == Pow(a, m) * Pow(a, n)
  {
    if m > 0 {
      PowAdd(a, m - 1, n);
      assert a * (Pow(a, m - 1) * Pow(a, n)) == (a * Pow(a, m - 1)) * Pow(a, n);
    }
  }

  lemma {:induction false} PowPow(a: int, m: nat, n: nat)
    ensures Pow(Pow(a, m), n) == Pow(a, m * n)
  {
    if n == 0 {
      assert m * n == 0;
    } else {
      PowPow(a, m, n - 1);
      assert m * n == m + m * (n - 1);
      PowAdd(a, m, m * (n - 1));
    }
  }

  lemma PowStep(a: int, n: nat)
    ensures Pow(a, n) == if n == 0 then 1 else a * Pow(a, n - 1)
  {
  }

  /** The base may be reduced before raising it. */
  lemma {:induction false} PowReduced(a: int, n: nat, p: nat)
    requires p > 0
    ensures Pow(a % p, n) % p == Pow(a, n) % p
  {
    hide Pow;
    var b := a % p;
    PowStep(a, n);
    PowStep(b, n);
    if n > 0 {
      PowReduced(a, n - 1, p);
      SmallMod(b, p);
      ProductReduced(b, Pow(b, n - 1), a, Pow(a, n - 1), p);
    }
  }

  lemma ProductReduced(a: int, b: int, c: int, d: int, p: nat)
    requires p > 0 && a % p == c % p && b % p == d % p
    ensures a * b % p == c * d % p
  {
    ModMul(a, b, p);
    ModMul(c, b, p);
    ModMul(b, c, p);
    ModMul(d, c, p);
    assert c * b == b * c && c * d == d * c;
  }

  lemma ExpExp(g: int, x: nat, y: nat, p: nat)
    requires p > 0
    ensures Exp(Exp(g, x, p), y, p) == Exp(g, x * y, p)
  {
    PowReduced(Pow(g, x), y, p);
    PowPow(g, x, y);
  }

  /** Both ends raise the other's public value to their own secret and meet. */
  lemma SecretsMeet(g: int, x: nat, y: nat, p: nat)
    requires p > 0
    ensures Exp(Exp(g, x, p), y, p) == Exp(Exp(g, y, p), x, p)
  {
    hide Exp;
    ExpExp(g, x, y, p);
    ExpExp(g, y, x, p);
    assert x * y == y * x;
  }

  // ---- The exchange ----

  datatype Group = Group(g: int, p: nat)

  datatype KexError = Malformed | OutOfBounds

  datatype Result<+T> = Success(value: T) | Failure(error: KexError)

  function DiffieHellman(group: Group, theirPublic: int, myPrivate: nat): Result<int>
    requires group.p > 0
  {
    if theirPublic <= 1 || theirPublic >= group.p - 1 then Failure(OutOfBounds)
    else Success(Exp(theirPublic, myPrivate, group.p))
  }

  const DH_INIT := Schema([30], [TInt])
  const DH_REPLY := Schema([31], [TString, TInt, TString])
  const TRANSCRIPT := Schema([], [TString, TString, TString, TString, TString, TInt, TInt, TInt])

  datatype Magics = Magics(clientVersion: seq<byte>, serverVersion: seq<byte>, clientKexInit: seq<byte>, serverKexInit: seq<byte>)

  function TranscriptValues(m: Magics, hostKey: seq<byte>, X: int, Y: int, k: int): seq<Value>
  {
    [VString(m.clientVersion), VString(m.serverVersion), VString(m.clientKexInit), VString(m.serverKexInit),
     VString(hostKey), VInt(X), VInt(Y), VInt(k)]
  }

  /** What the exchange hash covers. */
  function Transcript(m: Magics, hostKey: seq<byte>, X: int, Y: int, k: int): seq<byte>
  {
    Marshal(TRANSCRIPT, TranscriptValues(m, hostKey, X, Y, k))
  }

  datatype Keys = Keys(h: seq<byte>, k: seq<byte>, hostKey: seq<byte>, signature: seq<byte>)

  function ClientInit(group: Group, x: nat): seq<byte>
    requires group.p > 0
  {
    Marshal(DH_INIT, [VInt(Exp(group.g, x, group.p))])
  }

  /** The hash and the host key's signature are any functions. */
  function Server(group: Group, y: nat, m: Magics, hostKey: seq<byte>, hash: seq<byte> -> seq<byte>,
                  sign: seq<byte> -> seq<byte>, packet: seq<byte>): Result<(seq<byte>, Keys)>
    requires group.p > 0
  {
    UnmarshalTyped(DH_INIT, packet);
    match Unmarshal(DH_INIT, packet)
    case Err(_) => Failure(Malformed)
    case Ok(vs) =>
      assert Typed(DH_INIT.fields[0], vs[0]);
      var X := vs[0].number;
      var Y := Exp(group.g, y, group.p);
      match DiffieHellman(group, X, y)
      case Failure(e) => Failure(e)
      case Success(k) =>
        var h := hash(Transcript(m, hostKey, X, Y, k));
        var sig := sign(h);
        Success((Marshal(DH_REPLY, [VString(hostKey), VInt(Y), VString(sig)]), Keys(h, EncodeInt(k), hostKey, sig)))
  }

  function Client(group: Group, x: nat, m: Magics, hash: seq<byte> -> seq<byte>, packet: seq<byte>): Result<Keys>
    requires group.p > 0
  {
    UnmarshalTyped(DH_REPLY, packet);
    match Unmarshal(DH_REPLY, packet)
    case Err(_) => Failure(Malformed)
    case Ok(vs) =>
      assert Typed(DH_REPLY.fields[0], vs[0]) && Typed(DH_REPLY.fields[1], vs[1]) && Typed(DH_REPLY.fields[2], vs[2]);
      var X := Exp(group.g, x, group.p);
      match DiffieHellman(group, vs[1].number, x)
      case Failure(e) => Failure(e)
      case Success(k) =>
        Success(Keys(hash(Transcript(m, vs[0].text, X, vs[1].number, k)), EncodeInt(k), vs[0].text, vs[2].text))
  }

  predicate InBounds(group: Group, v: int)
  {
    1 < v < group.p - 1
  }

  /** Section 8 of RFC 4253: V_C, V_S, I_C, I_S, K_S, e, f, K. */
  lemma TranscriptOctets(m: Magics, hostKey: seq<byte>, X: int, Y: int, k: int)
    ensures Transcript(m, hostKey, X, Y, k)
         == EncodeString(m.clientVersion) + EncodeString(m.serverVersion)
            + EncodeString(m.clientKexInit) + EncodeString(m.serverKexInit)
            + EncodeString(hostKey) + EncodeInt(X) + EncodeInt(Y) + EncodeInt(k)
  {
    hide EncodeString, EncodeInt, EncodeFields;
    EightFields(TranscriptValues(m, hostKey, X, Y, k));
  }

  /** The octets of the two messages: 30 and e; 31, the host key, f and the signature. */
  lemma MessageOctets(X: int, hostKey: seq<byte>, Y: int, sig: seq<byte>)
    ensures Marshal(DH_INIT, [VInt(X)]) == [30] + EncodeInt(X)
    ensures Marshal(DH_REPLY, [VString(hostKey), VInt(Y), VString(sig)])
         == [31] + EncodeString(hostKey) + EncodeInt(Y) + EncodeString(sig)
  {
    hide EncodeString, EncodeInt;
    var vs := [VString(hostKey), VInt(Y), VString(sig)];
    assert vs[1..] == [VInt(Y), VString(sig)] && vs[1..][1..] == [VString(sig)] && vs[1..][1..][1..] == [];
    assert EncodeFields(vs[1..][1..]) == EncodeString(sig) + [];
    assert EncodeFields(vs[1..]) == EncodeInt(Y) + EncodeFields(vs[1..][1..]);
    assert [31] + (EncodeString(hostKey) + (EncodeInt(Y) + EncodeString(sig)))
        == [31] + EncodeString(hostKey) + EncodeInt(Y) + EncodeString(sig);
    assert [VInt(X)][1..] == [];
    assert EncodeFields([VInt(X)]) == EncodeInt(X) + [];
  }

  lemma InitSurvives(X: int)
    requires |Marshal(DH_INIT, [VInt(X)])| < U32_MODULUS
    ensures Unmarshal(DH_INIT, Marshal(DH_INIT, [VInt(X)])) == Ok([VInt(X)])
  {
    hide EncodeFields, Unmarshal, AllFit;
    FitWhenSmall([VInt(X)]);
    UnmarshalInvertsMarshal(DH_INIT, [VInt(X)]);
  }

  lemma ReplySurvives(hostKey: seq<byte>, Y: int, sig: seq<byte>)
    requires |Marshal(DH_REPLY, [VString(hostKey), VInt(Y), VString(sig)])| < U32_MODULUS
    ensures Unmarshal(DH_REPLY, Marshal(DH_REPLY, [VString(hostKey), VInt(Y), VString(sig)]))
         == Ok([VString(hostKey), VInt(Y), VString(sig)])
  {
    hide EncodeFields, Unmarshal, AllFit;
    FitWhenSmall([VString(hostKey), VInt(Y), VString(sig)]);
    UnmarshalInvertsMarshal(DH_REPLY, [VString(hostKey), VInt(Y), VString(sig)]);
  }

  /** The server accepts exactly when the client's value is in bounds, the client then exactly when the
      server's is, and the two hold the same keys: the secret is g^(xy) mod p, the hash is that of the versions, the offers,
      the host key, the public values g^x and g^y and the secret in this order, and the signature is over the hash. */
  lemma EndsAgree(group: Group, x: nat, y: nat, m: Magics, hostKey: seq<byte>, hash: seq<byte> -> seq<byte>,
                  sign: seq<byte> -> seq<byte>)
    requires group.p > 0 && |ClientInit(group, x)| < U32_MODULUS
    ensures var X, Y := Exp(group.g, x, group.p), Exp(group.g, y, group.p);
            var s := Server(group, y, m, hostKey, hash, sign, ClientInit(group, x));
            var k := EncodeInt(Exp(group.g, x * y, group.p));
            var h := hash(EncodeString(m.clientVersion) + EncodeString(m.serverVersion)
                          + EncodeString(m.clientKexInit) + EncodeString(m.serverKexInit)
                          + EncodeString(hostKey) + EncodeInt(X) + EncodeInt(Y) + k);
            && (s.Success? <==> InBounds(group, X)) && (s.Failure? ==> s.error == OutOfBounds)
            && ClientInit(group, x) == [30] + EncodeInt(X)
            && (s.Success? ==> s.value.1 == Keys(h, k, hostKey, sign(h)))
            && (s.Success? ==> s.value.0 == [31] + EncodeString(hostKey) + EncodeInt(Y) + EncodeString(sign(h)))
            && (s.Success? && |s.value.0| < U32_MODULUS ==>
                  var c := Client(group, x, m, hash, s.value.0);
                  && (c.Success? <==> InBounds(group, Y)) && (c.Failure? ==> c.error == OutOfBounds)
                  && (c.Success? ==> c.value == s.value.1))
  {
    hide Exp, Marshal, Unmarshal, EncodeInt, EncodeString, Transcript;
    var X, Y := Exp(group.g, x, group.p), Exp(group.g, y, group.p);
    InitSurvives(X);
    MessageOctets(X, [], 0, []);
    if InBounds(group, X) {
      var k := Exp(X, y, group.p);
      var sig := sign(hash(Transcript(m, hostKey, X, Y, k)));
      if |Marshal(DH_REPLY, [VString(hostKey), VInt(Y), VString(sig)])| < U32_MODULUS {
        ReplySurvives(hostKey, Y, sig);
      }
      SecretsMeet(group.g, x, y, group.p);
      ExpExp(group.g, x, y, group.p);
      TranscriptOctets(m, hostKey, X, Y, k);
      MessageOctets(X, hostKey, Y, sig);
    }
  }

  /** A message that does not parse is refused as malformed, and no other is. */
  lemma MalformedIff(group: Group, x: nat, m: Magics, hostKey: seq<byte>, hash: seq<byte> -> seq<byte>,
                     sign: seq<byte> -> seq<byte>, packet: seq<byte>)
    requires group.p > 0
    ensures Server(group, x, m, hostKey, hash, sign, packet) == Failure(Malformed) <==> Unmarshal(DH_INIT, packet).Err?
    ensures Client(group, x, m, hash, packet) == Failure(Malformed) <==> Unmarshal(DH_REPLY, packet).Err?
  {
    hide Exp, Unmarshal, Transcript, Marshal, EncodeInt;
  }

  lemma TranscriptSurvives(m: Magics, hostKey: seq<byte>, X: int, Y: int, k: int)
    requires |Transcript(m, hostKey, X, Y, k)| < U32_MODULUS
    ensures AllTyped(TRANSCRIPT.fields, TranscriptValues(m, hostKey, X, Y, k))
    ensures Survives(TRANSCRIPT, TranscriptValues(m, hostKey, X, Y, k))
  {
    var vs := TranscriptValues(m, hostKey, X, Y, k);
    assert |EncodeFields(vs)| >= |EncodeField(vs[0])| >= 4;
    FitWhenSmall(vs);
    hide EncodeField, EncodeFields, EncodeString, NamesOk, AllFit;
  }

  /** Ends that hash the same octets saw the same versions, offers, host key, public values and secret. */
  lemma TranscriptBinds(m: Magics, hostKey: seq<byte>, X: int, Y: int, k: int,
                        m': Magics, hostKey': seq<byte>, X': int, Y': int, k': int)
    requires |Transcript(m, hostKey, X, Y, k)| < U32_MODULUS
    ensures Transcript(m, hostKey, X, Y, k) == Transcript(m', hostKey', X', Y', k')
            <==> (m, hostKey, X, Y, k) == (m', hostKey', X', Y', k')
  {
    hide Marshal, Survives, AllTyped;
    var vs, ws := TranscriptValues(m, hostKey, X, Y, k), TranscriptValues(m', hostKey', X', Y', k');
    if Marshal(TRANSCRIPT, vs) == Marshal(TRANSCRIPT, ws) {
      TranscriptSurvives(m, hostKey, X, Y, k);
      TranscriptSurvives(m', hostKey', X', Y', k');
      MarshalInjective(TRANSCRIPT, vs, ws);
      assert vs[0] == ws[0] && vs[1] == ws[1] && vs[2] == ws[2] && vs[3] == ws[3] && vs[4] == ws[4]
          && vs[5] == ws[5] && vs[6] == ws[6] && vs[7] == ws[7];
    }
  }
}
