/** What a client hears from the authentication loop, told from the octets of its requests (RFC 4252). */
module AuthReplies {
  import opened Bytes
  import opened Messages
  import opened Mpint
  import opened Options
  import opened ServerAuth

  // ---- The octets of a request ----

  /** Section 5 of RFC 4252: the octet 50, user name, service name, method name, and what the method adds. */
  function RequestOctets(req: Request): seq<byte>
  {
    [50] + EncodeString(req.user) + EncodeString(req.service) + EncodeString(req.name) + req.payload
  }

  /** Section 7: FALSE, algorithm name, public key. */
  function QueryOctets(algo: seq<byte>, key: seq<byte>): seq<byte>
  {
    [0] + EncodeString(algo) + EncodeString(key)
  }

  /** What is parsed as a string is one, with the rest behind it. */
  lemma StringIsEncoded(input: seq<byte>, s: seq<byte>, rest: seq<byte>)
    requires |input| < U32_MODULUS
    ensures ParseString(input) == Parsed(s, rest) <==> input == EncodeString(s) + rest
  {
    if ParseString(input) == Parsed(s, rest) {
      PutGetU32(input);
    }
    if input == EncodeString(s) + rest {
      ParseEncodeShort(s, rest);
    }
  }

  lemma FourValues(req: Request)
    ensures var vs := [VString(req.user), VString(req.service), VString(req.name), VRest(req.payload)];
            Marshal(AUTH_REQUEST, vs) == RequestOctets(req)
  {
    hide EncodeString, EncodeFields;
    var vs := [VString(req.user), VString(req.service), VString(req.name), VRest(req.payload)];
    FourFields(vs);
    Prepend([50], EncodeString(req.user), EncodeString(req.service), EncodeString(req.name), req.payload);
    assert AUTH_REQUEST.tags[..1] == [50];
  }

  lemma Prepend(a: seq<byte>, b: seq<byte>, c: seq<byte>, d: seq<byte>, e: seq<byte>)
    ensures a + (b + c + d + e) == a + b + c + d + e
  {
  }

  lemma RequestSurvives(req: Request)
    requires |RequestOctets(req)| < U32_MODULUS
    ensures ParseRequest(RequestOctets(req)) == Some(req)
  {
    var vs := [VString(req.user), VString(req.service), VString(req.name), VRest(req.payload)];
    FourValues(req);
    hide EncodeFields, EncodeField, EncodeString, AllFit, Unmarshal, RequestOctets;
    assert |EncodeFields(vs)| < U32_MODULUS;
    FitWhenSmall(vs);
    UnmarshalInvertsMarshal(AUTH_REQUEST, vs);
  }

  lemma TextIsEncoded(t: FieldType, data: seq<byte>)
    requires t.TString? || t.TRest?
    ensures var r := ParseField(t, data); r.Ok? ==> data == EncodeField(r.value.0) + r.value.1
  {
    var p := ParseString(data);
    if t.TString? && p.Parsed? {
      PutGetU32(data);
    }
  }

  lemma {:induction false} TextsAreEncoded(ts: seq<FieldType>, data: seq<byte>)
    requires forall i :: 0 <= i < |ts| ==> ts[i].TString? || ts[i].TRest?
    ensures var r := ParseFields(ts, data); r.Ok? ==> data == EncodeFields(r.value.0) + r.value.1
  {
    hide EncodeField, ParseField;
    if ts == [] {
      assert data == [] + data;
    } else {
      var first := ParseField(ts[0], data);
      TextIsEncoded(ts[0], data);
      if first.Ok? {
        var rest := ParseFields(ts[1..], first.value.1);
        TextsAreEncoded(ts[1..], first.value.1);
        if rest.Ok? {
          var vs := [first.value.0] + rest.value.0;
          assert vs[1..] == rest.value.0;
          assert data == EncodeField(vs[0]) + (EncodeFields(vs[1..]) + rest.value.1);
        }
      }
    }
  }

  lemma ParsedIsMarshalled(bytes: seq<byte>)
    ensures var r := Unmarshal(AUTH_REQUEST, bytes);
            r.Ok? ==> bytes == Marshal(AUTH_REQUEST, r.value) && AllTyped(AUTH_REQUEST.fields, r.value)
  {
    UnmarshalTyped(AUTH_REQUEST, bytes);
    hide EncodeFields, ParseFields, AllTyped;
    if Unmarshal(AUTH_REQUEST, bytes).Ok? {
      TextsAreEncoded(AUTH_REQUEST.fields, bytes[1..]);
      var vs := Unmarshal(AUTH_REQUEST, bytes).value;
      assert bytes[0] == 50 && bytes == [50] + bytes[1..];
      assert EncodeFields(vs) + [] == EncodeFields(vs);
    }
  }

  /** A packet is a request exactly when it has these octets. */
  lemma RequestIff(bytes: seq<byte>, req: Request)
    requires |bytes| < U32_MODULUS
    ensures ParseRequest(bytes) == Some(req) <==> bytes == RequestOctets(req)
  {
    hide RequestOctets, Unmarshal, Marshal, AllTyped;
    if bytes == RequestOctets(req) {
      RequestSurvives(req);
    }
    if ParseRequest(bytes) == Some(req) {
      ParsedIsMarshalled(bytes);
      var vs := Unmarshal(AUTH_REQUEST, bytes).value;
      FourTyped(vs);
      FourValues(req);
      assert vs == [VString(req.user), VString(req.service), VString(req.name), VRest(req.payload)];
    }
  }

  lemma FourTyped(vs: seq<Value>)
    requires AllTyped(AUTH_REQUEST.fields, vs)
    ensures |vs| == 4 && vs[0].VString? && vs[1].VString? && vs[2].VString? && vs[3].VRest?
  {
    var ts := AUTH_REQUEST.fields;
    assert Typed(ts[0], vs[0]) && Typed(ts[1], vs[1]) && Typed(ts[2], vs[2]) && Typed(ts[3], vs[3]);
  }

  // ---- What the method adds ----

  lemma KeyRequestIff(env: Env, payload: seq<byte>, isQuery: bool, algo: seq<byte>, key: seq<byte>, rest: seq<byte>)
    requires |payload| < U32_MODULUS
    ensures ParseKeyRequest(env, payload) == KeyRequest(isQuery, algo, key, rest) <==>
            && payload != [] && payload[1..] == EncodeString(algo) + (EncodeString(key) + rest)
            && (isQuery <==> payload[0] == 0) && IsAcceptableAlgo(algo) && env.keyParses(key)
  {
    hide ParseString, EncodeString, IsAcceptableAlgo;
    if payload != [] {
      var first := ParseString(payload[1..]);
      StringIsEncoded(payload[1..], algo, EncodeString(key) + rest);
      if first.Parsed? {
        StringIsEncoded(payload[1..], first.value, first.rest);
        RestSmaller(payload[1..], first.value, first.rest);
        StringIsEncoded(first.rest, key, rest);
      }
    }
  }

  lemma RestSmaller(input: seq<byte>, s: seq<byte>, rest: seq<byte>)
    requires input == EncodeString(s) + rest
    ensures |rest| < |input|
  {
  }

  /** A request of `user` for the connection service. */
  function By(user: seq<byte>, name: string, payload: seq<byte>): Request
  {
    Request(user, Ascii("ssh-connection"), Ascii(name), payload)
  }

  /** Does the key suit? */
  function Query(user: seq<byte>, algo: seq<byte>, key: seq<byte>): Request
  {
    By(user, "publickey", QueryOctets(algo, key))
  }

  /** The server would let this user in with this key: the callback accepts it, from an allowed address. */
  predicate Suits(env: Env, user: seq<byte>, key: seq<byte>)
  {
    var v := env.publicKey(user, key);
    v.err.None? && (v.perms.Permissions? && v.perms.sourceAddress != [] ==> env.addressAllowed(v.perms.sourceAddress))
  }

  /** Why not. */
  function Objection(env: Env, user: seq<byte>, key: seq<byte>): AuthError
  {
    var v := env.publicKey(user, key);
    if v.err.Some? then v.err.value else SourceAddress
  }

  lemma MethodNames()
    ensures MethodOf(Ascii("none")) == NoneMethod && MethodOf(Ascii("password")) == Password
    ensures MethodOf(Ascii("publickey")) == PublicKey && MethodOf(Ascii("keyboard-interactive")) == Interactive
  {
    assert |Ascii("none")| == 4 && |Ascii("password")| == 8 && |Ascii("publickey")| == 9 && |Ascii("keyboard-interactive")| == 20;
  }

  lemma JudgeIs(env: Env, user: seq<byte>, key: seq<byte>)
    ensures Judge(env, user, key)
         == Verdict(if Suits(env, user, key) then None else Some(Objection(env, user, key)), env.publicKey(user, key).perms)
  {
  }

  // ---- One turn ----

  /** The packet of a request. */
  function Sent(req: Request, dialogue: Verdict): Input
  {
    Packet(RequestOctets(req), dialogue)
  }

  lemma TurnOfRequest(env: Env, session: seq<byte>, req: Request, dialogue: Verdict)
    requires |RequestOctets(req)| < U32_MODULUS
    ensures TakeTurn(env, session, Sent(req, dialogue))
         == if req.service == Ascii("ssh-connection") then Attempt(env, session, req, dialogue) else Stop(UnknownService)
  {
    hide ParseRequest, Attempt, Ascii, RequestOctets;
    RequestSurvives(req);
  }

  /** Octets that are no request end the authentication. */
  lemma TurnOfOther(env: Env, session: seq<byte>, bytes: seq<byte>, dialogue: Verdict)
    requires |bytes| < U32_MODULUS && forall req: Request :: bytes != RequestOctets(req)
    ensures TakeTurn(env, session, Packet(bytes, dialogue)) == Stop(ParseFailure)
  {
    hide RequestOctets, Attempt, Ascii;
    if ParseRequest(bytes).Some? {
      RequestIff(bytes, ParseRequest(bytes).value);
    }
  }

  /** Every query is answered by what the server thinks of the key. */
  lemma QueryAnswered(env: Env, session: seq<byte>, user: seq<byte>, algo: seq<byte>, key: seq<byte>, dialogue: Verdict)
    requires |RequestOctets(Query(user, algo, key))| < U32_MODULUS
    ensures TakeTurn(env, session, Sent(Query(user, algo, key), dialogue))
         == if !env.hasPublicKey then Tried(PublicKey, user, Verdict(Some(NotConfigured), NoPermissions))
            else if !IsAcceptableAlgo(algo) then Tried(PublicKey, user, Verdict(Some(AlgoNotAccepted), NoPermissions))
            else if !env.keyParses(key) then Stop(UnparsableKey)
            else if Suits(env, user, key) then KeyOk(algo, key)
            else Tried(PublicKey, user, Verdict(Some(Objection(env, user, key)), NoPermissions))
  {
    var req := Query(user, algo, key);
    hide *;
    QueryIs(user, algo, key);
    TurnOfKey(env, session, user, QueryOctets(algo, key), dialogue);
    QueryPayload(algo, key);
    KeyRequestParsed(env, 0, algo, key, []);
    JudgeIs(env, user, key);
    DecideQuery(env, session, req, algo, key, Judge(env, user, key));
  }

  lemma QueryIs(user: seq<byte>, algo: seq<byte>, key: seq<byte>)
    ensures Query(user, algo, key) == By(user, "publickey", QueryOctets(algo, key)) && Query(user, algo, key).user == user
  {
  }

  lemma QueryPayload(algo: seq<byte>, key: seq<byte>)
    ensures QueryOctets(algo, key) == [0] + EncodeString(algo) + (EncodeString(key) + [])
  {
    hide EncodeString;
    assert EncodeString(key) + [] == EncodeString(key);
  }

  lemma TurnOfKey(env: Env, session: seq<byte>, user: seq<byte>, payload: seq<byte>, dialogue: Verdict)
    requires |RequestOctets(By(user, "publickey", payload))| < U32_MODULUS
    ensures |payload| < U32_MODULUS
    ensures var req := By(user, "publickey", payload);
            TakeTurn(env, session, Sent(req, dialogue))
            == if !env.hasPublicKey then Tried(PublicKey, user, Verdict(Some(NotConfigured), NoPermissions))
               else match ParseKeyRequest(env, payload)
                    case BadPayload => Stop(ParseFailure)
                    case BadAlgo => Tried(PublicKey, user, Verdict(Some(AlgoNotAccepted), NoPermissions))
                    case BadKey => Stop(UnparsableKey)
                    case k => Decide(env, session, req, k, Judge(env, user, k.key))
  {
    var req := By(user, "publickey", payload);
    TurnOfRequest(env, session, req, dialogue);
    MethodNames();
    hide TakeTurn, ParseKeyRequest, EncodeString, Ascii, MethodOf, Judge, Decide;
  }

  lemma DecideQuery(env: Env, session: seq<byte>, req: Request, algo: seq<byte>, key: seq<byte>, verdict: Verdict)
    ensures Decide(env, session, req, KeyRequest(true, algo, key, []), verdict)
         == if verdict.err.None? then KeyOk(algo, key) else Tried(PublicKey, req.user, Verdict(verdict.err, NoPermissions))
  {
  }

  lemma KeyRequestParsed(env: Env, first: byte, algo: seq<byte>, key: seq<byte>, rest: seq<byte>)
    requires |[first] + EncodeString(algo) + (EncodeString(key) + rest)| < U32_MODULUS
    ensures ParseKeyRequest(env, [first] + EncodeString(algo) + (EncodeString(key) + rest))
         == if !IsAcceptableAlgo(algo) then BadAlgo
            else if !env.keyParses(key) then BadKey
            else KeyRequest(first == 0, algo, key, rest)
  {
    hide EncodeString, ParseString, IsAcceptableAlgo;
    var payload := [first] + EncodeString(algo) + (EncodeString(key) + rest);
    assert payload[1..] == EncodeString(algo) + (EncodeString(key) + rest);
    StringIsEncoded(payload[1..], algo, EncodeString(key) + rest);
    StringIsEncoded(EncodeString(key) + rest, key, rest);
  }

  /** A key is said to be fine exactly when the packet is a query for it, of an acceptable algorithm, and it suits the
      user who asks. */
  ghost predicate AsksForFineKey(env: Env, bytes: seq<byte>, algo: seq<byte>, key: seq<byte>)
  {
    && env.hasPublicKey && IsAcceptableAlgo(algo) && env.keyParses(key)
    && exists user: seq<byte> :: bytes == RequestOctets(Query(user, algo, key)) && Suits(env, user, key)
  }

  lemma KeyOkIff(env: Env, session: seq<byte>, bytes: seq<byte>, dialogue: Verdict, algo: seq<byte>, key: seq<byte>)
    requires |bytes| < U32_MODULUS
    ensures TakeTurn(env, session, Packet(bytes, dialogue)) == KeyOk(algo, key) <==> AsksForFineKey(env, bytes, algo, key)
  {
    hide TakeTurn, RequestOctets, Query, IsAcceptableAlgo, Suits;
    if AsksForFineKey(env, bytes, algo, key) {
      var user: seq<byte> :| bytes == RequestOctets(Query(user, algo, key)) && Suits(env, user, key);
      QueryAnswered(env, session, user, algo, key, dialogue);
    }
    if TakeTurn(env, session, Packet(bytes, dialogue)) == KeyOk(algo, key) {
      var user := OnlyQueriesAreFine(env, session, bytes, dialogue, algo, key);
      QueryAnswered(env, session, user, algo, key, dialogue);
    }
  }

  lemma OnlyQueriesAreFine(env: Env, session: seq<byte>, bytes: seq<byte>, dialogue: Verdict, algo: seq<byte>, key: seq<byte>)
    returns (user: seq<byte>)
    requires |bytes| < U32_MODULUS && TakeTurn(env, session, Packet(bytes, dialogue)) == KeyOk(algo, key)
    ensures bytes == RequestOctets(Query(user, algo, key))
  {
    var req := AnsweredRequest(env, session, bytes, dialogue, algo, key);
    user := req.user;
    hide *;
    QueryParsed(env, req.payload, algo, key);
    QueryIs(user, algo, key);
    ByIs(req.user, req.payload);
  }

  lemma QueryParsed(env: Env, payload: seq<byte>, algo: seq<byte>, key: seq<byte>)
    requires |payload| < U32_MODULUS && ParseKeyRequest(env, payload) == KeyRequest(true, algo, key, [])
    ensures payload == QueryOctets(algo, key)
  {
    hide *;
    KeyRequestIff(env, payload, true, algo, key, []);
    QueryPayload(algo, key);
    assert payload == [0] + payload[1..];
    Regroup([0], EncodeString(algo), EncodeString(key) + []);
  }

  lemma Regroup(a: seq<byte>, b: seq<byte>, c: seq<byte>)
    ensures a + (b + c) == a + b + c
  {
  }

  lemma ByIs(user: seq<byte>, payload: seq<byte>)
    ensures By(user, "publickey", payload) == Request(user, Ascii("ssh-connection"), Ascii("publickey"), payload)
  {
  }

  lemma AnsweredRequest(env: Env, session: seq<byte>, bytes: seq<byte>, dialogue: Verdict, algo: seq<byte>, key: seq<byte>)
    returns (req: Request)
    requires |bytes| < U32_MODULUS && TakeTurn(env, session, Packet(bytes, dialogue)) == KeyOk(algo, key)
    ensures bytes == RequestOctets(req) && |req.payload| < U32_MODULUS
    ensures req.service == Ascii("ssh-connection") && req.name == Ascii("publickey")
    ensures ParseKeyRequest(env, req.payload) == KeyRequest(true, algo, key, [])
  {
    hide ParseRequest, Attempt, Ascii, RequestOctets, ParseKeyRequest;
    req := ParseRequest(bytes).value;
    RequestIff(bytes, req);
    PayloadSmaller(req);
    AnsweredAttempt(env, session, req, dialogue, algo, key);
  }

  lemma PayloadSmaller(req: Request)
    ensures |req.payload| < |RequestOctets(req)|
  {
  }

  lemma AnsweredAttempt(env: Env, session: seq<byte>, req: Request, dialogue: Verdict, algo: seq<byte>, key: seq<byte>)
    requires Attempt(env, session, req, dialogue) == KeyOk(algo, key)
    ensures req.name == Ascii("publickey") && ParseKeyRequest(env, req.payload) == KeyRequest(true, algo, key, [])
  {
    hide ParseKeyRequest, ParseSignature, ParsePassword, IsAcceptableAlgo, Judge, Ascii, SignedData;
  }

  // ---- Requests that may let the user in ----

  /** Section 7 of RFC 4252: TRUE, algorithm name, public key, signature. */
  function SignedOctets(algo: seq<byte>, key: seq<byte>, format: seq<byte>, blob: seq<byte>): seq<byte>
  {
    [1] + EncodeString(algo) + (EncodeString(key) + EncodeString(EncodeString(format) + EncodeString(blob)))
  }

  lemma SignatureParsed(format: seq<byte>, blob: seq<byte>)
    requires |EncodeString(EncodeString(format) + EncodeString(blob))| < U32_MODULUS
    ensures ParseSignature(EncodeString(EncodeString(format) + EncodeString(blob))) == Parsed(Signature(format, blob), [])
  {
    hide EncodeString, ParseString;
    var body := EncodeString(format) + EncodeString(blob);
    assert EncodeString(body) + [] == EncodeString(body) && EncodeString(blob) + [] == EncodeString(blob);
    EncodedLength(body);
    EncodedLength(format);
    StringIsEncoded(EncodeString(body), body, []);
    StringIsEncoded(body, format, EncodeString(blob));
    StringIsEncoded(EncodeString(blob), blob, []);
  }

  lemma EncodedLength(s: seq<byte>)
    ensures |EncodeString(s)| == 4 + |s|
  {
  }

  /** A signed request is settled by the verdict on user and key, provided the signature is good for these octets:
      session, 50, user, service, method, TRUE, algorithm, key. */
  lemma SignedAnswered(env: Env, session: seq<byte>, user: seq<byte>, algo: seq<byte>, key: seq<byte>,
                       format: seq<byte>, blob: seq<byte>, dialogue: Verdict)
    requires |RequestOctets(By(user, "publickey", SignedOctets(algo, key, format, blob)))| < U32_MODULUS
    requires env.hasPublicKey && IsAcceptableAlgo(algo) && env.keyParses(key)
    ensures var covered := EncodeString(session) + [50] + EncodeString(user) + EncodeString(Ascii("ssh-connection"))
                           + EncodeString(Ascii("publickey")) + [1] + EncodeString(algo) + EncodeString(key);
            TakeTurn(env, session, Sent(By(user, "publickey", SignedOctets(algo, key, format, blob)), dialogue))
            == if !IsAcceptableAlgo(format) then Tried(PublicKey, user, Verdict(Some(NotPassed), NoPermissions))
               else if !env.verify(key, covered, format, blob) then Stop(BadSignature)
               else Tried(PublicKey, user, Verdict(if Suits(env, user, key) then None else Some(Objection(env, user, key)),
                                                   env.publicKey(user, key).perms))
  {
    var payload, rest := SignedOctets(algo, key, format, blob), EncodeString(EncodeString(format) + EncodeString(blob));
    hide *;
    TurnOfKey(env, session, user, payload, dialogue);
    SignedIs(algo, key, format, blob);
    KeyRequestParsed(env, 1, algo, key, rest);
    SignatureParsed(format, blob);
    JudgeIs(env, user, key);
    DecideSigned(env, session, By(user, "publickey", payload), algo, key, rest, Signature(format, blob), Judge(env, user, key));
    Messages.SignedOctets(session, user, Ascii("ssh-connection"), Ascii("publickey"), algo, key);
    ByIs(user, payload);
  }

  lemma SignedIs(algo: seq<byte>, key: seq<byte>, format: seq<byte>, blob: seq<byte>)
    ensures var rest := EncodeString(EncodeString(format) + EncodeString(blob));
            SignedOctets(algo, key, format, blob) == [1] + EncodeString(algo) + (EncodeString(key) + rest)
            && |rest| <= |SignedOctets(algo, key, format, blob)|
  {
  }

  lemma DecideSigned(env: Env, session: seq<byte>, req: Request, algo: seq<byte>, key: seq<byte>, rest: seq<byte>,
                     sig: Signature, verdict: Verdict)
    requires ParseSignature(rest) == Parsed(sig, [])
    ensures Decide(env, session, req, KeyRequest(false, algo, key, rest), verdict)
         == if !IsAcceptableAlgo(sig.format) then Tried(PublicKey, req.user, Verdict(Some(NotPassed), NoPermissions))
            else if !env.verify(key, SignedData(session, req.user, req.service, req.name, algo, key), sig.format, sig.blob)
            then Stop(BadSignature)
            else Tried(PublicKey, req.user, verdict)
  {
    hide ParseSignature, IsAcceptableAlgo, SignedData;
  }

  /** Section 6.6 of RFC 4253: a signature is a string that holds its format and its blob and nothing else. */
  lemma SignatureIff(rest: seq<byte>, format: seq<byte>, blob: seq<byte>)
    requires |rest| < U32_MODULUS
    ensures ParseSignature(rest) == Parsed(Signature(format, blob), []) <==> rest == EncodeString(EncodeString(format) + EncodeString(blob))
  {
    if rest == EncodeString(EncodeString(format) + EncodeString(blob)) {
      SignatureParsed(format, blob);
    }
    if ParseSignature(rest) == Parsed(Signature(format, blob), []) {
      var body := ParseString(rest).value;
      var more := ParseString(body).rest;
      hide EncodeString, ParseString;
      StringIsEncoded(rest, body, []);
      EncodedLength(body);
      assert EncodeString(body) + [] == EncodeString(body);
      StringIsEncoded(body, format, more);
      RestSmaller(body, format, more);
      StringIsEncoded(more, blob, []);
      assert EncodeString(blob) + [] == EncodeString(blob);
    }
  }

  ghost predicate IsSignature(rest: seq<byte>)
  {
    exists format: seq<byte>, blob: seq<byte> :: rest == EncodeString(EncodeString(format) + EncodeString(blob))
  }

  /** What follows the algorithm's name: a key that parses is followed by nothing in a query, else by a signature. */
  ghost predicate KeyPart(env: Env, isQuery: bool, more: seq<byte>)
  {
    exists key: seq<byte>, rest: seq<byte> :: IsKeyPart(env, isQuery, more, key, rest)
  }

  ghost predicate IsKeyPart(env: Env, isQuery: bool, more: seq<byte>, key: seq<byte>, rest: seq<byte>)
  {
    more == EncodeString(key) + rest && (env.keyParses(key) ==> if isQuery then rest == [] else IsSignature(rest))
  }

  /** The payload of a public key request that is not malformed. Nothing behind an algorithm that is not accepted, or
      behind a key that does not parse, is looked at. */
  ghost predicate KeyPayload(env: Env, payload: seq<byte>)
  {
    exists first: byte, algo: seq<byte>, more: seq<byte> :: IsKeyPayload(env, payload, first, algo, more)
  }

  ghost predicate IsKeyPayload(env: Env, payload: seq<byte>, first: byte, algo: seq<byte>, more: seq<byte>)
  {
    payload == [first] + (EncodeString(algo) + more) && (IsAcceptableAlgo(algo) ==> KeyPart(env, first == 0, more))
  }

  lemma DecideFails(env: Env, session: seq<byte>, req: Request, k: KeyRequest, verdict: Verdict)
    requires k.KeyRequest? && |k.rest| < U32_MODULUS
    ensures Decide(env, session, req, k, verdict) == Stop(ParseFailure) <==> !(if k.isQuery then k.rest == [] else IsSignature(k.rest))
  {
    hide IsAcceptableAlgo, SignedData, EncodeString;
    var sig := ParseSignature(k.rest);
    if !k.isQuery {
      if sig.Parsed? && sig.rest == [] {
        SignatureIff(k.rest, sig.value.format, sig.value.blob);
      }
      if IsSignature(k.rest) {
        var format: seq<byte>, blob: seq<byte> :| k.rest == EncodeString(EncodeString(format) + EncodeString(blob));
        SignatureIff(k.rest, format, blob);
      }
      hide ParseSignature;
    }
  }

  lemma KeyPartIff(env: Env, isQuery: bool, more: seq<byte>)
    requires |more| < U32_MODULUS
    ensures var p := ParseString(more);
            KeyPart(env, isQuery, more) <==>
              p.Parsed? && (env.keyParses(p.value) ==> if isQuery then p.rest == [] else IsSignature(p.rest))
  {
    var p := ParseString(more);
    hide EncodeString, ParseString, IsSignature;
    if p.Parsed? {
      StringIsEncoded(more, p.value, p.rest);
      if env.keyParses(p.value) ==> if isQuery then p.rest == [] else IsSignature(p.rest) {
        assert IsKeyPart(env, isQuery, more, p.value, p.rest);
      }
    }
    if KeyPart(env, isQuery, more) {
      var key: seq<byte>, rest: seq<byte> :| IsKeyPart(env, isQuery, more, key, rest);
      StringIsEncoded(more, key, rest);
    }
  }

  lemma KeyPayloadIff(env: Env, payload: seq<byte>)
    requires |payload| < U32_MODULUS
    ensures var p := if payload == [] then Short else ParseString(payload[1..]);
            KeyPayload(env, payload) <==> p.Parsed? && (IsAcceptableAlgo(p.value) ==> KeyPart(env, payload[0] == 0, p.rest))
  {
    var p := if payload == [] then Short else ParseString(payload[1..]);
    hide EncodeString, ParseString, KeyPart, IsAcceptableAlgo;
    if p.Parsed? {
      StringIsEncoded(payload[1..], p.value, p.rest);
      assert payload == [payload[0]] + payload[1..];
      if IsAcceptableAlgo(p.value) ==> KeyPart(env, payload[0] == 0, p.rest) {
        assert IsKeyPayload(env, payload, payload[0], p.value, p.rest);
      }
    }
    if KeyPayload(env, payload) {
      var first: byte, algo: seq<byte>, more: seq<byte> :| IsKeyPayload(env, payload, first, algo, more);
      assert payload[1..] == EncodeString(algo) + more && payload[0] == first;
      StringIsEncoded(payload[1..], algo, more);
    }
  }

  /** A public key request ends the authentication as malformed exactly when its payload is. */
  lemma KeyMalformedIff(env: Env, session: seq<byte>, user: seq<byte>, payload: seq<byte>, dialogue: Verdict)
    requires |RequestOctets(By(user, "publickey", payload))| < U32_MODULUS && env.hasPublicKey
    ensures TakeTurn(env, session, Sent(By(user, "publickey", payload), dialogue)) == Stop(ParseFailure) <==> !KeyPayload(env, payload)
  {
    TurnOfKey(env, session, user, payload, dialogue);
    KeyPayloadIff(env, payload);
    hide TakeTurn, KeyPayload, KeyPart, RequestOctets, IsAcceptableAlgo, Judge, By, IsSignature, Decide, ParseString;
    if payload != [] {
      var p := ParseString(payload[1..]);
      if p.Parsed? {
        RestIsShorter(payload[1..]);
        KeyPartIff(env, payload[0] == 0, p.rest);
        var q := ParseString(p.rest);
        if q.Parsed? && IsAcceptableAlgo(p.value) && env.keyParses(q.value) {
          RestIsShorter(p.rest);
          var k := KeyRequest(payload[0] == 0, p.value, q.value, q.rest);
          DecideFails(env, session, By(user, "publickey", payload), k, Judge(env, user, q.value));
        }
      }
    }
  }

  lemma RestIsShorter(input: seq<byte>)
    ensures ParseString(input).Parsed? ==> |ParseString(input).rest| < |input|
  {
  }

  /** A password request carries FALSE and the password and nothing else; the callback's verdict is the answer. */
  lemma PasswordAnswered(env: Env, session: seq<byte>, user: seq<byte>, payload: seq<byte>, password: seq<byte>, dialogue: Verdict)
    requires |RequestOctets(By(user, "password", payload))| < U32_MODULUS
    ensures var turn := TakeTurn(env, session, Sent(By(user, "password", payload), dialogue));
            && (!env.hasPassword ==> turn == Tried(Password, user, Verdict(Some(NotConfigured), NoPermissions)))
            && (env.hasPassword && payload == [0] + EncodeString(password) ==> turn == Tried(Password, user, env.password(user, password)))
            && (env.hasPassword && (forall p: seq<byte> :: payload != [0] + EncodeString(p)) ==> turn == Stop(ParseFailure))
  {
    TurnOfRequest(env, session, By(user, "password", payload), dialogue);
    MethodNames();
    PasswordIff(payload, password);
    if ParsePassword(payload).Some? {
      PasswordIff(payload, ParsePassword(payload).value);
    }
    hide TakeTurn, ParsePassword, EncodeString, Ascii, MethodOf;
  }

  lemma PasswordIff(payload: seq<byte>, password: seq<byte>)
    requires |payload| < U32_MODULUS
    ensures ParsePassword(payload) == Some(password) <==> payload == [0] + EncodeString(password)
  {
    hide EncodeString, ParseString;
    if payload != [] {
      StringIsEncoded(payload[1..], password, []);
      assert EncodeString(password) + [] == EncodeString(password);
    }
  }

  /** The other methods. */
  lemma OthersAnswered(env: Env, session: seq<byte>, user: seq<byte>, name: seq<byte>, payload: seq<byte>, dialogue: Verdict)
    requires |RequestOctets(Request(user, Ascii("ssh-connection"), name, payload))| < U32_MODULUS
    ensures var turn := TakeTurn(env, session, Sent(Request(user, Ascii("ssh-connection"), name, payload), dialogue));
            && (name == Ascii("none") ==>
                  turn == Tried(NoneMethod, user, Verdict(if env.noClientAuth then None else Some(NotPassed), NoPermissions)))
            && (name == Ascii("keyboard-interactive") ==>
                  turn == Tried(Interactive, user, if env.hasInteractive then dialogue else Verdict(Some(NotConfigured), NoPermissions)))
            && (name !in {Ascii("none"), Ascii("password"), Ascii("keyboard-interactive"), Ascii("publickey")} ==>
                  turn == Tried(OtherMethod, user, Verdict(Some(UnknownMethod), NoPermissions)))
  {
    TurnOfRequest(env, session, Request(user, Ascii("ssh-connection"), name, payload), dialogue);
    MethodNames();
    hide TakeTurn, ParsePassword, ParseKeyRequest, EncodeString, Ascii;
  }

  // ---- Whole runs ----

  /** An algorithm, or its certificates. */
  predicate Named(algo: seq<byte>, plain: string)
  {
    algo == Ascii(plain) || algo == Ascii(plain + "-cert-v01@openssh.com")
  }

  lemma RsaAndDssNames()
    ensures "ssh-rsa" + "-cert-v01@openssh.com" == "ssh-rsa-cert-v01@openssh.com"
    ensures "ssh-dss" + "-cert-v01@openssh.com" == "ssh-dss-cert-v01@openssh.com"
  {
  }

  lemma P256Name()
    ensures "ecdsa-sha2-nistp256" + "-cert-v01@openssh.com" == "ecdsa-sha2-nistp256-cert-v01@openssh.com"
  {
  }

  lemma P384Name()
    ensures "ecdsa-sha2-nistp384" + "-cert-v01@openssh.com" == "ecdsa-sha2-nistp384-cert-v01@openssh.com"
  {
  }

  lemma P521Name()
    ensures "ecdsa-sha2-nistp521" + "-cert-v01@openssh.com" == "ecdsa-sha2-nistp521-cert-v01@openssh.com"
  {
  }

  /** The algorithms whose keys and signatures are looked at: six plain ones and, for all but Ed25519, certificates. */
  lemma AcceptableNames(algo: seq<byte>)
    ensures IsAcceptableAlgo(algo) <==>
            || algo == Ascii("ssh-ed25519") || Named(algo, "ssh-rsa") || Named(algo, "ssh-dss")
            || Named(algo, "ecdsa-sha2-nistp256") || Named(algo, "ecdsa-sha2-nistp384") || Named(algo, "ecdsa-sha2-nistp521")
  {
    hide Ascii;
    RsaAndDssNames();
    P256Name();
    P384Name();
    P521Name();
  }

  /** A failure names the methods that are configured, each once, passwords first and the dialogue last. */
  lemma MethodsOffered(env: Env)
    ensures forall m :: m in Methods(env) <==>
              (m == Password && env.hasPassword) || (m == PublicKey && env.hasPublicKey) || (m == Interactive && env.hasInteractive)
    ensures forall i, j :: 0 <= i < j < |Methods(env)| ==>
              Methods(env)[i] != Methods(env)[j] && Methods(env)[i] != Interactive && Methods(env)[j] != Password
  {
    var both := (if env.hasPublicKey then [PublicKey] else []) + if env.hasInteractive then [Interactive] else [];
    assert both == if env.hasPublicKey then (if env.hasInteractive then [PublicKey, Interactive] else [PublicKey])
                   else if env.hasInteractive then [Interactive] else [];
    assert Methods(env) == (if env.hasPassword then [Password] else []) + both;
  }

  /** Turns that go on are answered: that the key is fine, if that is what was asked and it is; else with a failure. */
  ghost predicate Answered(env: Env, input: Input, reply: Reply)
  {
    && input.Packet?
    && (forall algo, key :: reply == SendKeyOk(algo, key) <==> AsksForFineKey(env, input.bytes, algo, key))
    && (reply.SendKeyOk? || reply == SendFailure(Methods(env)))
  }

  /** What follows the first `n` answers. */
  ghost predicate Ends(env: Env, session: seq<byte>, inputs: seq<Input>, n: nat, r: Outcome, last: seq<Reply>)
  {
    match r
    case Waiting => n == |inputs| && last == []
    case TooManyFailures => n <= |inputs| && last == [SendDisconnect]
    case Aborted(_) => n < |inputs| && last == []
    case Authenticated(user, perms) => n < |inputs| && last == [SendSuccess] && Justified(env, session, inputs[n], user, perms)
  }

  predicate Small(inputs: seq<Input>)
  {
    forall i :: 0 <= i < |inputs| && inputs[i].Packet? ==> |inputs[i].bytes| < U32_MODULUS
  }

  ghost predicate Told(env: Env, session: seq<byte>, inputs: seq<Input>, n: nat, r: Outcome, replies: seq<Reply>)
  {
    && n <= |inputs| && n <= |replies|
    && (forall i :: 0 <= i < n ==> Answered(env, inputs[i], replies[i]))
    && Ends(env, session, inputs, n, r, replies[n..])
  }

  lemma TurnAnswered(env: Env, session: seq<byte>, input: Input)
    requires input.Packet? ==> |input.bytes| < U32_MODULUS
    ensures var t := TakeTurn(env, session, input);
            && (t.KeyOk? ==> Answered(env, input, SendKeyOk(t.algo, t.key)))
            && (t.Tried? ==> Answered(env, input, SendFailure(Methods(env))))
            && (t.Tried? && t.verdict.err.None? ==> Justified(env, session, input, t.user, t.verdict.perms))
  {
    hide AsksForFineKey, Methods, Justified, Attempt, ParseRequest, Ascii;
    var t := TakeTurn(env, session, input);
    if input.Packet? {
      forall algo, key
        ensures t == KeyOk(algo, key) <==> AsksForFineKey(env, input.bytes, algo, key)
      {
        KeyOkIff(env, session, input.bytes, input.dialogue, algo, key);
      }
    }
    if t.Tried? {
      SuccessIffJustified(env, session, input, t.user, t.verdict.perms);
    }
  }

  lemma ToldFirst(env: Env, session: seq<byte>, inputs: seq<Input>, n: nat, r: Outcome, first: Reply, replies: seq<Reply>)
    requires inputs != [] && Answered(env, inputs[0], first) && Told(env, session, inputs[1..], n, r, replies)
    ensures Told(env, session, inputs, n + 1, r, [first] + replies)
  {
    hide Answered, Justified;
    assert ([first] + replies)[n + 1..] == replies[n..];
  }

  lemma {:induction false} RepliesFrom(env: Env, session: seq<byte>, s: State, inputs: seq<Input>) returns (n: nat)
    requires Small(inputs)
    ensures var (end, r) := Run(env, session, s, inputs);
            s.replies <= end.replies && Told(env, session, inputs, n, r, end.replies[|s.replies|..])
    decreases |inputs|
  {
    hide TakeTurn, Methods, Penalised, Answered, Justified, Told;
    n := 0;
    var (end, r) := Run(env, session, s, inputs);
    if Exhausted(env, s.failures) {
      assert end.replies[|s.replies|..] == [SendDisconnect];
      ToldNow(env, session, inputs, r, [SendDisconnect]);
    } else if inputs == [] {
      assert end.replies[|s.replies|..] == [];
      ToldNow(env, session, inputs, r, []);
    } else {
      var t := TakeTurn(env, session, inputs[0]);
      TurnAnswered(env, session, inputs[0]);
      if t.KeyOk? || (t.Tried? && t.verdict.err.Some? && Methods(env) != []) {
        var reply := if t.KeyOk? then SendKeyOk(t.algo, t.key) else SendFailure(Methods(env));
        var next := if t.KeyOk? then s.(replies := s.replies + [reply])
                    else State(Penalised(s.failures, t.way), s.log + [(t.way, t.verdict.err)], s.replies + [reply]);
        n := RepliesFrom(env, session, next, inputs[1..]);
        assert end.replies[|s.replies|..] == [reply] + end.replies[|next.replies|..];
        ToldFirst(env, session, inputs, n, r, reply, end.replies[|next.replies|..]);
        n := n + 1;
      } else {
        var last := if r.Authenticated? then [SendSuccess] else [];
        assert end.replies[|s.replies|..] == last;
        ToldNow(env, session, inputs, r, last);
      }
    }
  }

  lemma ToldNow(env: Env, session: seq<byte>, inputs: seq<Input>, r: Outcome, last: seq<Reply>)
    requires Ends(env, session, inputs, 0, r, last)
    ensures Told(env, session, inputs, 0, r, last)
  {
    hide Ends;
    assert last[0..] == last;
  }

  /** In every run, every reply is the one the conditions on its request give: the first `n` requests are answered one
      by one, and then the run waits, gives up, stops without a word or lets the user in. */
  lemma RepliesExact(env: Env, session: seq<byte>, inputs: seq<Input>) returns (n: nat)
    requires Small(inputs)
    ensures var (s, r) := Run(env, session, START, inputs);
            Told(env, session, inputs, n, r, s.replies)
  {
    hide Run, Told;
    n := RepliesFrom(env, session, START, inputs);
    var (s, r) := Run(env, session, START, inputs);
    assert s.replies[0..] == s.replies;
  }
}
