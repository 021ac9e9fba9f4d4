/** User authentication on the server: the request loop and its cache of public key verdicts. */
module ServerAuth {
  import opened Bytes
  import opened Messages
  import opened Mpint
  import opened Options

  // ---- What the server is configured with ----

  datatype AuthError = NotPassed | NotConfigured | CallbackError(code: nat) | SourceAddress | AlgoNotAccepted | UnknownMethod

  /** `sourceAddress` is the critical option of that name, empty when absent. */
  datatype Permissions = NoPermissions | Permissions(sourceAddress: seq<byte>, others: seq<byte>)

  datatype Verdict = Verdict(err: Option<AuthError>, perms: Permissions)

  /** The callbacks, the address check and signature verification are any functions. */
  datatype Env = Env(noClientAuth: bool, maxTries: int,
                     hasPassword: bool, password: (seq<byte>, seq<byte>) -> Verdict,
                     hasInteractive: bool,
                     hasPublicKey: bool, publicKey: (seq<byte>, seq<byte>) -> Verdict,
                     addressAllowed: seq<byte> -> bool,
                     keyParses: seq<byte> -> bool,
                     verify: (seq<byte>, seq<byte>, seq<byte>, seq<byte>) -> bool)

  predicate IsAcceptableAlgo(algo: seq<byte>)
  {
    || algo == Ascii("ssh-rsa") || algo == Ascii("ssh-dss") || algo == Ascii("ssh-ed25519")
    || algo == Ascii("ecdsa-sha2-nistp256") || algo == Ascii("ecdsa-sha2-nistp384") || algo == Ascii("ecdsa-sha2-nistp521")
    || algo == Ascii("ssh-rsa-cert-v01@openssh.com") || algo == Ascii("ssh-dss-cert-v01@openssh.com")
    || algo == Ascii("ecdsa-sha2-nistp256-cert-v01@openssh.com") || algo == Ascii("ecdsa-sha2-nistp384-cert-v01@openssh.com")
    || algo == Ascii("ecdsa-sha2-nistp521-cert-v01@openssh.com")
  }

  /** What the callback and the source-address restriction say together. */
  function Judge(env: Env, user: seq<byte>, key: seq<byte>): Verdict
  {
    var v := env.publicKey(user, key);
    if v.err.None? && v.perms.Permissions? && v.perms.sourceAddress != [] && !env.addressAllowed(v.perms.sourceAddress)
    then Verdict(Some(SourceAddress), v.perms)
    else v
  }

  // ---- Requests ----

  datatype Method = NoneMethod | Password | Interactive | PublicKey | OtherMethod

  function MethodOf(name: seq<byte>): Method
  {
    if name == Ascii("none") then NoneMethod
    else if name == Ascii("password") then Password
    else if name == Ascii("keyboard-interactive") then Interactive
    else if name == Ascii("publickey") then PublicKey
    else OtherMethod
  }

  datatype Request = Request(user: seq<byte>, service: seq<byte>, name: seq<byte>, payload: seq<byte>)

  const AUTH_REQUEST := Schema([USERAUTH_REQUEST], [TString, TString, TString, TRest])

  function ParseRequest(packet: seq<byte>): Option<Request>
  {
    UnmarshalTyped(AUTH_REQUEST, packet);
    match Unmarshal(AUTH_REQUEST, packet)
    case Err(_) => None
    case Ok(vs) =>
      var ts := AUTH_REQUEST.fields;
      assert Typed(ts[0], vs[0]) && Typed(ts[1], vs[1]) && Typed(ts[2], vs[2]) && Typed(ts[3], vs[3]);
      Some(Request(vs[0].text, vs[1].text, vs[2].text, vs[3].remainder))
  }

  datatype Signature = Signature(format: seq<byte>, blob: seq<byte>)

  function ParseSignature(payload: seq<byte>): Parsed<Signature>
  {
    match ParseString(payload)
    case Short => Short
    case Parsed(body, rest) =>
      match ParseString(body)
      case Short => Short
      case Parsed(format, more) =>
        match ParseString(more)
        case Short => Short
        case Parsed(blob, trailing) => if trailing == [] then Parsed(Signature(format, blob), rest) else Short
  }

  function ParsePassword(payload: seq<byte>): Option<seq<byte>>
  {
    if payload == [] || payload[0] != 0 then None
    else
      match ParseString(payload[1..])
      case Short => None
      case Parsed(password, rest) => if rest == [] then Some(password) else None
  }

  datatype KeyRequest = BadPayload | BadAlgo | BadKey | KeyRequest(isQuery: bool, algo: seq<byte>, key: seq<byte>, rest: seq<byte>)

  function ParseKeyRequest(env: Env, payload: seq<byte>): KeyRequest
  {
    if payload == [] then BadPayload
    else
      match ParseString(payload[1..])
      case Short => BadPayload
      case Parsed(algo, more) =>
        if !IsAcceptableAlgo(algo) then BadAlgo
        else
          match ParseString(more)
          case Short => BadPayload
          case Parsed(key, rest) => if env.keyParses(key) then KeyRequest(payload[0] == 0, algo, key, rest) else BadKey
  }

  // ---- One turn of the loop ----

  /** What arrives: a packet, with what the keyboard-interactive dialogue would conclude if it is held. */
  datatype Input = Eof | ReadError | Packet(bytes: seq<byte>, dialogue: Verdict)

  datatype Abort = NoMoreInput | InputError | ParseFailure | UnknownService | UnparsableKey | BadSignature | NoMethods

  datatype Turn =
    | Stop(why: Abort)
    | KeyOk(algo: seq<byte>, key: seq<byte>)
    | Tried(way: Method, user: seq<byte>, verdict: Verdict)

  /** The rest of a public key attempt once the verdict on user and key is known. */
  function Decide(env: Env, session: seq<byte>, req: Request, k: KeyRequest, verdict: Verdict): Turn
    requires k.KeyRequest?
  {
    if k.isQuery then
      if k.rest != [] then Stop(ParseFailure)
      else if verdict.err.None? then KeyOk(k.algo, k.key)
      else Tried(PublicKey, req.user, Verdict(verdict.err, NoPermissions))
    else
      match ParseSignature(k.rest)
      case Short => Stop(ParseFailure)
      case Parsed(sig, left) =>
        if left != [] then Stop(ParseFailure)
        else if !IsAcceptableAlgo(sig.format) then Tried(PublicKey, req.user, Verdict(Some(NotPassed), NoPermissions))
        else if !env.verify(k.key, SignedData(session, req.user, req.service, req.name, k.algo, k.key), sig.format, sig.blob)
        then Stop(BadSignature)
        else Tried(PublicKey, req.user, verdict)
  }

  function Attempt(env: Env, session: seq<byte>, req: Request, dialogue: Verdict): Turn
  {
    match MethodOf(req.name)
    case NoneMethod => Tried(NoneMethod, req.user, Verdict(if env.noClientAuth then None else Some(NotPassed), NoPermissions))
    case Password =>
      if !env.hasPassword then Tried(Password, req.user, Verdict(Some(NotConfigured), NoPermissions))
      else
        (match ParsePassword(req.payload)
         case None => Stop(ParseFailure)
         case Some(password) => Tried(Password, req.user, env.password(req.user, password)))
    case Interactive =>
      Tried(Interactive, req.user, if env.hasInteractive then dialogue else Verdict(Some(NotConfigured), NoPermissions))
    case PublicKey =>
      if !env.hasPublicKey then Tried(PublicKey, req.user, Verdict(Some(NotConfigured), NoPermissions))
      else
        (match ParseKeyRequest(env, req.payload)
         case BadPayload => Stop(ParseFailure)
         case BadAlgo => Tried(PublicKey, req.user, Verdict(Some(AlgoNotAccepted), NoPermissions))
         case BadKey => Stop(UnparsableKey)
         case k => Decide(env, session, req, k, Judge(env, req.user, k.key)))
    case OtherMethod => Tried(OtherMethod, req.user, Verdict(Some(UnknownMethod), NoPermissions))
  }

  function TakeTurn(env: Env, session: seq<byte>, input: Input): Turn
  {
    match input
    case Eof => Stop(NoMoreInput)
    case ReadError => Stop(InputError)
    case Packet(bytes, dialogue) =>
      match ParseRequest(bytes)
      case None => Stop(ParseFailure)
      case Some(req) =>
        if req.service != Ascii("ssh-connection") then Stop(UnknownService)
        else Attempt(env, session, req, dialogue)
  }

  // ---- The loop, without a cache ----

  datatype Reply = SendKeyOk(algo: seq<byte>, key: seq<byte>) | SendFailure(methods: seq<Method>) | SendSuccess | SendDisconnect

  /** The log is what the log callback hears: one entry per attempt. */
  datatype State = State(failures: int, log: seq<(Method, Option<AuthError>)>, replies: seq<Reply>)

  const START := State(0, [], [])

  datatype Outcome = Waiting | TooManyFailures | Aborted(why: Abort) | Authenticated(user: seq<byte>, perms: Permissions)

  function Methods(env: Env): seq<Method>
  {
    (if env.hasPassword then [Password] else []) + (if env.hasPublicKey then [PublicKey] else [])
    + (if env.hasInteractive then [Interactive] else [])
  }

  predicate Exhausted(env: Env, failures: int)
  {
    failures >= env.maxTries && env.maxTries > 0
  }

  /** A refused attempt: an initial "none" costs nothing. */
  function Penalised(failures: int, way: Method): int
  {
    (if way == NoneMethod && failures == 0 then failures - 1 else failures) + 1
  }

  /** Everything the server does with a sequence of inputs, asking the callback every time. */
  function Run(env: Env, session: seq<byte>, s: State, inputs: seq<Input>): (State, Outcome)
    decreases |inputs|
  {
    if Exhausted(env, s.failures) then (s.(replies := s.replies + [SendDisconnect]), TooManyFailures)
    else if inputs == [] then (s, Waiting)
    else
      match TakeTurn(env, session, inputs[0])
      case Stop(why) => (s, Aborted(why))
      case KeyOk(algo, key) => Run(env, session, s.(replies := s.replies + [SendKeyOk(algo, key)]), inputs[1..])
      case Tried(way, user, verdict) =>
        var log := s.log + [(way, verdict.err)];
        if verdict.err.None? then
          (State(if way == NoneMethod && s.failures == 0 then s.failures - 1 else s.failures, log, s.replies + [SendSuccess]),
           Authenticated(user, verdict.perms))
        else
          var failures := Penalised(s.failures, way);
          if Methods(env) == [] then (State(failures, log, s.replies), Aborted(NoMethods))
          else Run(env, session, State(failures, log, s.replies + [SendFailure(Methods(env))]), inputs[1..])
  }

  // ---- Success is earned ----

  /** What must hold for a request to let `user` in with `perms`. */
  ghost predicate Justified(env: Env, session: seq<byte>, input: Input, user: seq<byte>, perms: Permissions)
  {
    && input.Packet?
    && var parsed := ParseRequest(input.bytes);
    && parsed.Some?
    && var req := parsed.value;
    && req.user == user && req.service == Ascii("ssh-connection")
    && match MethodOf(req.name)
       case NoneMethod => env.noClientAuth && perms == NoPermissions
       case Password => env.hasPassword && ParsePassword(req.payload).Some?
                        && env.password(user, ParsePassword(req.payload).value) == Verdict(None, perms)
       case Interactive => env.hasInteractive && input.dialogue == Verdict(None, perms)
       case PublicKey => env.hasPublicKey && KeyJustified(env, session, req, perms)
       case OtherMethod => false
  }

  /** The callback accepted this user and key, from an allowed address, and the key's signature covers
      this session, user, service, method, algorithm and key. */
  ghost predicate KeyJustified(env: Env, session: seq<byte>, req: Request, perms: Permissions)
  {
    var k := ParseKeyRequest(env, req.payload);
    && k.KeyRequest? && !k.isQuery
    && env.publicKey(req.user, k.key) == Verdict(None, perms)
    && (perms.Permissions? && perms.sourceAddress != [] ==> env.addressAllowed(perms.sourceAddress))
    && var sig := ParseSignature(k.rest);
    && sig.Parsed? && sig.rest == [] && IsAcceptableAlgo(sig.value.format)
    && env.verify(k.key, SignedData(session, req.user, req.service, req.name, k.algo, k.key), sig.value.format, sig.value.blob)
  }

  lemma SuccessIffJustified(env: Env, session: seq<byte>, input: Input, user: seq<byte>, perms: Permissions)
    ensures Justified(env, session, input, user, perms)
        <==> TakeTurn(env, session, input).Tried? && TakeTurn(env, session, input).user == user
             && TakeTurn(env, session, input).verdict == Verdict(None, perms)
  {
    hide ParseRequest, MethodOf, ParsePassword, ParseSignature, ParseKeyRequest, IsAcceptableAlgo, SignedData, Ascii;
  }

  // ---- Counting failures ----

  function LeadingNones(log: seq<(Method, Option<AuthError>)>): (n: nat)
    ensures n <= |log|
  {
    if log == [] || log[0].0 != NoneMethod then 0 else 1 + LeadingNones(log[1..])
  }

  lemma {:induction false} LeadingNonesAppend(log: seq<(Method, Option<AuthError>)>, entry: (Method, Option<AuthError>))
    ensures LeadingNones(log + [entry])
         == LeadingNones(log) + if LeadingNones(log) == |log| && entry.0 == NoneMethod then 1 else 0
  {
    if log == [] {
      assert log + [entry] == [entry];
    } else {
      assert (log + [entry])[1..] == log[1..] + [entry];
      LeadingNonesAppend(log[1..], entry);
    }
  }

  /** At the head of the loop: one failure for every attempt after the leading "none" attempts. */
  predicate Counted(env: Env, s: State)
  {
    && s.failures == |s.log| - LeadingNones(s.log)
    && (env.maxTries > 0 ==> s.failures <= env.maxTries)
  }

  lemma CountedStep(env: Env, s: State, way: Method, err: Option<AuthError>, replies: seq<Reply>)
    requires Counted(env, s) && !Exhausted(env, s.failures)
    ensures Counted(env, State(Penalised(s.failures, way), s.log + [(way, err)], replies))
  {
    LeadingNonesAppend(s.log, (way, err));
  }

  /** Wherever the server waits for the next request the count is exact and below the limit, and it gives
      up exactly on reaching the limit. */
  lemma {:induction false} FailuresBounded(env: Env, session: seq<byte>, s: State, inputs: seq<Input>)
    requires Counted(env, s)
    ensures var (end, r) := Run(env, session, s, inputs);
            && (r.Waiting? || r.TooManyFailures? ==> Counted(env, end) && 0 <= end.failures)
            && (r.Waiting? && env.maxTries > 0 ==> end.failures < env.maxTries)
            && (r.TooManyFailures? ==> env.maxTries > 0 && end.failures == env.maxTries)
    decreases |inputs|
  {
    hide TakeTurn, Methods, Penalised, LeadingNones;
    if !Exhausted(env, s.failures) && inputs != [] {
      var t := TakeTurn(env, session, inputs[0]);
      if t.KeyOk? {
        FailuresBounded(env, session, s.(replies := s.replies + [SendKeyOk(t.algo, t.key)]), inputs[1..]);
      } else if t.Tried? && t.verdict.err.Some? {
        var replies := s.replies + [SendFailure(Methods(env))];
        CountedStep(env, s, t.way, t.verdict.err, replies);
        FailuresBounded(env, session, State(Penalised(s.failures, t.way), s.log + [(t.way, t.verdict.err)], replies), inputs[1..]);
      }
    }
  }

  // ---- Exactly who gets in ----

  /** A run over some inputs is one over the first of them, continued if that is still waiting. */
  lemma {:induction false} RunSplit(env: Env, session: seq<byte>, s: State, a: seq<Input>, b: seq<Input>)
    ensures var (mid, r) := Run(env, session, s, a);
            Run(env, session, s, a + b) == if r.Waiting? then Run(env, session, mid, b) else (mid, r)
    decreases |a|
  {
    hide TakeTurn, Methods, Penalised;
    if a == [] {
      assert a + b == b;
    } else if !Exhausted(env, s.failures) {
      assert (a + b)[0] == a[0] && (a + b)[1..] == a[1..] + b;
      var t := TakeTurn(env, session, a[0]);
      if t.KeyOk? {
        RunSplit(env, session, s.(replies := s.replies + [SendKeyOk(t.algo, t.key)]), a[1..], b);
      } else if t.Tried? && t.verdict.err.Some? {
        RunSplit(env, session, State(Penalised(s.failures, t.way), s.log + [(t.way, t.verdict.err)],
                                     s.replies + [SendFailure(Methods(env))]), a[1..], b);
      }
    }
  }

  /** The turn ends neither the loop nor the authentication. */
  predicate Passes(env: Env, t: Turn)
  {
    t.KeyOk? || (t.Tried? && t.verdict.err.Some? && Methods(env) != [])
  }

  /** The refused attempts, from the inputs alone. */
  function RefusedIn(env: Env, session: seq<byte>, inputs: seq<Input>): seq<(Method, Option<AuthError>)>
  {
    if inputs == [] then []
    else
      var t := TakeTurn(env, session, inputs[|inputs| - 1]);
      RefusedIn(env, session, inputs[..|inputs| - 1]) + if t.Tried? && t.verdict.err.Some? then [(t.way, t.verdict.err)] else []
  }

  function CountOf(log: seq<(Method, Option<AuthError>)>): nat
  {
    |log| - LeadingNones(log)
  }

  /** Every turn so far was answered or refused, and the refusals never reached the limit. */
  predicate StillOpen(env: Env, session: seq<byte>, inputs: seq<Input>)
  {
    && !Exhausted(env, CountOf(RefusedIn(env, session, inputs)))
    && (inputs == [] ||
        (StillOpen(env, session, inputs[..|inputs| - 1]) && Passes(env, TakeTurn(env, session, inputs[|inputs| - 1]))))
  }

  lemma {:induction false} WaitingIffOpen(env: Env, session: seq<byte>, inputs: seq<Input>)
    ensures var (s, r) := Run(env, session, START, inputs);
            && (r.Waiting? <==> StillOpen(env, session, inputs))
            && (r.Waiting? ==> s.log == RefusedIn(env, session, inputs) && s.failures == CountOf(s.log))
    decreases |inputs|
  {
    hide TakeTurn, Methods, LeadingNones;
    if inputs == [] {
      NoNones();
    } else {
      var init, last := inputs[..|inputs| - 1], inputs[|inputs| - 1];
      WaitingIffOpen(env, session, init);
      RunSplit(env, session, START, init, [last]);
      assert init + [last] == inputs;
      if Run(env, session, START, init).1.Waiting? {
        OneMore(env, session, Run(env, session, START, init).0, last);
      }
    }
  }

  lemma NoNones()
    ensures LeadingNones([]) == 0
  {
  }

  lemma OneMore(env: Env, session: seq<byte>, s: State, input: Input)
    requires !Exhausted(env, s.failures) && s.failures == CountOf(s.log)
    ensures var t := TakeTurn(env, session, input);
            var log := s.log + if t.Tried? && t.verdict.err.Some? then [(t.way, t.verdict.err)] else [];
            var (end, r) := Run(env, session, s, [input]);
            && (r.Waiting? <==> Passes(env, t) && !Exhausted(env, CountOf(log)))
            && (r.Waiting? ==> end.log == log && end.failures == CountOf(log))
  {
    hide TakeTurn, Methods;
    var t := TakeTurn(env, session, input);
    assert [input][0] == input && [input][1..] == [] && s.log + [] == s.log;
    if t.Tried? && t.verdict.err.Some? {
      LeadingNonesAppend(s.log, (t.way, t.verdict.err));
    }
  }

  /** A user gets in exactly when some request justifies it and, before it, every turn was answered or refused
      and the refusals stayed below the limit. */
  lemma AuthenticatedIff(env: Env, session: seq<byte>, inputs: seq<Input>, user: seq<byte>, perms: Permissions)
    ensures Run(env, session, START, inputs).1 == Authenticated(user, perms) <==>
            exists i :: 0 <= i < |inputs| && StillOpen(env, session, inputs[..i]) && Justified(env, session, inputs[i], user, perms)
  {
    hide Run, Justified, StillOpen, TakeTurn;
    if i :| 0 <= i < |inputs| && StillOpen(env, session, inputs[..i]) && Justified(env, session, inputs[i], user, perms) {
      SuccessIffJustified(env, session, inputs[i], user, perms);
      LetsIn(env, session, inputs, i, TakeTurn(env, session, inputs[i]).way, user, perms);
    }
    if Run(env, session, START, inputs).1 == Authenticated(user, perms) {
      LetInBy(env, session, inputs, user, perms);
    }
  }

  lemma LetsIn(env: Env, session: seq<byte>, inputs: seq<Input>, i: nat, way: Method, user: seq<byte>, perms: Permissions)
    requires i < |inputs| && TakeTurn(env, session, inputs[i]) == Tried(way, user, Verdict(None, perms))
    requires StillOpen(env, session, inputs[..i])
    ensures Run(env, session, START, inputs).1 == Authenticated(user, perms)
  {
    WaitingIffOpen(env, session, inputs[..i]);
    RunSplit(env, session, START, inputs[..i], inputs[i..]);
    assert inputs[..i] + inputs[i..] == inputs;
    hide TakeTurn, RefusedIn, StillOpen, Methods;
    assert inputs[i..][0] == inputs[i];
  }

  lemma {:induction false} LetInBy(env: Env, session: seq<byte>, inputs: seq<Input>, user: seq<byte>, perms: Permissions)
    requires Run(env, session, START, inputs).1 == Authenticated(user, perms)
    ensures exists i :: 0 <= i < |inputs| && StillOpen(env, session, inputs[..i]) && Justified(env, session, inputs[i], user, perms)
    decreases |inputs|
  {
    hide TakeTurn, Justified, RefusedIn, StillOpen, Methods;
    var n := |inputs| - 1;
    var init := inputs[..n];
    RunSplit(env, session, START, init, [inputs[n]]);
    assert init + [inputs[n]] == inputs;
    if Run(env, session, START, init).1.Waiting? {
      WaitingIffOpen(env, session, init);
      SuccessIffJustified(env, session, inputs[n], user, perms);
      assert [inputs[n]][1..] == [];
    } else {
      LetInBy(env, session, init, user, perms);
      var i :| 0 <= i < n && StillOpen(env, session, init[..i]) && Justified(env, session, init[i], user, perms);
      assert inputs[..i] == init[..i] && inputs[i] == init[i];
    }
  }

  // ---- The cache ----

  const MAX_CACHED_PUB_KEYS: nat := 16

  datatype CachedPubKey = CachedPubKey(user: seq<byte>, key: seq<byte>, verdict: Verdict)
  {
    predicate For(u: seq<byte>, k: seq<byte>)
    {
      user == u && key == k
    }
  }

  ghost predicate IsFirstFor(keys: seq<CachedPubKey>, user: seq<byte>, key: seq<byte>, i: nat)
  {
    i < |keys| && keys[i].For(user, key) && forall j :: 0 <= j < i ==> !keys[j].For(user, key)
  }

  class PubKeyCache {
    var keys: seq<CachedPubKey>

    /** Every entry says what the callback would say again. */
    ghost predicate Sound(env: Env)
      reads this
    {
      |keys| <= MAX_CACHED_PUB_KEYS
      && forall i :: 0 <= i < |keys| ==> keys[i].verdict == Judge(env, keys[i].user, keys[i].key)
    }

    constructor ()
      ensures keys == []
    {
      keys := [];
    }

    method Get(user: seq<byte>, key: seq<byte>) returns (r: Option<CachedPubKey>)
      ensures r.Some? ==> exists i: nat :: IsFirstFor(keys, user, key, i) && keys[i] == r.value
      ensures r.None? <==> forall i :: 0 <= i < |keys| ==> !keys[i].For(user, key)
    {
      for i := 0 to |keys|
        invariant forall j :: 0 <= j < i ==> !keys[j].For(user, key)
      {
        if keys[i].user == user && keys[i].key == key {
          assert IsFirstFor(keys, user, key, i);
          return Some(keys[i]);
        }
      }
      return None;
    }

    /** What the cache knew it still knows, it stays sound and within its size, and the candidate is known from
        now on unless the cache was full. */
    method Add(candidate: CachedPubKey, ghost env: Env)
      requires Sound(env) && candidate.verdict == Judge(env, candidate.user, candidate.key)
      modifies this
      ensures Sound(env) && old(keys) <= keys
      ensures |keys| <= 16
      ensures old(|keys|) < 16 ==> exists i :: 0 <= i < |keys| && keys[i].For(candidate.user, candidate.key)
      ensures forall k :: k in keys ==> k in old(keys) || k == candidate
    {
      if |keys| < MAX_CACHED_PUB_KEYS {
        keys := keys + [candidate];
        assert keys[|keys| - 1].For(candidate.user, candidate.key);
      }
    }

    /** The verdict on a user and key, asking the callback only when the cache does not know. */
    method Candidate(env: Env, user: seq<byte>, key: seq<byte>) returns (v: Verdict)
      requires Sound(env)
      modifies this
      ensures Sound(env) && v == Judge(env, user, key)
    {
      hide Judge;
      var cached := Get(user, key);
      if cached.Some? {
        return cached.value.verdict;
      }
      v := Judge(env, user, key);
      Add(CachedPubKey(user, key, v), env);
    }

    method AttemptCached(env: Env, session: seq<byte>, req: Request, dialogue: Verdict) returns (t: Turn)
      requires Sound(env)
      modifies this
      ensures Sound(env) && t == Attempt(env, session, req, dialogue)
    {
      hide Judge, ParseKeyRequest, ParsePassword, Decide, MethodOf, PubKeyCache.Sound;
      if MethodOf(req.name) == PublicKey && env.hasPublicKey {
        var k := ParseKeyRequest(env, req.payload);
        match k {
          case BadPayload => t := Stop(ParseFailure);
          case BadAlgo => t := Tried(PublicKey, req.user, Verdict(Some(AlgoNotAccepted), NoPermissions));
          case BadKey => t := Stop(UnparsableKey);
          case KeyRequest(_, _, key, _) =>
            var candidate := Candidate(env, req.user, key);
            t := Decide(env, session, req, k, candidate);
        }
      } else {
        t := Attempt(env, session, req, dialogue);
      }
    }
  }

  /** The loop of the source, with the cache: it does exactly what asking the callback every time does. */
  method ServerAuthenticate(env: Env, session: seq<byte>, inputs: seq<Input>) returns (s: State, r: Outcome)
    ensures (s, r) == Run(env, session, START, inputs)
  {
    hide Attempt, ParseRequest, Methods, Ascii, PubKeyCache.Sound;
    var cache := new PubKeyCache();
    assert cache.Sound(env) by { NewCacheSound(cache, env); }
    s := START;
    var i := 0;
    assert inputs[0..] == inputs;
    while true
      invariant i <= |inputs| && cache.Sound(env) && fresh(cache)
      invariant Run(env, session, s, inputs[i..]) == Run(env, session, START, inputs)
      decreases |inputs| - i
    {
      if Exhausted(env, s.failures) {
        return s.(replies := s.replies + [SendDisconnect]), TooManyFailures;
      }
      if i == |inputs| {
        return s, Waiting;
      }
      var input := inputs[i];
      assert inputs[i..][0] == input && inputs[i..][1..] == inputs[i + 1..];
      i := i + 1;
      if input.Eof? {
        return s, Aborted(NoMoreInput);
      }
      if input.ReadError? {
        return s, Aborted(InputError);
      }
      var parsed := ParseRequest(input.bytes);
      if parsed.None? {
        return s, Aborted(ParseFailure);
      }
      if parsed.value.service != Ascii("ssh-connection") {
        return s, Aborted(UnknownService);
      }
      var t := cache.AttemptCached(env, session, parsed.value, input.dialogue);
      match t {
        case Stop(why) =>
          return s, Aborted(why);
        case KeyOk(algo, key) =>
          s := s.(replies := s.replies + [SendKeyOk(algo, key)]);
        case Tried(way, user, verdict) =>
          var failures := s.failures;
          if way == NoneMethod && failures == 0 {
            failures := failures - 1;
          }
          var log := s.log + [(way, verdict.err)];
          if verdict.err.None? {
            return State(failures, log, s.replies + [SendSuccess]), Authenticated(user, verdict.perms);
          }
          failures := failures + 1;
          var methods := Methods(env);
          if methods == [] {
            return State(failures, log, s.replies), Aborted(NoMethods);
          }
          s := State(failures, log, s.replies + [SendFailure(methods)]);
      }
    }
  }

  lemma NewCacheSound(cache: PubKeyCache, env: Env)
    requires cache.keys == []
    ensures cache.Sound(env)
  {
  }
}
