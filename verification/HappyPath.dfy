/** Registering, logging in and being checked one after the other: without any
    assumption on a schedule, and with proof that such a story exists. */
module HappyPath {
  import opened Encoding
  import opened Groups
  import opened Suite
  import opened Client
  import opened Storage
  import opened Handlers
  import opened Login
  import opened Completeness
  import opened Atomic

  lemma {:induction false} FinishEnds(cfg: Config, st: Histories, now: nat, th: Thread, faults: seq<bool>)
    ensures
      var th' := Finish(cfg, st, now, th, faults).1;
      th'.Finished? && th'.app == AppOfThread(th)
    decreases Remaining(th)
  {
    if !th.Finished? {
      var (st', reply) := if HeadFault(faults) then (st, Failed) else HistoryDo(st, now, NextCall(th));
      ResumeGetsCloser(cfg, now, th, reply);
      ThreadKeepsApp(cfg, now, th, reply);
      FinishEnds(cfg, st', now, Resume(cfg, now, th, reply), TailFaults(faults));
    }
  }

  /** The answer to a request when no call fails. */
  function Ask(cfg: Config, w: World, request: Request): Response {
    FinishEnds(cfg, w.st, w.now, Start(request), []);
    AnswerTo(cfg, w, request, []).response
  }

  function Then(cfg: Config, w: World, request: Request): World {
    Happen(cfg, w, Serve(request, []))
  }

  function SignUpRequest(cfg: Config, id: UserId, u: SignUp): Request
    requires MakeOprfRequest(cfg.c, u.password, u.blind).Ok?
  {
    StartRegistration(id, MakeOprfRequest(cfg.c, u.password, u.blind).value.evalReq, u.kU)
  }

  // ----------------------------------------------------------------- registration

  function FinalizeSignUp(cfg: Config, id: UserId, u: SignUp): Request
    requires HonestSignUp(cfg, u)
  {
    SealedIsCoherent(cfg, u);
    FinalizeRegistration(id, RegistrationData(cfg, u).value)
  }

  function Registered(cfg: Config, w: World, id: UserId, u: SignUp): World
    requires HonestSignUp(cfg, u)
  {
    Then(cfg, Then(cfg, w, SignUpRequest(cfg, id, u)), FinalizeSignUp(cfg, id, u))
  }

  lemma StartIsAnswered(cfg: Config, w: World, id: UserId, evalReq: seq<nat>, kU: nat)
    requires Of(w.st.requests, id) == []
    ensures AnswerTo(cfg, w, StartRegistration(id, evalReq, kU), [])
         == Finished(id.app, Evaluated(Evaluate(cfg.c, kU, evalReq)))
  {
    var th0, th1 := StartReg0(id, evalReq, kU), StartReg1(id, evalReq, kU);
    assert Finish(cfg, w.st, w.now, th0, []) == Finish(cfg, w.st, w.now, th1, []);
    var st' := HistoryDo(w.st, w.now, NextCall(th1)).0;
    var th2 := Finished(id.app, Evaluated(Evaluate(cfg.c, kU, evalReq)));
    assert Finish(cfg, w.st, w.now, th1, []) == Finish(cfg, st', w.now, th2, []);
  }

  /** A user without a request yet registers, and the envelope is coherent. */
  lemma Registers(cfg: Config, w: World, id: UserId, u: SignUp)
    requires HonestSignUp(cfg, u) && Of(w.st.requests, id) == []
    ensures Ask(cfg, w, SignUpRequest(cfg, id, u)).Evaluated?
    ensures Ask(cfg, Then(cfg, w, SignUpRequest(cfg, id, u)), FinalizeSignUp(cfg, id, u)) == Accepted
    ensures
      var h := Of(Registered(cfg, w, id, u).st.envelopes, id);
      h != [] && CoherentEnvelope(cfg, h[0], u.password)
  {
    var evalReq := MakeOprfRequest(cfg.c, u.password, u.blind).value.evalReq;
    StartIsAnswered(cfg, w, id, evalReq, u.kU);
    AnsweredRegistration(cfg, w, id, evalReq, u.kU, []);
    Finalizes(cfg, Then(cfg, w, SignUpRequest(cfg, id, u)), id, u);
  }

  lemma Finalizes(cfg: Config, w: World, id: UserId, u: SignUp)
    requires HonestSignUp(cfg, u) && Of(w.st.requests, id) == [UserRequest(MarshalScalar(u.kU))]
    ensures Ask(cfg, w, FinalizeSignUp(cfg, id, u)) == Accepted
    ensures
      var h := Of(Then(cfg, w, FinalizeSignUp(cfg, id, u)).st.envelopes, id);
      h != [] && CoherentEnvelope(cfg, h[0], u.password)
  {
    SealedIsCoherent(cfg, u);
    var reg := RegistrationData(cfg, u).value;
    FinalizeAnswers(cfg, w, id, reg);
    AnsweredFinalize(cfg, w, id, reg, []);
  }

  // ------------------------------------------------------------------------ login

  lemma LoginReply(cfg: Config, w: World, id: UserId, evalReq: seq<nat>, nonce: Bytes, coin: nat, env: UserEnvelope)
    requires Current(w.st.envelopes, id, env) && UnmarshalScalar(cfg.c, env.key).Ok?
    ensures
      var eval := Evaluate(cfg.c, UnmarshalScalar(cfg.c, env.key).value, evalReq);
      Finish(cfg, w.st, w.now, StartAuth0(id, evalReq, nonce, coin), [])
        == (HistoryDo(w.st, w.now, PushNonce(id, nonce)).0, Finished(id.app, LoginResponse(eval, env, nonce)))
  {
    var eval := Evaluate(cfg.c, UnmarshalScalar(cfg.c, env.key).value, evalReq);
    var th0, th1 := StartAuth0(id, evalReq, nonce, coin), StartAuth1(id, eval, env, nonce, coin);
    var answer := Finished(id.app, LoginResponse(eval, env, nonce));
    var st' := HistoryDo(w.st, w.now, PushNonce(id, nonce)).0;
    assert Finish(cfg, w.st, w.now, th0, []) == Finish(cfg, w.st, w.now, th1, []);
    if coin == 0 {
      var th2 := StartAuth2(id, eval, env, nonce);
      assert Finish(cfg, w.st, w.now, th1, []) == Finish(cfg, st', w.now, th2, []);
      assert Finish(cfg, st', w.now, th2, []) == Finish(cfg, st', w.now, answer, []);
    } else {
      assert Finish(cfg, w.st, w.now, th1, []) == Finish(cfg, st', w.now, answer, []);
    }
  }

  /** A token in the window that matches is stored for fifteen minutes. */
  lemma ListedIsStored(cfg: Config, w: World, id: UserId, token: string)
    requires WellFormedToken(token) && NonceOf(token) in Window(Of(w.st.nonces, id))
    requires Of(w.st.envelopes, id) != [] && Matches(cfg, token, Of(w.st.envelopes, id)[0])
    ensures Finish(cfg, w.st, w.now, FinAuth0(id, token), [])
         == (HistoryDo(w.st, w.now, PutSession(id, token, SESSION_TTL)).0, Finished(id.app, Accepted))
  {
    ListTurn(cfg, w, FinAuth0(id, token));
    FinishOnce(cfg, w.st, w.now, FinAuth0(id, token));
    MatchedIsStored(cfg, w, id, token);
  }

  lemma ListTurn(cfg: Config, w: World, th: Thread)
    requires th.FinAuth0? && WellFormedToken(th.token) && NonceOf(th.token) in Window(Of(w.st.nonces, th.id))
    ensures
      var (st', reply) := HistoryDo(w.st, w.now, NextCall(th));
      st' == w.st && Resume(cfg, w.now, th, reply) == FinAuth1(th.id, th.token)
  {
    ListedIsMembership(Window(Of(w.st.nonces, th.id)), NonceOf(th.token));
  }

  lemma MatchedIsStored(cfg: Config, w: World, id: UserId, token: string)
    requires WellFormedToken(token) && Of(w.st.envelopes, id) != [] && Matches(cfg, token, Of(w.st.envelopes, id)[0])
    ensures Finish(cfg, w.st, w.now, FinAuth1(id, token), [])
         == (HistoryDo(w.st, w.now, PutSession(id, token, SESSION_TTL)).0, Finished(id.app, Accepted))
  {
    var th1, th2 := FinAuth1(id, token), FinAuth2(id, token, Of(w.st.envelopes, id)[0]);
    assert Finish(cfg, w.st, w.now, th1, []) == Finish(cfg, w.st, w.now, th2, []);
    var st' := HistoryDo(w.st, w.now, PutSession(id, token, SESSION_TTL)).0;
    assert Finish(cfg, w.st, w.now, th2, []) == Finish(cfg, st', w.now, Finished(id.app, Accepted), []);
  }

  /** The text of the token the client makes of the answer to its login. */
  function TokenText(cfg: Config, w: World, v: Visit): Option<string>
    requires HonestVisit(cfg, v)
  {
    var answer := Ask(cfg, w, LoginRequest(cfg, v));
    if !answer.LoginStarted? then None
    else
      match ClientToken(cfg.c, v, answer)
      case Err(_) => None
      case Ok(token) => Some(HexEncode(token))
  }

  lemma AnswersLogin(cfg: Config, w: World, v: Visit, env: UserEnvelope)
    requires HonestVisit(cfg, v)
    requires Current(w.st.envelopes, v.id, env) && UnmarshalScalar(cfg.c, env.key).Ok?
    ensures
      var eval := Evaluate(cfg.c, UnmarshalScalar(cfg.c, env.key).value, EvalReq(cfg.c, v));
      Ask(cfg, w, LoginRequest(cfg, v)) == LoginResponse(eval, env, v.nonce)
    ensures Then(cfg, w, LoginRequest(cfg, v)) == w.(st := HistoryDo(w.st, w.now, PushNonce(v.id, v.nonce)).0)
  {
    LoginReply(cfg, w, v.id, EvalReq(cfg.c, v), v.nonce, v.coin, env);
  }

  lemma GetsToken(cfg: Config, w: World, v: Visit, env: UserEnvelope)
    requires HonestVisit(cfg, v)
    requires Current(w.st.envelopes, v.id, env) && CoherentEnvelope(cfg, env, v.password)
    ensures
      var token := TokenText(cfg, w, v);
      && token.Some? && WellFormedToken(token.value)
      && NonceOf(token.value) == v.nonce && Matches(cfg, token.value, env)
  {
    AnswersLogin(cfg, w, v, env);
    TokenMatchesEnvelope(cfg, v, env);
  }

  lemma AfterIssue(cfg: Config, w: World, v: Visit, env: UserEnvelope)
    requires HonestVisit(cfg, v)
    requires Current(w.st.envelopes, v.id, env) && UnmarshalScalar(cfg.c, env.key).Ok?
    ensures
      var w1 := Then(cfg, w, LoginRequest(cfg, v));
      && Current(w1.st.envelopes, v.id, env) && Current(w1.st.nonces, v.id, v.nonce)
      && w1.st.secrets == w.st.secrets && w1.now == w.now
  {
    AnswersLogin(cfg, w, v, env);
  }

  /** From a coherent envelope the right password gets a token, which is accepted
      and becomes the session. */
  lemma LogsIn(cfg: Config, w: World, v: Visit, env: UserEnvelope)
    requires HonestVisit(cfg, v)
    requires Current(w.st.envelopes, v.id, env) && CoherentEnvelope(cfg, env, v.password)
    requires TokenText(cfg, w, v).Some? ==> v.token == TokenText(cfg, w, v).value
    ensures
      var w1 := Then(cfg, w, LoginRequest(cfg, v));
      var w2 := Then(cfg, w1, FinalizeRequest(v));
      && TokenText(cfg, w, v) == Some(v.token)
      && Ask(cfg, w1, FinalizeRequest(v)) == Accepted
      && Current(w2.st.sessions, v.id, Session(v.token, w.now + SESSION_TTL))
      && w2.st.secrets == w.st.secrets && w2.now == w.now
  {
    GetsToken(cfg, w, v, env);
    AfterIssue(cfg, w, v, env);
    var w1 := Then(cfg, w, LoginRequest(cfg, v));
    NewestIsAccepted(cfg, w1, v.id, v.token, env);
    AfterPut(w1, v.id, v.token);
  }

  lemma AfterPut(w: World, id: UserId, token: string)
    ensures
      var st' := HistoryDo(w.st, w.now, PutSession(id, token, SESSION_TTL)).0;
      Current(st'.sessions, id, Session(token, w.now + SESSION_TTL)) && st'.secrets == w.st.secrets
  {
  }

  lemma NewestIsInWindow(h: seq<Bytes>)
    requires h != []
    ensures h[0] in Window(h)
  {
    WindowIsTwentyOne(h);
    assert Window(h)[0] == h[0];
  }

  lemma NewestIsAccepted(cfg: Config, w: World, id: UserId, token: string, env: UserEnvelope)
    requires WellFormedToken(token) && Matches(cfg, token, env)
    requires Current(w.st.envelopes, id, env) && Current(w.st.nonces, id, NonceOf(token))
    ensures Ask(cfg, w, FinalizeAuthentication(id, token)) == Accepted
    ensures Then(cfg, w, FinalizeAuthentication(id, token))
         == w.(st := HistoryDo(w.st, w.now, PutSession(id, token, SESSION_TTL)).0)
  {
    NewestIsInWindow(Of(w.st.nonces, id));
    ListedIsStored(cfg, w, id, token);
    assert Start(FinalizeAuthentication(id, token)) == FinAuth0(id, token);
  }

  /** Without an envelope there is no login and no nonce is issued. */
  lemma NoEnvelopeNoLogin(cfg: Config, w: World, id: UserId, evalReq: seq<nat>, nonce: Bytes, coin: nat)
    requires Of(w.st.envelopes, id) == []
    ensures
      var login := StartAuthentication(id, evalReq, nonce, coin);
      Ask(cfg, w, login) == Rejected(400, "request failed to evaluate") && Then(cfg, w, login) == w
  {
    FinishOnce(cfg, w.st, w.now, StartAuth0(id, evalReq, nonce, coin));
  }

  /** Without a pending request nothing is finalized. */
  lemma NoRequestNoEnvelope(cfg: Config, w: World, id: UserId, reg: Registration)
    requires Of(w.st.requests, id) == []
    ensures
      var finalize := FinalizeRegistration(id, reg);
      Ask(cfg, w, finalize) == Rejected(500, "Failed to store user data") && Then(cfg, w, finalize) == w
  {
    FinishOnce(cfg, w.st, w.now, FinReg0(id, reg));
  }

  /** A user who has a request is refused another one. */
  lemma SecondSignUpRefused(cfg: Config, w: World, id: UserId, evalReq: seq<nat>, kU: nat)
    requires Of(w.st.requests, id) != []
    ensures
      var start := StartRegistration(id, evalReq, kU);
      Ask(cfg, w, start) == Rejected(403, "User already registered") && Then(cfg, w, start) == w
  {
    FinishOnce(cfg, w.st, w.now, StartReg0(id, evalReq, kU));
  }

  /** A token that passed every test is not accepted when it cannot be stored. */
  lemma UnsavedIsReported(cfg: Config, w: World, th: Thread)
    requires th.FinAuth2?
    ensures Finish(cfg, w.st, w.now, th, [true])
         == (w.st, Finished(th.id.app, Rejected(500, "while saving session token")))
  {
    assert Finish(cfg, w.st, w.now, th, [true])
        == Finish(cfg, w.st, w.now, Resume(cfg, w.now, th, Failed), TailFaults([true]));
  }

  // -------------------------------------------------------------------- the check

  /** Without faults the credentials check succeeds exactly for the current app
      secret and the live session. */
  lemma CheckSucceedsExactly(cfg: Config, w: World, id: UserId, secret: string, token: string)
    ensures
      Ask(cfg, w, CheckCredentials(id, secret, token)).Credentials? <==>
        Current(w.st.secrets, id.app, secret) && CurrentSession(w.st, w.now, id) == Some(token)
  {
    var th0, th1 := Check0(id, secret, token), Check1(id, token);
    var first := Resume(cfg, w.now, th0, HistoryDo(w.st, w.now, GetSecret(id.app)).1);
    assert Finish(cfg, w.st, w.now, th0, []) == Finish(cfg, w.st, w.now, first, []);
    if first == th1 {
      var last := Resume(cfg, w.now, th1, HistoryDo(w.st, w.now, GetSession(id)).1);
      assert Finish(cfg, w.st, w.now, th1, []) == Finish(cfg, w.st, w.now, last, []);
    }
  }

  /** And which refusal comes when: the relying party goes by the status alone. */
  lemma CheckAnswersExactly(cfg: Config, w: World, id: UserId, secret: string, token: string)
    ensures
      var answer := Ask(cfg, w, CheckCredentials(id, secret, token));
      var secrets, live := Of(w.st.secrets, id.app), CurrentSession(w.st, w.now, id);
      if secrets == [] then answer == Rejected(500, "while checking app secret")
      else if secrets[0] != secret then answer == Rejected(401, "App secret is invalid")
      else if live.None? then answer == Rejected(500, "while checking app secret")
      else if live.value != token then answer == Rejected(401, "Session token is invalid")
      else answer == CredentialsAt(cfg, id, w.now)
  {
    var th0, th1 := Check0(id, secret, token), Check1(id, token);
    var first := Resume(cfg, w.now, th0, HistoryDo(w.st, w.now, GetSecret(id.app)).1);
    assert Finish(cfg, w.st, w.now, th0, []) == Finish(cfg, w.st, w.now, first, []);
    if first == th1 {
      var last := Resume(cfg, w.now, th1, HistoryDo(w.st, w.now, GetSession(id)).1);
      assert Finish(cfg, w.st, w.now, th1, []) == Finish(cfg, w.st, w.now, last, []);
    }
  }

  // ------------------------------------------------------------------- the story

  /** In any world in which the user has no request and the app its secret: the
      client registers, logs in, and then its token passes the credentials check
      after any time if and only if that is under fifteen minutes. */
  lemma StoryEndsWell(cfg: Config, w: World, u: SignUp, v: Visit, ms: nat)
    requires HonestSignUp(cfg, u) && HonestVisit(cfg, v) && v.password == u.password
    requires Of(w.st.requests, v.id) == [] && Current(w.st.secrets, v.id.app, v.secret)
    requires
      var token := TokenText(cfg, Registered(cfg, w, v.id, u), v);
      token.Some? ==> v.token == token.value
    ensures
      var w1 := Then(cfg, Registered(cfg, w, v.id, u), LoginRequest(cfg, v));
      var w2 := Then(cfg, w1, FinalizeRequest(v));
      && Ask(cfg, w1, FinalizeRequest(v)) == Accepted
      && (Ask(cfg, Happen(cfg, w2, Wait(ms)), CheckRequest(v)).Credentials? <==> ms < SESSION_TTL)
  {
    var r := Registered(cfg, w, v.id, u);
    Registers(cfg, w, v.id, u);
    SecretsKept(cfg, w, v.id, u);
    LogsIn(cfg, r, v, Of(r.st.envelopes, v.id)[0]);
    var w2 := Then(cfg, Then(cfg, r, LoginRequest(cfg, v)), FinalizeRequest(v));
    CheckSucceedsExactly(cfg, Happen(cfg, w2, Wait(ms)), v.id, v.secret, v.token);
  }

  lemma SecretsKept(cfg: Config, w: World, id: UserId, u: SignUp)
    requires HonestSignUp(cfg, u)
    ensures Registered(cfg, w, id, u).st.secrets == w.st.secrets && Registered(cfg, w, id, u).now == w.now
  {
    var request := SignUpRequest(cfg, id, u);
    FinishKeepsSecrets(cfg, w.st, w.now, Start(request), []);
    FinishKeepsSecrets(cfg, Then(cfg, w, request).st, w.now, Start(FinalizeSignUp(cfg, id, u)), []);
  }

  lemma {:induction false} FinishKeepsSecrets(cfg: Config, st: Histories, now: nat, th: Thread, faults: seq<bool>)
    requires !th.Secret0?
    ensures Finish(cfg, st, now, th, faults).0.secrets == st.secrets
    decreases Remaining(th)
  {
    if !th.Finished? {
      var (st', reply) := if HeadFault(faults) then (st, Failed) else HistoryDo(st, now, NextCall(th));
      ResumeGetsCloser(cfg, now, th, reply);
      FinishKeepsSecrets(cfg, st', now, Resume(cfg, now, th, reply), TailFaults(faults));
    }
  }

  // ---------------------------------------------------- such a story does exist

  lemma ByteShift(r: nat)
    ensures 256 * r % 3 == r % 3
  {
    AddMultiple(r, 85 * r, 3);
  }

  lemma {:induction false} ZerosThenByte(n: nat, x: byte)
    ensures FromLittleEndian(Zeros(n) + [x]) % 3 == x % 3
  {
    var b := Zeros(n) + [x];
    assert FromLittleEndian(b) == b[0] + 256 * FromLittleEndian(b[1..]);
    if n > 0 {
      ZerosThenByte(n - 1, x);
      assert b[1..] == Zeros(n - 1) + [x];
      ByteShift(FromLittleEndian(b[1..]));
    } else {
      assert b[1..] == [] && FromLittleEndian([]) == 0;
    }
  }

  lemma SmallClamp(c: Suite)
    requires c.Lawful() && c.dh == Group(7, 3) && c.dhBase == 2
    ensures c.dh.Mul(2, Clamp(Zeros(32))) == 2
  {
    var zero: Block := Zeros(32);
    assert [zero[0] - zero[0] % 8] + zero[1..31] + [zero[31] % 64 + 64] == Zeros(31) + [64];
    ZerosThenByte(31, 64);
    var n := Clamp(zero);
    OrderReduces(c.dh, 2, 1, n / 3);
    assert n == 1 + n / 3 * 3;
    MulByOne(c.dh, 2);
  }

  lemma SmallSharesKey(c: Suite)
    requires c.Lawful() && c.dh == Group(7, 3) && c.dhBase == 2
    ensures SharedKey(c, Zeros(32), KeyGen(c, Zeros(32))).Some?
  {
    SmallClamp(c);
    PointRoundTrip(c, Zeros(32));
  }

  lemma SmallMakesRequests(c: Suite, password: Bytes)
    requires Small(c)
    ensures MakeOprfRequest(c, password, 1).Ok?
  {
    assert HashInput(c, PasswordInput(c, password)) != 1;
  }

  lemma SmallSignUp(c: Suite, password: Bytes)
    requires c.Lawful() && Small(c)
    ensures HonestSignUp(Config(c, Zeros(32), ""), SignUp(password, 1, 1, Fresh(Zeros(32), Zeros(32), Zeros(12))))
  {
    SmallSharesKey(c);
    SmallMakesRequests(c, password);
  }

  /** The assumptions on client, server and library can all be met at once. */
  lemma StoryExists() returns (cfg: Config, u: SignUp, v: Visit)
    ensures HonestSignUp(cfg, u) && HonestVisit(cfg, v) && v.password == u.password
    ensures u.password != [] && v.id.user != ""
  {
    var c := LawfulSuiteExists();
    var password: Bytes := [1];
    SmallSignUp(c, password);
    SmallMakesRequests(c, password);
    cfg := Config(c, Zeros(32), "");
    u := SignUp(password, 1, 1, Fresh(Zeros(32), Zeros(32), Zeros(12)));
    v := Visit(UserId("app", "user"), password, 1, Zeros(12), 0, Zeros(32), "", "", 0, 1, 2);
  }
}
