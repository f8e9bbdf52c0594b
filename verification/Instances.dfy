/** That what the main results assume does happen: a suite that refuses, and for
    every client a run from the start in which its whole story takes place. */
module Instances {
  import opened Encoding
  import opened Suite
  import opened Client
  import opened Storage
  import opened Handlers
  import opened Machine
  import opened Sessions
  import opened Login
  import opened Completeness
  import opened Atomic
  import opened HappyPath
  import opened PendingKey

  // ------------------------------------------------------------------- refusing

  /** A hardening that tells one input from all others. */
  function TellsApart(good: Bytes): (Bytes, Bytes) -> Block {
    (x: Bytes, s: Bytes) => if x == good then [1] + Zeros(31) else Zeros(32)
  }

  lemma KeyKeepsFirstByte(c: Suite, rwdU: Block)
    requires Small(c)
    ensures AesKey(c, rwdU)[1] == rwdU[0]
  {
    var prk := c.hmac(Zeros(32), rwdU);
    assert prk[0] == (rwdU + Zeros(32))[0];
    assert c.hmac(prk, [1])[1] == ([1] + prk)[1];
  }

  /** In such a suite no other frame collides with the good one. */
  lemma NothingCollides(c: Suite, good: Bytes, other: Bytes, salt: Bytes)
    requires c.argon2 == TellsApart(good) && Small(c)
    ensures NoCollision(c, other, good, salt)
  {
    KeyKeepsFirstByte(c, c.argon2(other, salt));
    KeyKeepsFirstByte(c, c.argon2(good, salt));
  }

  /** A suite, a registration, another password and another key, for which both
      the password and the key are told apart: there are logins that are refused. */
  lemma RefusalExists() returns (cfg: Config, u: SignUp, other: Bytes, k': nat)
    ensures HonestSignUp(cfg, u) && cfg.c.Committing() && u.password != [] && RegistrationData(cfg, u).Ok?
    ensures k' < cfg.c.oprf.q && MakeOprfRequest(cfg.c, other, 1).Ok? && other != []
    ensures
      var salt := RegistrationData(cfg, u).value.salt;
      var good := PasswordFrame(cfg.c, u.kU, u.password);
      && NoCollision(cfg.c, PasswordFrame(cfg.c, u.kU, other), good, salt)
      && NoCollision(cfg.c, PasswordFrame(cfg.c, k', u.password), good, salt)
    ensures
      var reg := RegistrationData(cfg, u).value;
      forall nonce, draw ::
        && !LoginToken(cfg.c, u.kU, reg, other, 1, nonce, draw).Ok?
        && !LoginToken(cfg.c, k', reg, u.password, 1, nonce, draw).Ok?
        && LoginToken(cfg.c, u.kU, reg, u.password, 1, nonce, draw).Ok?
  {
    var c0 := LawfulSuiteExists();
    var password: Bytes := [1];
    var good := PasswordFrame(c0, 1, password);
    var c := c0.(argon2 := TellsApart(good));
    cfg := Config(c, Zeros(32), "");
    u := SignUp(password, 1, 1, Fresh(Zeros(32), Zeros(32), Zeros(12)));
    other, k' := [1, 2], 2;
    assert c.Lawful() && c.Committing() && Small(c);
    SmallSignUp(c, password);
    SmallMakesRequests(c, other);
    SmallMakesRequests(c, password);
    SealedIsCoherent(cfg, u);
    SmallPasswordsDiffer(c);
    assert good == PasswordFrame(c, 1, password);
    var salt := RegistrationData(cfg, u).value.salt;
    NothingCollides(c, good, PasswordFrame(c, 1, other), salt);
    NothingCollides(c, good, PasswordFrame(c, k', password), salt);
    RefusesBoth(cfg, u, other, k');
  }

  lemma SmallPasswordsDiffer(c: Suite)
    requires Small(c)
    ensures c.hashToGroup([1], Ascii(PASSWORD_TAG)) == 4 && c.hashToGroup([1, 2], Ascii(PASSWORD_TAG)) == 2
  {
  }

  lemma RefusesBoth(cfg: Config, u: SignUp, other: Bytes, k': nat)
    requires HonestSignUp(cfg, u) && cfg.c.Committing() && RegistrationData(cfg, u).Ok?
    requires k' < cfg.c.oprf.q && k' != u.kU && 1 < cfg.c.oprf.q
    requires MakeOprfRequest(cfg.c, other, 1).Ok? && MakeOprfRequest(cfg.c, u.password, 1).Ok?
    requires cfg.c.hashToGroup(other, Ascii(PASSWORD_TAG)) != cfg.c.hashToGroup(u.password, Ascii(PASSWORD_TAG))
    requires
      var salt := RegistrationData(cfg, u).value.salt;
      var good := PasswordFrame(cfg.c, u.kU, u.password);
      && NoCollision(cfg.c, PasswordFrame(cfg.c, u.kU, other), good, salt)
      && NoCollision(cfg.c, PasswordFrame(cfg.c, k', u.password), good, salt)
    ensures
      var reg := RegistrationData(cfg, u).value;
      forall nonce, draw ::
        && !LoginToken(cfg.c, u.kU, reg, other, 1, nonce, draw).Ok?
        && !LoginToken(cfg.c, k', reg, u.password, 1, nonce, draw).Ok?
        && LoginToken(cfg.c, u.kU, reg, u.password, 1, nonce, draw).Ok?
  {
    var reg := RegistrationData(cfg, u).value;
    RegistrationIsCoherent(cfg.c, KeyGen(cfg.c, cfg.privS), u.kU, u.password, u.blind, u.f);
    forall nonce: Bytes, draw: Block
      ensures
        && !LoginToken(cfg.c, u.kU, reg, other, 1, nonce, draw).Ok?
        && !LoginToken(cfg.c, k', reg, u.password, 1, nonce, draw).Ok?
        && LoginToken(cfg.c, u.kU, reg, u.password, 1, nonce, draw).Ok?
    {
      PasswordDiscrimination(cfg.c, cfg.privS, u.kU, reg, u.password, other, 1, nonce, draw);
      KeyDiscrimination(cfg.c, cfg.privS, u.kU, reg, u.password, k', 1, nonce, draw);
      ClientAndServerAgree(cfg.c, cfg.privS, u.kU, reg, u.password, 1, nonce, draw);
    }
  }

  /** A code that tells one 12-byte key from the others and keeps 32-byte keys. */
  function TellsNonce(nonce: Bytes): (Bytes, Bytes) -> Block {
    (k: Bytes, m: Bytes) => if |k| == 32 then k else if k == nonce then [1] + Zeros(31) else Zeros(32)
  }

  /** There is a suite in which two nonces give different key parts. */
  lemma TellingNoncesExists() returns (c: Suite, secret: Block, nonce: Bytes, nonce': Bytes)
    ensures c.Lawful() && |nonce| == |nonce'| == NONCE_LENGTH && nonce != nonce'
    ensures NoKeyCollision(c, secret, nonce, secret, nonce')
    ensures Hkdf(c, secret, Some(nonce), 32) != Hkdf(c, secret, Some(nonce'), 32)
  {
    var c0 := LawfulSuiteExists();
    secret, nonce, nonce' := Zeros(32), [1] + Zeros(11), Zeros(12);
    c := c0.(hmac := TellsNonce(nonce));
    assert c.Lawful() && nonce[0] != nonce'[0];
    assert c.hmac(nonce, secret)[0] == 1 && c.hmac(nonce', secret)[0] == 0;
    DerivedKeysTell(c, secret, nonce, secret, nonce');
  }

  // ------------------------------------------------------------- a visit on its own

  lemma {:induction false} HealthyTurns(tid: nat, n: nat)
    ensures NoFaults(Turns(tid, [], n), tid)
    decreases n
  {
    if n > 0 {
      HealthyTurns(tid, n - 1);
      assert Turns(tid, [], n) == [Run(tid, false)] + Turns(tid, [], n - 1);
    }
  }

  /** A nonce is numbered after all that were there before. */
  lemma {:induction false} NumberedLater(cfg: Config, s: State, acts: seq<Action>, tid: nat, id: UserId)
    ensures IssueNumber(cfg, s, acts, tid, id) == 0 || IssueNumber(cfg, s, acts, tid, id) > |Of(s.st.nonces, id)|
    decreases |acts|
  {
    if acts != [] {
      StepNonces(cfg, s, acts[0], id);
      NumberedLater(cfg, Step(cfg, s, acts[0]), acts[1..], tid, id);
    }
  }

  /** The login served at once. */
  lemma OwnLogin(cfg: Config, v: Visit, s: State, env: UserEnvelope)
    requires HonestVisit(cfg, v) && v.login !in s.threads
    requires Current(s.st.envelopes, v.id, env) && UnmarshalScalar(cfg.c, env.key).Ok?
    ensures
      var answer := Ask(cfg, World(s.st, s.now), LoginRequest(cfg, v));
      && AfterLogin(cfg, v, s, Turns(v.login, [], 3))
           == State(HistoryDo(s.st, s.now, PushNonce(v.id, v.nonce)).0, s.now,
                    s.threads[v.login := Finished(v.id.app, answer)])
      && answer.LoginStarted? && LoginHappens(cfg, v, s, Turns(v.login, [], 3))
  {
    var s0 := Step(cfg, s, Spawn(v.login, LoginRequest(cfg, v)));
    TurnsFinish(cfg, s0, v.login, [], 3);
    LoginReply(cfg, World(s.st, s.now), v.id, EvalReq(cfg.c, v), v.nonce, v.coin, env);
    var answer := Ask(cfg, World(s.st, s.now), LoginRequest(cfg, v));
    assert s0.threads[v.login := Finished(v.id.app, answer)] == s.threads[v.login := Finished(v.id.app, answer)];
    HealthyTurns(v.login, 3);
  }

  /** The finalize served at once, up to its last turn and then that one. */
  lemma OwnFinalize(cfg: Config, v: Visit, s: State, env: UserEnvelope)
    requires v.finalize !in s.threads && WellFormedToken(v.token) && Matches(cfg, v.token, env)
    requires Current(s.st.envelopes, v.id, env) && Current(s.st.nonces, v.id, NonceOf(v.token))
    ensures
      var own := [Run(v.finalize, false), Run(v.finalize, false)];
      && AfterFinalize(cfg, v, s, own)
           == State(HistoryDo(s.st, s.now, PutSession(v.id, v.token, SESSION_TTL)).0, s.now,
                    s.threads[v.finalize := Finished(v.id.app, Accepted)])
      && FinalizeHappens(cfg, v, s, own)
  {
    OwnTurnsCompare(cfg, v, s, env);
    var s2 := s.(threads := s.threads[v.finalize := FinAuth2(v.id, v.token, env)]);
    LastTurnStores(cfg, s2, v.finalize, v.id, v.token, env);
    var done := Finished(v.id.app, Accepted);
    assert s2.threads[v.finalize := done] == s.threads[v.finalize := done];
  }

  lemma OwnTurnsCompare(cfg: Config, v: Visit, s: State, env: UserEnvelope)
    requires v.finalize !in s.threads && WellFormedToken(v.token) && Matches(cfg, v.token, env)
    requires Current(s.st.envelopes, v.id, env) && Current(s.st.nonces, v.id, NonceOf(v.token))
    ensures Arrive(cfg, s, v.finalize, FinalizeRequest(v), [Run(v.finalize, false), Run(v.finalize, false)])
         == s.(threads := s.threads[v.finalize := FinAuth2(v.id, v.token, env)])
    ensures NoFaults([Run(v.finalize, false), Run(v.finalize, false)], v.finalize)
  {
    var s0 := Step(cfg, s, Spawn(v.finalize, FinalizeRequest(v)));
    Arrival(cfg, s, v.finalize, FinalizeRequest(v));
    NewestIsInWindow(Of(s.st.nonces, v.id));
    ExecTwo(cfg, s0, Run(v.finalize, false), Run(v.finalize, false));
    TwoTurnsCompare(cfg, s0, v.finalize, v.id, v.token, env);
    var compared := FinAuth2(v.id, v.token, env);
    assert s0.threads[v.finalize := compared] == s.threads[v.finalize := compared];
  }

  lemma LastTurnStores(cfg: Config, s: State, tid: nat, id: UserId, token: string, env: UserEnvelope)
    requires tid in s.threads && s.threads[tid] == FinAuth2(id, token, env)
    ensures Proceed(cfg, s, tid)
         == State(HistoryDo(s.st, s.now, PutSession(id, token, SESSION_TTL)).0, s.now,
                  s.threads[tid := Finished(id.app, Accepted)])
  {
  }

  /** The credentials check served at once. */
  lemma OwnCheck(cfg: Config, v: Visit, s: State)
    requires v.check !in s.threads && Current(s.st.secrets, v.id.app, v.secret)
    ensures
      var s7 := AfterCheck(cfg, v, s, [Run(v.check, false)]);
      CheckHappens(cfg, v, s, [Run(v.check, false)]) && s7.st == s.st && s7.now == s.now
  {
    var s0 := Step(cfg, s, Spawn(v.check, CheckRequest(v)));
    OneTurn(cfg, s0, Run(v.check, false));
    FirstTurnAsks(cfg, s0, v.check, v.id, v.secret, v.token);
  }

  lemma FirstTurnAsks(cfg: Config, s: State, tid: nat, id: UserId, secret: string, token: string)
    requires tid in s.threads && s.threads[tid] == Check0(id, secret, token) && Current(s.st.secrets, id.app, secret)
    ensures Proceed(cfg, s, tid) == s.(threads := s.threads[tid := Check1(id, token)])
  {
  }

  /** Nothing of the user's but this history has changed. */
  predicate OnlyNonces(st: Histories, st': Histories, id: UserId, nonce: Bytes) {
    && Of(st'.nonces, id) == [nonce] + Of(st.nonces, id)
    && st'.envelopes == st.envelopes && st'.secrets == st.secrets
  }

  lemma PushOnlyNonces(st: Histories, now: nat, id: UserId, nonce: Bytes)
    ensures OnlyNonces(st, HistoryDo(st, now, PushNonce(id, nonce)).0, id, nonce)
  {
  }

  lemma PutOnlySessions(st: Histories, now: nat, id: UserId, token: string)
    ensures
      var st' := HistoryDo(st, now, PutSession(id, token, SESSION_TTL)).0;
      st'.nonces == st.nonces && st'.envelopes == st.envelopes && st'.secrets == st.secrets
  {
  }

  /** The token in the finalize request is what a login served in this state gives. */
  ghost predicate TokenFrom(cfg: Config, v: Visit, s: State)
    requires HonestVisit(cfg, v)
  {
    var token := TokenText(cfg, World(s.st, s.now), v);
    token.Some? ==> v.token == token.value
  }

  /** The visit takes place in the handlers' own turns. */
  ghost predicate OwnVisitHappens(cfg: Config, v: Visit, s: State)
    requires HonestVisit(cfg, v)
  {
    VisitHappens(cfg, v, s, Turns(v.login, [], 3), [Run(v.finalize, false), Run(v.finalize, false)],
                 [Run(v.check, false)])
  }

  lemma LoginStage(cfg: Config, v: Visit, s: State, env: UserEnvelope)
    requires HonestVisit(cfg, v) && v.login !in s.threads
    requires Current(s.st.envelopes, v.id, env) && CoherentEnvelope(cfg, env, v.password)
    requires TokenFrom(cfg, v, s)
    ensures
      var logging := Turns(v.login, [], 3);
      var s3 := AfterLogin(cfg, v, s, logging);
      && LoginHappens(cfg, v, s, logging) && TokenFromAnswer(cfg, v, s3)
      && OnlyNonces(s.st, s3.st, v.id, v.nonce) && s3.now == s.now && s3.threads.Keys == s.threads.Keys + {v.login}
      && LoginNumber(cfg, v, s, logging) > |Of(s.st.nonces, v.id)|
      && WellFormedToken(v.token) && NonceOf(v.token) == v.nonce && Matches(cfg, v.token, env)
  {
    GetsToken(cfg, World(s.st, s.now), v, env);
    OwnLogin(cfg, v, s, env);
    PushOnlyNonces(s.st, s.now, v.id, v.nonce);
    EnoughNumber(cfg, v, s, Turns(v.login, [], 3), env);
  }

  lemma FinalizeStage(cfg: Config, v: Visit, s: State, env: UserEnvelope)
    requires v.finalize !in s.threads && WellFormedToken(v.token) && Matches(cfg, v.token, env)
    requires Current(s.st.envelopes, v.id, env) && Current(s.st.nonces, v.id, NonceOf(v.token))
    ensures
      var own := [Run(v.finalize, false), Run(v.finalize, false)];
      var s5 := AfterFinalize(cfg, v, s, own);
      && FinalizeHappens(cfg, v, s, own) && s5.threads.Keys == s.threads.Keys + {v.finalize}
      && s5.st.nonces == s.st.nonces && s5.st.envelopes == s.st.envelopes && s5.st.secrets == s.st.secrets
  {
    OwnFinalize(cfg, v, s, env);
    PutOnlySessions(s.st, s.now, v.id, v.token);
  }

  lemma NotDisturbed(cfg: Config, v: Visit, s: State, logging: seq<Action>, s3: State, s5: State, s7: State)
    requires MakeOprfRequest(cfg.c, v.password, v.blind).Ok?
    requires OnlyNonces(s.st, s3.st, v.id, v.nonce) && LoginNumber(cfg, v, s, logging) > |Of(s.st.nonces, v.id)|
    requires s5.st.nonces == s3.st.nonces && s5.st.envelopes == s3.st.envelopes && s5.st.secrets == s3.st.secrets
    requires s7.st == s5.st && s7.now == s5.now && Current(s.st.secrets, v.id.app, v.secret)
    ensures Undisturbed(cfg, v, s, logging, s3, s5, s7)
  {
  }

  /** Three handler numbers that are free. */
  predicate Unused(v: Visit, s: State) {
    && v.login !in s.threads && v.finalize !in s.threads && v.check !in s.threads
    && v.login != v.finalize && v.login != v.check && v.finalize != v.check
  }

  /** From any state with a coherent envelope and the secret there, the visit can
      take place: its own turns one after the other are such a run. */
  lemma VisitCanHappen(cfg: Config, v: Visit, s: State, env: UserEnvelope)
    requires HonestVisit(cfg, v)
    requires Current(s.st.envelopes, v.id, env) && CoherentEnvelope(cfg, env, v.password)
    requires Current(s.st.secrets, v.id.app, v.secret)
    requires Unused(v, s) && TokenFrom(cfg, v, s)
    ensures OwnVisitHappens(cfg, v, s)
  {
    var logging := Turns(v.login, [], 3);
    LoginStage(cfg, v, s, env);
    RestFollows(cfg, v, s, logging, AfterLogin(cfg, v, s, logging), env);
  }

  /** What the login leaves is all that the rest of the visit needs. */
  lemma RestFollows(cfg: Config, v: Visit, s: State, logging: seq<Action>, s3: State, env: UserEnvelope)
    requires HonestVisit(cfg, v) && LoginHappens(cfg, v, s, logging)
    requires s3 == AfterLogin(cfg, v, s, logging) && TokenFromAnswer(cfg, v, s3)
    requires WellFormedToken(v.token) && NonceOf(v.token) == v.nonce && Matches(cfg, v.token, env)
    requires Current(s.st.envelopes, v.id, env) && Current(s.st.secrets, v.id.app, v.secret)
    requires OnlyNonces(s.st, s3.st, v.id, v.nonce) && LoginNumber(cfg, v, s, logging) > |Of(s.st.nonces, v.id)|
    requires v.finalize !in s3.threads && v.check !in s3.threads && v.finalize != v.check
    ensures VisitHappens(cfg, v, s, logging, [Run(v.finalize, false), Run(v.finalize, false)], [Run(v.check, false)])
  {
    FinalizeStage(cfg, v, s3, env);
    var s5 := AfterFinalize(cfg, v, s3, [Run(v.finalize, false), Run(v.finalize, false)]);
    OwnCheck(cfg, v, s5);
    NotDisturbed(cfg, v, s, logging, s3, s5, AfterCheck(cfg, v, s5, [Run(v.check, false)]));
  }

  lemma EnoughNumber(cfg: Config, v: Visit, s: State, logging: seq<Action>, env: UserEnvelope)
    requires HonestVisit(cfg, v) && LoginHappens(cfg, v, s, logging)
    requires Current(s.st.envelopes, v.id, env) && UnmarshalScalar(cfg.c, env.key).Ok?
    requires |Of(AfterLogin(cfg, v, s, logging).st.envelopes, v.id)| == |Of(s.st.envelopes, v.id)|
    ensures LoginNumber(cfg, v, s, logging) > |Of(s.st.nonces, v.id)|
  {
    LoginIsAnswered(cfg, v, s, logging, env);
    NumberedLater(cfg, Step(cfg, s, Spawn(v.login, LoginRequest(cfg, v))), logging, v.login, v.id);
  }

  // --------------------------------------------------------- a story from the start

  /** The app secret is set and the client's start request has passed its check. */
  function OwnStart(cfg: Config, u: SignUp, v: Visit): seq<Action>
    requires HonestSignUp(cfg, u)
  {
    [Spawn(0, SetSecret(v.id.app, v.secret)), Run(0, false), Spawn(1, SignUpRequest(cfg, v.id, u)), Run(1, false)]
  }

  /** Its finalize request has read the key. */
  function OwnRegistering(cfg: Config, u: SignUp, v: Visit): seq<Action>
    requires HonestSignUp(cfg, u)
  {
    [Spawn(2, FinalizeSignUp(cfg, v.id, u)), Run(2, false)]
  }

  lemma ExecFour(cfg: Config, s: State, a: Action, b: Action, c: Action, d: Action)
    ensures Exec(cfg, s, [a, b, c, d]) == Step(cfg, Step(cfg, Step(cfg, Step(cfg, s, a), b), c), d)
  {
    assert [a, b, c, d] == [a, b] + [c, d];
    ExecAppend(cfg, s, [a, b], [c, d]);
    ExecTwo(cfg, s, a, b);
    ExecTwo(cfg, Step(cfg, Step(cfg, s, a), b), c, d);
  }

  lemma SecretIsSet(cfg: Config, app: string, secret: string)
    ensures Step(cfg, Step(cfg, INIT, Spawn(0, SetSecret(app, secret))), Run(0, false))
         == State(EMPTY.(secrets := map[app := [secret]]), 0, map[0 := Finished(app, Accepted)])
  {
    assert [secret] + [] == [secret];
    assert HistoryDo(EMPTY, 0, PutSecret(app, secret)).0 == EMPTY.(secrets := map[app := [secret]]);
  }

  lemma StartPasses(cfg: Config, u: SignUp, v: Visit)
    requires HonestSignUp(cfg, u)
    ensures
      var s := Exec(cfg, INIT, OwnStart(cfg, u, v));
      Starting(cfg, s, 1, v.id, u) && s.threads.Keys == {0, 1} && Current(s.st.secrets, v.id.app, v.secret)
  {
    var request := SignUpRequest(cfg, v.id, u);
    ExecFour(cfg, INIT, Spawn(0, SetSecret(v.id.app, v.secret)), Run(0, false), Spawn(1, request), Run(1, false));
    SecretIsSet(cfg, v.id.app, v.secret);
    var s0 := State(EMPTY.(secrets := map[v.id.app := [v.secret]]), 0, map[0 := Finished(v.id.app, Accepted)]);
    var s1 := Step(cfg, s0, Spawn(1, request));
    assert s1.threads[1] == StartReg0(v.id, request.evalReq, u.kU);
    assert Step(cfg, s1, Run(1, false)).threads == s1.threads[1 := StartReg1(v.id, request.evalReq, u.kU)];
  }

  lemma FinalizeReadsKey(cfg: Config, u: SignUp, v: Visit, s: State)
    requires HonestSignUp(cfg, u) && s.threads.Keys == {0, 1} && Of(s.st.requests, v.id) != []
    ensures
      var s' := Exec(cfg, s, OwnRegistering(cfg, u, v));
      Registering(cfg, s', 2, v.id, u) && s'.threads.Keys == {0, 1, 2} && s'.st == s.st
  {
    var request := FinalizeSignUp(cfg, v.id, u);
    SealedIsCoherent(cfg, u);
    ExecTwo(cfg, s, Spawn(2, request), Run(2, false));
    Arrival(cfg, s, 2, request);
    ReadTurn(cfg, Step(cfg, s, Spawn(2, request)), 2);
  }

  lemma ReadTurn(cfg: Config, s: State, tid: nat)
    requires tid in s.threads && s.threads[tid].FinReg0? && Of(s.st.requests, s.threads[tid].id) != []
    ensures
      var th := s.threads[tid];
      Step(cfg, s, Run(tid, false))
        == s.(threads := s.threads[tid := FinReg1(th.id, th.reg, Of(s.st.requests, th.id)[0].key)])
  {
  }

  function BeforeStore(cfg: Config, u: SignUp, v: Visit): seq<Action>
    requires HonestSignUp(cfg, u)
  {
    OwnStart(cfg, u, v) + [Run(1, false)] + OwnRegistering(cfg, u, v)
  }

  lemma StoreComes(cfg: Config, u: SignUp, v: Visit)
    requires HonestSignUp(cfg, u)
    ensures
      var s := Exec(cfg, INIT, BeforeStore(cfg, u, v));
      Registering(cfg, s, 2, v.id, u) && s.threads.Keys == {0, 1, 2} && Current(s.st.secrets, v.id.app, v.secret)
  {
    var first := OwnStart(cfg, u, v);
    StartPasses(cfg, u, v);
    ExecAppend(cfg, INIT, first, [Run(1, false)]);
    OneTurn(cfg, Exec(cfg, INIT, first), Run(1, false));
    FirstKeyWritten(cfg, Exec(cfg, INIT, first), v.id);
    ExecAppend(cfg, INIT, first + [Run(1, false)], OwnRegistering(cfg, u, v));
    FinalizeReadsKey(cfg, u, v, Exec(cfg, INIT, first + [Run(1, false)]));
  }

  lemma StoreIsCoherent(cfg: Config, u: SignUp, v: Visit)
    requires HonestSignUp(cfg, u)
    ensures
      var s := Exec(cfg, INIT, BeforeStore(cfg, u, v) + [Run(2, false)]);
      && s.threads.Keys == {0, 1, 2} && Current(s.st.secrets, v.id.app, v.secret)
      && Of(s.st.envelopes, v.id) != [] && CoherentEnvelope(cfg, Of(s.st.envelopes, v.id)[0], u.password)
  {
    var before := BeforeStore(cfg, u, v);
    StoreComes(cfg, u, v);
    StartPasses(cfg, u, v);
    FinalizeHasFirstKey(cfg, OwnStart(cfg, u, v), 1, OwnRegistering(cfg, u, v), 2, v.id);
    FinalizedIsCoherent(cfg, Exec(cfg, INIT, before), 2, v.id, u);
    SecretsStay(cfg, Exec(cfg, INIT, before), 2);
    ExecAppend(cfg, INIT, before, [Run(2, false)]);
    OneTurn(cfg, Exec(cfg, INIT, before), Run(2, false));
  }

  /** The three parts of what `StartedClientIsAccepted` assumes of a run. */
  ghost predicate WholeStory(cfg: Config, u: SignUp, v: Visit)
    requires HonestSignUp(cfg, u) && HonestVisit(cfg, v)
  {
    var s := Exec(cfg, INIT, BeforeStore(cfg, u, v) + [Run(2, false)]);
    && Starting(cfg, Exec(cfg, INIT, OwnStart(cfg, u, v)), 1, v.id, u)
    && Registering(cfg, Exec(cfg, INIT, BeforeStore(cfg, u, v)), 2, v.id, u)
    && NoneStored(cfg, s, [], v.id) && OwnVisitHappens(cfg, v, s)
  }

  /** For every client there is such a run from the start. */
  lemma StoryHappens(cfg: Config, u: SignUp, v: Visit)
    requires HonestSignUp(cfg, u) && HonestVisit(cfg, v) && v.password == u.password
    requires Unused(v, Exec(cfg, INIT, BeforeStore(cfg, u, v) + [Run(2, false)]))
    requires TokenFrom(cfg, v, Exec(cfg, INIT, BeforeStore(cfg, u, v) + [Run(2, false)]))
    ensures WholeStory(cfg, u, v)
  {
    StartPasses(cfg, u, v);
    StoreComes(cfg, u, v);
    StoreIsCoherent(cfg, u, v);
    var s := Exec(cfg, INIT, BeforeStore(cfg, u, v) + [Run(2, false)]);
    VisitCanHappen(cfg, v, s, Of(s.st.envelopes, v.id)[0]);
  }

  lemma FirstKeyWritten(cfg: Config, s: State, id: UserId)
    requires 1 in s.threads && PastCheck(s.threads[1], id)
    ensures
      var s' := Step(cfg, s, Run(1, false));
      Of(s'.st.requests, id) != [] && s'.threads.Keys == s.threads.Keys && s'.st.secrets == s.st.secrets
  {
  }

  lemma SecretsStay(cfg: Config, s: State, tid: nat)
    requires tid in s.threads && s.threads[tid].FinReg1?
    ensures
      var s' := Step(cfg, s, Run(tid, false));
      s'.st.secrets == s.st.secrets && s'.threads.Keys == s.threads.Keys
  {
  }
}
