/** The whole protocol with every step of the client taken through the bindings
    and every piece of data through its message. */
module Messages {
  import opened Encoding
  import opened Suite
  import opened Client
  import opened Storage
  import opened Handlers
  import opened Machine
  import opened Login
  import opened Completeness
  import opened Wire
  import opened Bindings

  /** A client's first message for a password. */
  function FirstMessage(cfg: Config, id: UserId, password: Bytes, blind: nat): Result<OprfRequestJson> {
    MakeOprfRequestJson(cfg.c, id.app, id.user, password, blind)
  }

  /** What the server takes from a first message. */
  function ServerReads(cfg: Config, message: OprfRequestJson): OprfRequestFields {
    OprfRequestFromJson(cfg.c, NO_REQUEST, message).0
  }

  function AnswerMessage(r: Response): LoginJson
    requires r.LoginStarted?
  {
    LoginToJson(LoginFields(r.eval, r.envU, r.envUNonce, r.rwdUSalt, r.authNonce))
  }

  function ServerKeyText(cfg: Config): string {
    HexEncode(KeyGen(cfg.c, cfg.privS))
  }

  ghost predicate Named(id: UserId, password: Bytes) {
    id.user != "" && password != []
  }

  lemma FirstMessageIsRead(cfg: Config, id: UserId, password: Bytes, blind: nat)
    requires cfg.c.Lawful() && blind < cfg.c.oprf.q && Named(id, password)
    requires MakeOprfRequest(cfg.c, password, blind).Ok?
    ensures
      var fin := MakeOprfRequest(cfg.c, password, blind).value;
      var fields := RequestFields(cfg.c, id.app, id.user, password, fin);
      var message := FirstMessage(cfg, id, password, blind);
      && message == OprfRequestToJson(fields) && message.Ok? && ServerReads(cfg, message.value) == fields
      && Consistent(cfg.c, fields) && InRange(cfg.c, fields.finData.value.blinds)
  {
    ServerReadsClientRequest(cfg.c, id.app, id.user, password, blind, NO_REQUEST);
  }

  // ----------------------------------------------------------------- registration

  /** What the server reads in the registration message of this client. */
  function RegistrationRead(cfg: Config, id: UserId, u: SignUp): Result<Registration>
    requires FirstMessage(cfg, id, u.password, u.blind).Ok?
  {
    var message := FirstMessage(cfg, id, u.password, u.blind).value;
    var evalReq := ServerReads(cfg, message).evalReq;
    if evalReq.None? then Err(Panicked)
    else
      var evaluation := EvaluationJson(HexAll(Compressed(Evaluate(cfg.c, u.kU, evalReq.value))));
      match RegistrationAnswer(cfg.c, id.app, id.user, message, evaluation, ServerKeyText(cfg), u.f)
      case Err(e) => Err(e)
      case Ok(json) =>
        var (read, error) := RegistrationFromJson(RegistrationFields("", "", [], [], [], []), json);
        if error.Some? then Err(error.value) else Ok(Registration(read.envU, read.envUNonce, read.pubU, read.salt))
  }

  lemma RegistrationReadIsData(cfg: Config, id: UserId, u: SignUp)
    requires HonestSignUp(cfg, u) && Named(id, u.password)
    ensures FirstMessage(cfg, id, u.password, u.blind).Ok?
    ensures RegistrationRead(cfg, id, u) == RegistrationData(cfg, u) && RegistrationData(cfg, u).Ok?
  {
    FirstMessageIsRead(cfg, id, u.password, u.blind);
    SealedIsCoherent(cfg, u);
    var fin := MakeOprfRequest(cfg.c, u.password, u.blind).value;
    var fields := RequestFields(cfg.c, id.app, id.user, u.password, fin);
    EvaluationsStayInGroup(cfg.c, [PasswordInput(cfg.c, u.password)], [u.blind], u.kU);
    BindingsPreserveRegistration(cfg.c, fields, Evaluate(cfg.c, u.kU, fin.evalReq), KeyGen(cfg.c, cfg.privS),
      id.app, id.user, u.f, RegistrationFields("", "", [], [], [], []));
  }

  // ------------------------------------------------------------------------ login

  /** The text the login binding returns for the server's answer. */
  function BindingToken(cfg: Config, v: Visit, answer: Response): Result<string>
    requires answer.LoginStarted? && FirstMessage(cfg, v.id, v.password, v.blind).Ok?
  {
    var message := FirstMessage(cfg, v.id, v.password, v.blind).value;
    LoginAnswer(cfg.c, message, AnswerMessage(answer), ServerKeyText(cfg), v.draw)
  }

  lemma BindingTokenIsClientToken(cfg: Config, v: Visit, answer: Response)
    requires HonestVisit(cfg, v) && Named(v.id, v.password)
    requires answer.LoginStarted? && InGroup(cfg.c, answer.eval)
    ensures FirstMessage(cfg, v.id, v.password, v.blind).Ok?
    ensures
      var token := ClientToken(cfg.c, v, answer);
      var text := BindingToken(cfg, v, answer);
      (token.Ok? <==> text.Ok?) && (token.Ok? ==> text.value == HexEncode(token.value))
  {
    FirstMessageIsRead(cfg, v.id, v.password, v.blind);
    HexRoundTrip(KeyGen(cfg.c, cfg.privS));
    var fin := MakeOprfRequest(cfg.c, v.password, v.blind).value;
    BindingsPreserveToken(cfg.c, RequestFields(cfg.c, v.id.app, v.id.user, v.password, fin),
      LoginFields(answer.eval, answer.envU, answer.envUNonce, answer.rwdUSalt, answer.authNonce),
      ServerKeyText(cfg), v.draw);
  }

  /** The token in the finalize request is what the binding returned. */
  ghost predicate TokenFromMessages(cfg: Config, v: Visit, s: State)
    requires FirstMessage(cfg, v.id, v.password, v.blind).Ok?
    requires v.login in s.threads && s.threads[v.login].Finished?
  {
    var answer := s.threads[v.login].response;
    answer.LoginStarted? && BindingToken(cfg, v, answer).Ok? ==> v.token == BindingToken(cfg, v, answer).value
  }

  lemma MessagesGiveToken(cfg: Config, v: Visit, s: State, logging: seq<Action>, finalizing: seq<Action>,
                          env: UserEnvelope)
    requires HonestVisit(cfg, v) && Named(v.id, v.password) && LoginHappens(cfg, v, s, logging)
    requires FinalizeHappens(cfg, v, AfterLogin(cfg, v, s, logging), finalizing)
    requires
      var s5 := AfterFinalize(cfg, v, AfterLogin(cfg, v, s, logging), finalizing);
      |Of(s5.st.envelopes, v.id)| == |Of(s.st.envelopes, v.id)|
    requires Current(s.st.envelopes, v.id, env) && UnmarshalScalar(cfg.c, env.key).Ok?
    requires FirstMessage(cfg, v.id, v.password, v.blind).Ok?
    requires TokenFromMessages(cfg, v, AfterLogin(cfg, v, s, logging))
    ensures TokenFromAnswer(cfg, v, AfterLogin(cfg, v, s, logging))
  {
    EnvelopeStaysInLogin(cfg, v, s, logging, finalizing);
    LoginIsAnswered(cfg, v, s, logging, env);
    var k := UnmarshalScalar(cfg.c, env.key).value;
    EvaluationsStayInGroup(cfg.c, [PasswordInput(cfg.c, v.password)], [v.blind], k);
    BindingTokenIsClientToken(cfg, v, AfterLogin(cfg, v, s, logging).threads[v.login].response);
  }

  // --------------------------------------------------------------- the whole story

  /** The registration the server read is about to be stored with the very key
      that evaluated its first message. */
  ghost predicate AboutToStoreRead(cfg: Config, s: State, tid: nat, id: UserId, u: SignUp)
    requires FirstMessage(cfg, id, u.password, u.blind).Ok?
  {
    var read := RegistrationRead(cfg, id, u);
    read.Ok? && tid in s.threads && s.threads[tid] == FinReg1(id, read.value, MarshalScalar(u.kU))
  }

  /** Completeness through the messages: the server evaluates what it reads in the
      first messages, stores what it reads in the registration message, and the
      token is the text the binding returns. On the flat database and for every
      schedule the client logs in and has its token accepted. */
  lemma RegisteredThroughMessages(cfg: Config, u: SignUp, tid: nat, v: Visit, before: seq<Action>, between: seq<Action>,
                                  logging: seq<Action>, finalizing: seq<Action>, checking: seq<Action>)
    requires HonestSignUp(cfg, u) && HonestVisit(cfg, v) && v.password == u.password && Named(v.id, v.password)
    requires FirstMessage(cfg, v.id, u.password, u.blind).Ok? && FirstMessage(cfg, v.id, v.password, v.blind).Ok?
    requires AboutToStoreRead(cfg, Exec(cfg, INIT, before), tid, v.id, u)
    requires NoneStored(cfg, Exec(cfg, INIT, before + [Run(tid, false)]), between, v.id)
    requires
      var s := Exec(cfg, INIT, before + [Run(tid, false)] + between);
      VisitRuns(cfg, v, s, logging, finalizing, checking) && TokenFromMessages(cfg, v, AfterLogin(cfg, v, s, logging))
    requires
      PlainActions(before + [Run(tid, false)] + between
                   + LoginPart(cfg, v, logging) + FinalizePart(v, finalizing) + CheckPart(v, checking))
    ensures ServerReads(cfg, FirstMessage(cfg, v.id, v.password, v.blind).value).evalReq == Some(EvalReq(cfg.c, v))
    ensures
      VisitAccepted(cfg, v,
                    before + [Run(tid, false)] + between + LoginPart(cfg, v, logging) + FinalizePart(v, finalizing),
                    CheckPart(v, checking))
  {
    FirstMessageIsRead(cfg, v.id, v.password, v.blind);
    RegistrationReadIsData(cfg, v.id, u);
    var env := StoredEnvelope(cfg, u, tid, v.id, before, between);
    MessagesGiveToken(cfg, v, Exec(cfg, INIT, before + [Run(tid, false)] + between), logging, finalizing, env);
    RegisteredClientIsAccepted(cfg, u, tid, v, before, between, logging, finalizing, checking);
  }
}
