/** Each request handler as a small program: between two calls to the database
    it computes locally, and after each reply it either has one more call to
    make or an answer. The same programs run over either storage. */
module Handlers {
  import opened Encoding
  import opened Suite
  import opened Client
  import opened Storage
  import opened Redis

  datatype Config = Config(c: Suite, privS: Block, sdkVersion: string)

  const SESSION_TTL := 15 * 60 * 1000

  /** One request, with the random choices its handler will make. */
  datatype Request =
    | StartRegistration(id: UserId, evalReq: seq<nat>, kU: nat)
    | FinalizeRegistration(id: UserId, reg: Registration)
    | StartAuthentication(id: UserId, evalReq: seq<nat>, nonce: Bytes, coin: nat)
    | FinalizeAuthentication(id: UserId, token: string)
    | CheckCredentials(id: UserId, secret: string, token: string)
    | SetSecret(app: string, secret: string)

  datatype Response =
    | Evaluated(eval: seq<nat>)
    | LoginStarted(eval: seq<nat>, envU: Bytes, envUNonce: Bytes, rwdUSalt: Bytes, authNonce: Bytes)
    | Accepted
    | Credentials(username: string, createdAt: nat, sdkVersion: string, expiresAt: nat)
    | Rejected(status: nat, meta: string)

  datatype Thread =
    | StartReg0(id: UserId, evalReq: seq<nat>, kU: nat)
    | StartReg1(id: UserId, evalReq: seq<nat>, kU: nat)
    | FinReg0(id: UserId, reg: Registration)
    | FinReg1(id: UserId, reg: Registration, key: Bytes)
    | StartAuth0(id: UserId, evalReq: seq<nat>, nonce: Bytes, coin: nat)
    | StartAuth1(id: UserId, eval: seq<nat>, env: UserEnvelope, nonce: Bytes, coin: nat)
    | StartAuth2(id: UserId, eval: seq<nat>, env: UserEnvelope, nonce: Bytes)
    | FinAuth0(id: UserId, token: string)
    | FinAuth1(id: UserId, token: string)
    | FinAuth2(id: UserId, token: string, env: UserEnvelope)
    | Check0(id: UserId, secret: string, token: string)
    | Check1(id: UserId, token: string)
    | Secret0(app: string, secret: string)
    | Finished(app: string, response: Response)

  const BAD_EVALUATION := Rejected(400, "request failed to evaluate")
  const BAD_TOKEN := Rejected(400, "while checking session token")
  const NOT_SAVED := Rejected(500, "while saving session token")
  const BAD_SECRET := Rejected(500, "while checking app secret")
  const WRONG_SECRET := Rejected(401, "App secret is invalid")
  const WRONG_TOKEN := Rejected(401, "Session token is invalid")

  function AppOfRequest(r: Request): string {
    if r.SetSecret? then r.app else r.id.app
  }

  function AppOfThread(th: Thread): string {
    if th.Secret0? || th.Finished? then th.app else th.id.app
  }

  // ---------------------------------------------------------------------- tokens

  function TokenBytes(token: string): Bytes {
    HexDecode(token).bytes
  }

  predicate WellFormedToken(token: string) {
    HexDecode(token).ok && |TokenBytes(token)| == TOKEN_LENGTH
  }

  function NonceOf(token: string): Bytes
    requires WellFormedToken(token)
  {
    TokenBytes(token)[..NONCE_LENGTH]
  }

  function KeyPart(token: string): Bytes
    requires WellFormedToken(token)
  {
    TokenBytes(token)[NONCE_LENGTH..]
  }

  /** The comparison the server makes against an envelope. */
  predicate Matches(cfg: Config, token: string, env: UserEnvelope)
    requires WellFormedToken(token)
  {
    ServerKey(cfg.c, cfg.privS, env.pubU, NonceOf(token)) == Some(KeyPart(token))
  }

  /** A key part belongs to one nonce: put behind another one it does not match the
      same envelope, unless the derivations at hand collide. */
  lemma KeyPartBindsNonce(cfg: Config, token: string, token': string, env: UserEnvelope)
    requires WellFormedToken(token) && WellFormedToken(token') && KeyPart(token) == KeyPart(token')
    requires Matches(cfg, token, env)
    requires
      var shared := SharedKey(cfg.c, cfg.privS, Fit32(env.pubU));
      shared.Some? ==> NoKeyCollision(cfg.c, shared.value, NonceOf(token), shared.value, NonceOf(token'))
    ensures Matches(cfg, token', env) <==> NonceOf(token) == NonceOf(token')
  {
    ServerKeyBindsNonce(cfg.c, cfg.privS, env.pubU, NonceOf(token), NonceOf(token'));
  }

  function Sealed(reg: Registration, key: Bytes): UserEnvelope {
    UserEnvelope(reg.pubU, reg.envU, reg.envUNonce, reg.salt, key)
  }

  function RegistrationIn(env: UserEnvelope): Registration {
    Registration(env.envU, env.envUNonce, env.pubU, env.rwdUSalt)
  }

  // -------------------------------------------------------------------- programs

  function Start(r: Request): Thread {
    match r
    case StartRegistration(id, evalReq, kU) => StartReg0(id, evalReq, kU)
    case FinalizeRegistration(id, reg) => FinReg0(id, reg)
    case StartAuthentication(id, evalReq, nonce, coin) => StartAuth0(id, evalReq, nonce, coin)
    case FinalizeAuthentication(id, token) =>
      if !HexDecode(token).ok then Finished(id.app, Rejected(400, "session token is bad"))
      else if |TokenBytes(token)| != TOKEN_LENGTH then Finished(id.app, BAD_TOKEN)
      else FinAuth0(id, token)
    case CheckCredentials(id, secret, token) => Check0(id, secret, token)
    case SetSecret(app, secret) => Secret0(app, secret)
  }

  function NextCall(th: Thread): Call
    requires !th.Finished?
  {
    match th
    case StartReg0(id, _, _) => HasRequest(id)
    case StartReg1(id, _, kU) => PutRequest(id, UserRequest(MarshalScalar(kU)))
    case FinReg0(id, _) => GetRequest(id)
    case FinReg1(id, reg, key) => PutEnvelope(id, Sealed(reg, key))
    case StartAuth0(id, _, _, _) => GetEnvelope(id)
    case StartAuth1(id, _, _, nonce, _) => PushNonce(id, nonce)
    case StartAuth2(id, _, _, _) => TrimNonces(id)
    case FinAuth0(id, _) => ListNonces(id)
    case FinAuth1(id, _) => GetEnvelope(id)
    case FinAuth2(id, token, _) => PutSession(id, token, SESSION_TTL)
    case Check0(id, _, _) => GetSecret(id.app)
    case Check1(id, _) => GetSession(id)
    case Secret0(app, secret) => PutSecret(app, secret)
  }

  function LoginResponse(eval: seq<nat>, env: UserEnvelope, nonce: Bytes): Response {
    LoginStarted(eval, env.envU, env.envUNonce, env.rwdUSalt, nonce)
  }

  /** In whole seconds. */
  function CredentialsAt(cfg: Config, id: UserId, now: nat): Response {
    Credentials(id.user, now / 1000, cfg.sdkVersion, (now + SESSION_TTL) / 1000)
  }

  function Resume(cfg: Config, now: nat, th: Thread, reply: Reply): Thread
    requires !th.Finished?
  {
    match th
    case StartReg0(id, evalReq, kU) =>
      (match reply
       case Flag(true) => Finished(id.app, Rejected(403, "User already registered"))
       case Flag(false) => StartReg1(id, evalReq, kU)
       case _ => Finished(id.app, BAD_EVALUATION))
    case StartReg1(id, evalReq, kU) =>
      Finished(id.app, if reply.Done? then Evaluated(Evaluate(cfg.c, kU, evalReq)) else BAD_EVALUATION)
    case FinReg0(id, reg) =>
      (match reply
       case RequestIs(request) => FinReg1(id, reg, request.key)
       case _ => Finished(id.app, Rejected(500, "Failed to store user data")))
    case FinReg1(id, _, _) =>
      Finished(id.app, if reply.Done? then Accepted else Rejected(500, "Failed to store user data"))
    case StartAuth0(id, evalReq, nonce, coin) =>
      (match reply
       case EnvelopeIs(env) =>
         (match UnmarshalScalar(cfg.c, env.key)
          case Ok(k) => StartAuth1(id, Evaluate(cfg.c, k, evalReq), env, nonce, coin)
          case Err(_) => Finished(id.app, BAD_EVALUATION))
       case _ => Finished(id.app, BAD_EVALUATION))
    case StartAuth1(id, eval, env, nonce, coin) =>
      if !reply.Done? then Finished(id.app, BAD_EVALUATION)
      else if coin == 0 then StartAuth2(id, eval, env, nonce)
      else Finished(id.app, LoginResponse(eval, env, nonce))
    case StartAuth2(id, eval, env, nonce) =>
      Finished(id.app, if reply.Done? then LoginResponse(eval, env, nonce) else BAD_EVALUATION)
    case FinAuth0(id, token) =>
      if WellFormedToken(token) && reply.EntriesAre? && Listed(reply.entries, NonceOf(token)) then FinAuth1(id, token)
      else Finished(id.app, BAD_TOKEN)
    case FinAuth1(id, token) =>
      if WellFormedToken(token) && reply.EnvelopeIs? && Matches(cfg, token, reply.envelope)
      then FinAuth2(id, token, reply.envelope)
      else Finished(id.app, BAD_TOKEN)
    case FinAuth2(id, _, _) =>
      Finished(id.app, if reply.Done? then Accepted else NOT_SAVED)
    case Check0(id, secret, token) =>
      if !reply.TextIs? then Finished(id.app, BAD_SECRET)
      else if reply.text != secret then Finished(id.app, WRONG_SECRET)
      else Check1(id, token)
    case Check1(id, token) =>
      Finished(id.app,
        if !reply.TextIs? then BAD_SECRET
        else if reply.text != token then WRONG_TOKEN
        else CredentialsAt(cfg, id, now))
    case Secret0(app, _) => Finished(app, if reply.Done? then Accepted else Rejected(500, ""))
  }

  // A list of faults says of each call in turn whether the connection fails;
  // after its end all calls go through.

  function HeadFault(faults: seq<bool>): bool {
    faults != [] && faults[0]
  }

  function TailFaults(faults: seq<bool>): seq<bool> {
    if faults == [] then [] else faults[1..]
  }

  /** How many calls a program has left at most. */
  function Remaining(th: Thread): nat {
    match th
    case Finished(_, _) => 0
    case StartAuth0(_, _, _, _) => 3
    case FinAuth0(_, _) => 3
    case StartReg0(_, _, _) => 2
    case FinReg0(_, _) => 2
    case StartAuth1(_, _, _, _, _) => 2
    case FinAuth1(_, _) => 2
    case Check0(_, _, _) => 2
    case _ => 1
  }

  /** Every handler answers after at most three calls, whatever is replied. */
  lemma ResumeGetsCloser(cfg: Config, now: nat, th: Thread, reply: Reply)
    requires !th.Finished?
    ensures Remaining(Resume(cfg, now, th, reply)) < Remaining(th) <= 3
  {
  }

  lemma ThreadKeepsApp(cfg: Config, now: nat, th: Thread, reply: Reply)
    requires !th.Finished?
    ensures AppOf(SlotOf(NextCall(th))) == AppOfThread(th) == AppOfThread(Resume(cfg, now, th, reply))
  {
  }

  // -------------------------------------------------------------- what answers say

  /** The HTTP status of an answer. */
  function StatusOf(r: Response): nat {
    if r.Rejected? then r.status else 200
  }

  /** The statuses a program can still come to. */
  function Statuses(th: Thread): set<nat> {
    match th
    case StartReg0(_, _, _) => {200, 400, 403}
    case StartReg1(_, _, _) => {200, 400}
    case FinReg0(_, _) => {200, 500}
    case FinReg1(_, _, _) => {200, 500}
    case StartAuth0(_, _, _, _) => {200, 400}
    case StartAuth1(_, _, _, _, _) => {200, 400}
    case StartAuth2(_, _, _, _) => {200, 400}
    case FinAuth0(_, _) => {200, 400, 500}
    case FinAuth1(_, _) => {200, 400, 500}
    case FinAuth2(_, _, _) => {200, 500}
    case Check0(_, _, _) => {200, 401, 500}
    case Check1(_, _) => {200, 401, 500}
    case Secret0(_, _) => {200, 500}
    case Finished(_, response) => {StatusOf(response)}
  }

  /** Every reply leaves some of the statuses, and a refusal is never a 200. */
  lemma ResumeStatuses(cfg: Config, now: nat, th: Thread, reply: Reply)
    requires !th.Finished?
    ensures
      var th' := Resume(cfg, now, th, reply);
      && Statuses(th') <= Statuses(th)
      && (th'.Finished? ==> (StatusOf(th'.response) == 200 <==> !th'.response.Rejected?))
  {
  }

  /** What a successful check reports: the user, the second it was made in, the
      version and an end fifteen minutes after. */
  lemma CredentialsTell(cfg: Config, id: UserId, now: nat)
    ensures
      var r := CredentialsAt(cfg, id, now);
      && r.username == id.user && r.sdkVersion == cfg.sdkVersion
      && r.createdAt * 1000 <= now < (r.createdAt + 1) * 1000 && r.expiresAt == r.createdAt + 900
  {
  }
}
