/** End-to-end completeness: the right password always logs in, whatever else
    the system is doing. */
module Login {
  import opened Encoding
  import opened Suite
  import opened Client
  import opened Storage
  import opened Handlers
  import opened Machine
  import opened Sessions

  /** The stored envelope opens under its own key, salt and this password to a
      private key matching its public key, and the two shared keys exist. */
  ghost predicate CoherentEnvelope(cfg: Config, env: UserEnvelope, password: Bytes) {
    var k := UnmarshalScalar(cfg.c, env.key);
    && k.Ok?
    && Coherent(cfg.c, KeyGen(cfg.c, cfg.privS), k.value, RegistrationIn(env), password)
    && SharedKey(cfg.c, cfg.privS, Fit32(env.pubU)).Some?
  }

  ghost predicate Current<K, T>(m: map<K, seq<T>>, id: K, x: T) {
    Of(m, id) != [] && Of(m, id)[0] == x
  }

  predicate NoFaults(acts: seq<Action>, tid: nat) {
    forall i :: 0 <= i < |acts| && acts[i].Run? && acts[i].tid == tid ==> !acts[i].fault
  }

  // ------------------------------------------------------------- the login's answer

  /** How far a login handler has come while the envelope stayed the same; only
      one of whose calls some failed can have given up. */
  ghost predicate LoginUnderWay(cfg: Config, th: Thread, id: UserId, evalReq: seq<nat>, nonce: Bytes,
                                env: UserEnvelope, healthy: bool)
    requires UnmarshalScalar(cfg.c, env.key).Ok?
  {
    var eval := Evaluate(cfg.c, UnmarshalScalar(cfg.c, env.key).value, evalReq);
    match th
    case StartAuth0(id', evalReq', nonce', _) => id' == id && evalReq' == evalReq && nonce' == nonce
    case StartAuth1(id', eval', env', nonce', _) => id' == id && eval' == eval && env' == env && nonce' == nonce
    case StartAuth2(id', eval', env', nonce') => id' == id && eval' == eval && env' == env && nonce' == nonce
    case Finished(_, response) =>
      response == LoginResponse(eval, env, nonce) || (!healthy && response == BAD_EVALUATION)
    case _ => false
  }

  lemma StepKeepsLogin(cfg: Config, s: State, a: Action, tid: nat, id: UserId, evalReq: seq<nat>, nonce: Bytes,
                       env: UserEnvelope, healthy: bool)
    requires UnmarshalScalar(cfg.c, env.key).Ok? && Current(s.st.envelopes, id, env)
    requires tid in s.threads && LoginUnderWay(cfg, s.threads[tid], id, evalReq, nonce, env, healthy)
    requires healthy && a.Run? && a.tid == tid ==> !a.fault
    ensures
      var s' := Step(cfg, s, a);
      tid in s'.threads && LoginUnderWay(cfg, s'.threads[tid], id, evalReq, nonce, env, healthy)
  {
  }

  lemma SameLengthSameHistory<T>(a: seq<T>, b: seq<T>)
    requires IsSuffix(a, b) && |a| == |b|
    ensures a == b
  {
    assert b[..0] == [];
  }

  lemma EnvelopesStep(cfg: Config, s: State, a: Action, id: UserId)
    ensures IsSuffix(Of(s.st.envelopes, id), Of(Step(cfg, s, a).st.envelopes, id))
  {
    StepGrowsFor(cfg, s, a, id);
  }

  lemma EnvelopesRun(cfg: Config, s: State, acts: seq<Action>, id: UserId)
    ensures |Of(s.st.envelopes, id)| <= |Of(Exec(cfg, s, acts).st.envelopes, id)|
  {
    RunGrowsFor(cfg, s, acts, id);
  }

  /** If a run ends with as many envelopes as it began with, the current one
      was the same all along. */
  lemma EnvelopeStays(cfg: Config, s: State, acts: seq<Action>, id: UserId)
    requires acts != []
    requires |Of(Exec(cfg, s, acts).st.envelopes, id)| == |Of(s.st.envelopes, id)|
    ensures Of(Step(cfg, s, acts[0]).st.envelopes, id) == Of(s.st.envelopes, id)
  {
    EnvelopesStep(cfg, s, acts[0], id);
    EnvelopesRun(cfg, Step(cfg, s, acts[0]), acts[1..], id);
    SameLengthSameHistory(Of(s.st.envelopes, id), Of(Step(cfg, s, acts[0]).st.envelopes, id));
  }

  /** In every run that stores no envelope a login handler keeps to its envelope:
      it answers with that and an evaluation under its key, and if none of its
      own calls failed with nothing else. */
  lemma {:induction false} RunKeepsLogin(cfg: Config, s: State, acts: seq<Action>, tid: nat, id: UserId,
                                         evalReq: seq<nat>, nonce: Bytes, env: UserEnvelope, healthy: bool)
    requires UnmarshalScalar(cfg.c, env.key).Ok? && Current(s.st.envelopes, id, env)
    requires |Of(Exec(cfg, s, acts).st.envelopes, id)| == |Of(s.st.envelopes, id)|
    requires tid in s.threads && LoginUnderWay(cfg, s.threads[tid], id, evalReq, nonce, env, healthy)
    requires healthy ==> NoFaults(acts, tid)
    ensures
      var s' := Exec(cfg, s, acts);
      && Of(s'.st.envelopes, id) == Of(s.st.envelopes, id)
      && tid in s'.threads && LoginUnderWay(cfg, s'.threads[tid], id, evalReq, nonce, env, healthy)
    decreases |acts|
  {
    if acts != [] {
      EnvelopeStays(cfg, s, acts, id);
      StepKeepsLogin(cfg, s, acts[0], tid, id, evalReq, nonce, env, healthy);
      NoFaultsTail(acts, tid);
      RunKeepsLogin(cfg, Step(cfg, s, acts[0]), acts[1..], tid, id, evalReq, nonce, env, healthy);
    }
  }

  lemma NoFaultsTail(acts: seq<Action>, tid: nat)
    requires acts != []
    ensures NoFaults(acts, tid) ==> NoFaults(acts[1..], tid)
  {
    assert forall i :: 0 <= i < |acts[1..]| ==> acts[1..][i] == acts[i + 1];
  }

  // ------------------------------------------------------- the finalize is accepted

  /** `issued` pushes had been made when this nonce was the newest. */
  ghost predicate IssuedAs(st: Histories, id: UserId, nonce: Bytes, issued: nat) {
    var h := Of(st.nonces, id);
    0 < issued <= |h| && h[|h| - issued] == nonce
  }

  ghost predicate FinalizeUnderWay(th: Thread, id: UserId, token: string, env: UserEnvelope) {
    th == FinAuth0(id, token) || th == FinAuth1(id, token) || th == FinAuth2(id, token, env)
  }

  lemma IssuedAsGrows(st: Histories, st': Histories, id: UserId, nonce: Bytes, issued: nat)
    requires IssuedAs(st, id, nonce, issued) && GrowsFor(st, st', id)
    ensures IssuedAs(st', id, nonce, issued)
  {
    var h, h' := Of(st.nonces, id), Of(st'.nonces, id);
    assert (h'[..|h'| - |h|] + h)[|h'| - issued] == h[|h| - issued];
  }

  /** While at most twenty later nonces were issued and the envelope is the
      same, a healthy step of the finalize handler brings it forward or to
      success, and in the latter case the token is the live session. */
  lemma StepKeepsFinalize(cfg: Config, s: State, a: Action, tid: nat, id: UserId, token: string,
                          env: UserEnvelope, issued: nat)
    requires WellFormedToken(token) && Matches(cfg, token, env)
    requires Current(s.st.envelopes, id, env)
    requires IssuedAs(s.st, id, NonceOf(token), issued) && |Of(s.st.nonces, id)| <= issued + 20
    requires tid in s.threads && FinalizeUnderWay(s.threads[tid], id, token, env)
    requires a.Run? && a.tid == tid ==> !a.fault
    ensures
      var s' := Step(cfg, s, a);
      || FinalizeUnderWay(s'.threads[tid], id, token, env)
      || (&& s'.threads[tid] == Finished(id.app, Accepted)
          && Of(s'.st.sessions, id) == [Session(token, s.now + SESSION_TTL)] + Of(s.st.sessions, id)
          && s'.now == s.now)
  {
    if a.Run? && a.tid == tid {
      NonceStillListed(s.st, id, NonceOf(token), issued);
      match s.threads[tid] {
        case FinAuth0(_, _) => FinalizeLists(cfg, s, tid, id, token);
        case FinAuth1(_, _) => FinalizeReads(cfg, s, tid, id, token, env);
        case FinAuth2(_, _, _) => FinalizeStores(cfg, s, tid, id, token, env);
      }
    } else {
      OthersKeepThread(cfg, s, a, tid);
    }
  }

  lemma FinalizeLists(cfg: Config, s: State, tid: nat, id: UserId, token: string)
    requires WellFormedToken(token) && Listed(HexAll(Window(Of(s.st.nonces, id))), NonceOf(token))
    requires tid in s.threads && s.threads[tid] == FinAuth0(id, token)
    ensures Step(cfg, s, Run(tid, false)) == s.(threads := s.threads[tid := FinAuth1(id, token)])
  {
  }

  lemma FinalizeReads(cfg: Config, s: State, tid: nat, id: UserId, token: string, env: UserEnvelope)
    requires WellFormedToken(token) && Matches(cfg, token, env) && Current(s.st.envelopes, id, env)
    requires tid in s.threads && s.threads[tid] == FinAuth1(id, token)
    ensures Step(cfg, s, Run(tid, false)) == s.(threads := s.threads[tid := FinAuth2(id, token, env)])
  {
  }

  lemma FinalizeStores(cfg: Config, s: State, tid: nat, id: UserId, token: string, env: UserEnvelope)
    requires tid in s.threads && s.threads[tid] == FinAuth2(id, token, env)
    ensures
      var s' := Step(cfg, s, Run(tid, false));
      && s'.threads[tid] == Finished(id.app, Accepted) && s'.now == s.now
      && Of(s'.st.sessions, id) == [Session(token, s.now + SESSION_TTL)] + Of(s.st.sessions, id)
  {
  }

  lemma TwoTurnsCompare(cfg: Config, s: State, tid: nat, id: UserId, token: string, env: UserEnvelope)
    requires WellFormedToken(token) && Matches(cfg, token, env)
    requires tid in s.threads && s.threads[tid] == FinAuth0(id, token)
    requires Current(s.st.envelopes, id, env) && NonceOf(token) in Window(Of(s.st.nonces, id))
    ensures Step(cfg, Step(cfg, s, Run(tid, false)), Run(tid, false))
         == s.(threads := s.threads[tid := FinAuth2(id, token, env)])
  {
    ListedIsMembership(Window(Of(s.st.nonces, id)), NonceOf(token));
    FinalizeLists(cfg, s, tid, id, token);
    var s1 := s.(threads := s.threads[tid := FinAuth1(id, token)]);
    FinalizeReads(cfg, s1, tid, id, token, env);
    assert s1.threads[tid := FinAuth2(id, token, env)] == s.threads[tid := FinAuth2(id, token, env)];
  }

  lemma NonceStillListed(st: Histories, id: UserId, nonce: Bytes, issued: nat)
    requires IssuedAs(st, id, nonce, issued) && |Of(st.nonces, id)| <= issued + 20
    ensures Listed(HexAll(Window(Of(st.nonces, id))), nonce)
  {
    var h := Of(st.nonces, id);
    WindowIsTwentyOne(h);
    assert Window(h)[|h| - issued] == nonce;
    ListedIsMembership(Window(h), nonce);
  }

  /** What holds of the finalize handler, and of the rest of its run. */
  ghost predicate FinalizeAhead(cfg: Config, s: State, acts: seq<Action>, tid: nat, id: UserId, token: string,
                                env: UserEnvelope, issued: nat)
  {
    var s' := Exec(cfg, s, acts);
    && Current(s.st.envelopes, id, env) && |Of(s'.st.envelopes, id)| == |Of(s.st.envelopes, id)|
    && IssuedAs(s.st, id, NonceOfToken(token), issued) && |Of(s'.st.nonces, id)| <= issued + 20
    && tid in s.threads && FinalizeUnderWay(s.threads[tid], id, token, env)
    && tid in s'.threads && !s'.threads[tid].Finished?
  }

  function NonceOfToken(token: string): Bytes {
    if WellFormedToken(token) then NonceOf(token) else []
  }

  /** The parts of a run between its first step and its end. */
  lemma FirstStep(cfg: Config, s: State, acts: seq<Action>, tid: nat, id: UserId)
    requires acts != [] && tid in s.threads
    ensures
      var m, s' := Step(cfg, s, acts[0]), Exec(cfg, s, acts);
      && s' == Exec(cfg, m, acts[1..])
      && |Of(s.st.nonces, id)| <= |Of(m.st.nonces, id)| <= |Of(s'.st.nonces, id)|
      && tid in m.threads && tid in s'.threads
      && (m.threads[tid].Finished? ==> s'.threads[tid].Finished?)
  {
    var m := Step(cfg, s, acts[0]);
    StepGrowsFor(cfg, s, acts[0], id);
    RunGrowsFor(cfg, m, acts[1..], id);
    RunKeepsThread(cfg, s, [acts[0]], tid);
    RunKeepsThread(cfg, m, acts[1..], tid);
  }

  lemma IssuedAsSteps(cfg: Config, s: State, a: Action, id: UserId, nonce: Bytes, issued: nat)
    requires IssuedAs(s.st, id, nonce, issued)
    ensures IssuedAs(Step(cfg, s, a).st, id, nonce, issued)
  {
    StepGrowsFor(cfg, s, a, id);
    IssuedAsGrows(s.st, Step(cfg, s, a).st, id, nonce, issued);
  }

  lemma FinalizeAheadSteps(cfg: Config, s: State, acts: seq<Action>, tid: nat, id: UserId, token: string,
                           env: UserEnvelope, issued: nat)
    requires WellFormedToken(token) && Matches(cfg, token, env)
    requires acts != [] && (acts[0].Run? && acts[0].tid == tid ==> !acts[0].fault)
    requires FinalizeAhead(cfg, s, acts, tid, id, token, env, issued)
    ensures FinalizeAhead(cfg, Step(cfg, s, acts[0]), acts[1..], tid, id, token, env, issued)
    ensures Of(Step(cfg, s, acts[0]).st.envelopes, id) == Of(s.st.envelopes, id)
  {
    FirstStep(cfg, s, acts, tid, id);
    EnvelopeStays(cfg, s, acts, id);
    IssuedAsSteps(cfg, s, acts[0], id, NonceOf(token), issued);
    StepKeepsFinalize(cfg, s, acts[0], tid, id, token, env, issued);
  }

  lemma {:induction false} RunKeepsFinalize(cfg: Config, s: State, acts: seq<Action>, tid: nat, id: UserId,
                                            token: string, env: UserEnvelope, issued: nat)
    requires WellFormedToken(token) && Matches(cfg, token, env)
    requires NoFaults(acts, tid)
    requires FinalizeAhead(cfg, s, acts, tid, id, token, env, issued)
    ensures FinalizeAhead(cfg, Exec(cfg, s, acts), [], tid, id, token, env, issued)
    ensures Of(Exec(cfg, s, acts).st.envelopes, id) == Of(s.st.envelopes, id)
    decreases |acts|
  {
    if acts != [] {
      FinalizeAheadSteps(cfg, s, acts, tid, id, token, env, issued);
      assert forall i :: 0 <= i < |acts[1..]| ==> acts[1..][i] == acts[i + 1];
      RunKeepsFinalize(cfg, Step(cfg, s, acts[0]), acts[1..], tid, id, token, env, issued);
    }
  }

  // ------------------------------------------------------ the login gets its nonce

  /** How many nonces had been issued to the user when this handler pushed its
      own in the run; none if it did not. */
  function IssueNumber(cfg: Config, s: State, acts: seq<Action>, tid: nat, id: UserId): nat
    decreases |acts|
  {
    if acts == [] then 0
    else
      var s' := Step(cfg, s, acts[0]);
      if Pushes(s, acts[0], id) && acts[0].tid == tid then |Of(s'.st.nonces, id)|
      else IssueNumber(cfg, s', acts[1..], tid, id)
  }

  predicate BeforeIssue(th: Thread, id: UserId, nonce: Bytes) {
    (th.StartAuth0? || th.StartAuth1?) && th.id == id && th.nonce == nonce
  }

  lemma StepIssues(cfg: Config, s: State, a: Action, tid: nat, id: UserId, nonce: Bytes)
    requires tid in s.threads && BeforeIssue(s.threads[tid], id, nonce)
    requires a.Run? && a.tid == tid ==> !a.fault
    ensures
      var s' := Step(cfg, s, a);
      && tid in s'.threads
      && (if Pushes(s, a, id) && a.tid == tid then IssuedAs(s'.st, id, nonce, |Of(s'.st.nonces, id)|)
          else BeforeIssue(s'.threads[tid], id, nonce)
               || (s'.threads[tid].Finished? && !s'.threads[tid].response.LoginStarted?))
  {
    if a.Run? && a.tid == tid {
      StepNonces(cfg, s, a, id);
    } else {
      OthersKeepThread(cfg, s, a, tid);
    }
  }

  /** A login answered with success in a run pushed its nonce there. */
  lemma {:induction false} RunIssues(cfg: Config, s: State, acts: seq<Action>, tid: nat, id: UserId, nonce: Bytes)
    requires tid in s.threads && BeforeIssue(s.threads[tid], id, nonce) && NoFaults(acts, tid)
    requires
      var s' := Exec(cfg, s, acts);
      tid in s'.threads && s'.threads[tid].Finished? && s'.threads[tid].response.LoginStarted?
    ensures IssuedAs(Exec(cfg, s, acts).st, id, nonce, IssueNumber(cfg, s, acts, tid, id))
    decreases |acts|
  {
    var m := Step(cfg, s, acts[0]);
    StepIssues(cfg, s, acts[0], tid, id, nonce);
    NoFaultsTail(acts, tid);
    if Pushes(s, acts[0], id) && acts[0].tid == tid {
      IssuedAsRuns(cfg, m, acts[1..], id, nonce, |Of(m.st.nonces, id)|);
    } else {
      RunKeepsThread(cfg, m, acts[1..], tid);
      RunIssues(cfg, m, acts[1..], tid, id, nonce);
    }
  }

  lemma IssuedAsRuns(cfg: Config, s: State, acts: seq<Action>, id: UserId, nonce: Bytes, issued: nat)
    requires IssuedAs(s.st, id, nonce, issued)
    ensures IssuedAs(Exec(cfg, s, acts).st, id, nonce, issued)
  {
    RunGrowsFor(cfg, s, acts, id);
    IssuedAsGrows(s.st, Exec(cfg, s, acts).st, id, nonce, issued);
  }

  // -------------------------------------------------------- the session is honoured

  ghost predicate NewerHold(h: seq<Session>, h': seq<Session>, until: nat) {
    |h| <= |h'| && forall i :: 0 <= i < |h'| - |h| ==> h'[i].expires >= until
  }

  lemma NewerHoldComposes(h: seq<Session>, m: seq<Session>, h': seq<Session>, until: nat, later: nat)
    requires NewerHold(h, m, until) && NewerHold(m, h', later) && until <= later && IsSuffix(m, h')
    ensures NewerHold(h, h', until)
  {
    forall i | |h'| - |m| <= i < |h'| - |h| ensures h'[i].expires >= until {
      assert (h'[..|h'| - |m|] + m)[i] == m[i - (|h'| - |m|)];
    }
  }

  lemma StepHolds(cfg: Config, s: State, a: Action, id: UserId)
    ensures NewerHold(Of(s.st.sessions, id), Of(Step(cfg, s, a).st.sessions, id), s.now + SESSION_TTL)
    ensures s.now <= Step(cfg, s, a).now
  {
    StepSessions(cfg, s, a, id);
  }

  /** Sessions stored later hold longer. */
  lemma {:induction false} LaterSessionsHoldLonger(cfg: Config, s: State, acts: seq<Action>, id: UserId)
    ensures NewerHold(Of(s.st.sessions, id), Of(Exec(cfg, s, acts).st.sessions, id), s.now + SESSION_TTL)
    decreases |acts|
  {
    if acts != [] {
      var m := Step(cfg, s, acts[0]);
      StepHolds(cfg, s, acts[0], id);
      LaterSessionsHoldLonger(cfg, m, acts[1..], id);
      RunGrowsFor(cfg, m, acts[1..], id);
      NewerHoldComposes(Of(s.st.sessions, id), Of(m.st.sessions, id), Of(Exec(cfg, s, acts).st.sessions, id),
        s.now + SESSION_TTL, m.now + SESSION_TTL);
    }
  }

  ghost predicate CheckUnderWay(th: Thread, id: UserId, secret: string, token: string) {
    th == Check0(id, secret, token) || th == Check1(id, token)
  }

  /** No other token was accepted for the user since. */
  ghost predicate OnlyThisToken(s: State, s': State, id: UserId, token: string) {
    var h, h' := Of(s.st.sessions, id), Of(s'.st.sessions, id);
    |h| <= |h'| && forall i :: 0 <= i < |h'| - |h| ==> h'[i].token == token
  }

  ghost predicate CheckAhead(cfg: Config, s: State, acts: seq<Action>, tid: nat, id: UserId, secret: string,
                             token: string) {
    var s' := Exec(cfg, s, acts);
    && Current(s.st.secrets, id.app, secret) && |Of(s'.st.secrets, id.app)| == |Of(s.st.secrets, id.app)|
    && tid in s.threads && CheckUnderWay(s.threads[tid], id, secret, token)
    && tid in s'.threads && !s'.threads[tid].Finished?
  }

  lemma SecretsStep(cfg: Config, s: State, a: Action, id: UserId)
    ensures IsSuffix(Of(s.st.secrets, id.app), Of(Step(cfg, s, a).st.secrets, id.app))
  {
    StepGrowsFor(cfg, s, a, id);
  }

  lemma SecretsRun(cfg: Config, s: State, acts: seq<Action>, id: UserId)
    ensures |Of(s.st.secrets, id.app)| <= |Of(Exec(cfg, s, acts).st.secrets, id.app)|
  {
    RunGrowsFor(cfg, s, acts, id);
  }

  lemma SecretStays(cfg: Config, s: State, acts: seq<Action>, id: UserId)
    requires acts != []
    requires |Of(Exec(cfg, s, acts).st.secrets, id.app)| == |Of(s.st.secrets, id.app)|
    ensures Of(Step(cfg, s, acts[0]).st.secrets, id.app) == Of(s.st.secrets, id.app)
  {
    SecretsStep(cfg, s, acts[0], id);
    SecretsRun(cfg, Step(cfg, s, acts[0]), acts[1..], id);
    SameLengthSameHistory(Of(s.st.secrets, id.app), Of(Step(cfg, s, acts[0]).st.secrets, id.app));
  }

  lemma StepKeepsCheck(cfg: Config, s: State, a: Action, tid: nat, id: UserId, secret: string, token: string)
    requires Current(s.st.secrets, id.app, secret)
    requires tid in s.threads && CheckUnderWay(s.threads[tid], id, secret, token)
    requires a.Run? && a.tid == tid ==> !a.fault
    ensures
      var s' := Step(cfg, s, a);
      tid in s'.threads && (s'.threads[tid].Finished? || CheckUnderWay(s'.threads[tid], id, secret, token))
  {
  }

  lemma {:induction false} RunKeepsCheck(cfg: Config, s: State, acts: seq<Action>, tid: nat, id: UserId,
                                         secret: string, token: string)
    requires NoFaults(acts, tid) && CheckAhead(cfg, s, acts, tid, id, secret, token)
    ensures CheckAhead(cfg, Exec(cfg, s, acts), [], tid, id, secret, token)
    decreases |acts|
  {
    if acts != [] {
      FirstStep(cfg, s, acts, tid, id);
      SecretStays(cfg, s, acts, id);
      StepKeepsCheck(cfg, s, acts[0], tid, id, secret, token);
      assert forall i :: 0 <= i < |acts[1..]| ==> acts[1..][i] == acts[i + 1];
      RunKeepsCheck(cfg, Step(cfg, s, acts[0]), acts[1..], tid, id, secret, token);
    }
  }

  // ------------------------------------------------------------ the whole visit

  /** One client logging in and having its token checked. */
  datatype Visit = Visit(
    id: UserId, password: Bytes, blind: nat, nonce: Bytes, coin: nat, draw: Block,
    token: string, secret: string, login: nat, finalize: nat, check: nat)

  function EvalReq(c: Suite, v: Visit): seq<nat>
    requires MakeOprfRequest(c, v.password, v.blind).Ok?
  {
    MakeOprfRequest(c, v.password, v.blind).value.evalReq
  }

  /** What the client computes from the answer to its login request. */
  function ClientToken(c: Suite, v: Visit, r: Response): Result<Bytes>
    requires MakeOprfRequest(c, v.password, v.blind).Ok? && r.LoginStarted?
  {
    TokenOf(c, MakeOprfRequest(c, v.password, v.blind).value, r.eval, r.envU, r.envUNonce,
      Some(r.rwdUSalt), r.authNonce, v.draw)
  }

  ghost predicate HonestVisit(cfg: Config, v: Visit) {
    && cfg.c.Lawful() && 0 < v.blind < cfg.c.oprf.q && |v.nonce| == NONCE_LENGTH
    && MakeOprfRequest(cfg.c, v.password, v.blind).Ok?
  }

  /** The three parts of a visit, each with anything else going on in it. */
  function LoginPart(cfg: Config, v: Visit, logging: seq<Action>): seq<Action>
    requires MakeOprfRequest(cfg.c, v.password, v.blind).Ok?
  {
    [Spawn(v.login, LoginRequest(cfg, v))] + logging
  }

  function FinalizePart(v: Visit, finalizing: seq<Action>): seq<Action> {
    [Spawn(v.finalize, FinalizeRequest(v))] + finalizing + [Run(v.finalize, false)]
  }

  function CheckPart(v: Visit, checking: seq<Action>): seq<Action> {
    [Spawn(v.check, CheckRequest(v))] + checking + [Run(v.check, false)]
  }

  /** The request arrives and then the rest of the system runs. */
  function Arrive(cfg: Config, s: State, tid: nat, request: Request, acts: seq<Action>): State {
    Exec(cfg, Step(cfg, s, Spawn(tid, request)), acts)
  }

  /** The handler's next call goes through. */
  function Proceed(cfg: Config, s: State, tid: nat): State {
    Step(cfg, s, Run(tid, false))
  }

  function LoginRequest(cfg: Config, v: Visit): Request
    requires MakeOprfRequest(cfg.c, v.password, v.blind).Ok?
  {
    StartAuthentication(v.id, EvalReq(cfg.c, v), v.nonce, v.coin)
  }

  function FinalizeRequest(v: Visit): Request {
    FinalizeAuthentication(v.id, v.token)
  }

  function CheckRequest(v: Visit): Request {
    CheckCredentials(v.id, v.secret, v.token)
  }

  lemma ExecAround(cfg: Config, s: State, a: Action, acts: seq<Action>, b: Action)
    ensures Exec(cfg, s, [a] + acts + [b]) == Step(cfg, Exec(cfg, Step(cfg, s, a), acts), b)
  {
    ExecLast(cfg, s, [a] + acts + [b]);
    assert ([a] + acts + [b])[..|acts| + 1] == [a] + acts;
    assert ([a] + acts)[1..] == acts;
  }

  /** The state once the login is answered. */
  function AfterLogin(cfg: Config, v: Visit, s: State, logging: seq<Action>): State
    requires MakeOprfRequest(cfg.c, v.password, v.blind).Ok?
  {
    Arrive(cfg, s, v.login, LoginRequest(cfg, v), logging)
  }

  function LoginNumber(cfg: Config, v: Visit, s: State, logging: seq<Action>): nat
    requires MakeOprfRequest(cfg.c, v.password, v.blind).Ok?
  {
    IssueNumber(cfg, Step(cfg, s, Spawn(v.login, LoginRequest(cfg, v))), logging, v.login, v.id)
  }

  /** The login handler arrives, none of its calls fails and it comes to an end. */
  ghost predicate LoginHappens(cfg: Config, v: Visit, s: State, logging: seq<Action>)
    requires MakeOprfRequest(cfg.c, v.password, v.blind).Ok?
  {
    var s' := AfterLogin(cfg, v, s, logging);
    && v.login !in s.threads && NoFaults(logging, v.login)
    && v.login in s'.threads && s'.threads[v.login].Finished?
  }

  /** The token in the finalize request is what the client makes of its answer. */
  ghost predicate TokenFromAnswer(cfg: Config, v: Visit, s: State)
    requires MakeOprfRequest(cfg.c, v.password, v.blind).Ok?
    requires v.login in s.threads && s.threads[v.login].Finished?
  {
    var answer := s.threads[v.login].response;
    answer.LoginStarted? && ClientToken(cfg.c, v, answer).Ok? ==>
      v.token == HexEncode(ClientToken(cfg.c, v, answer).value)
  }

  function AfterFinalize(cfg: Config, v: Visit, s: State, finalizing: seq<Action>): State {
    Proceed(cfg, Arrive(cfg, s, v.finalize, FinalizeRequest(v), finalizing), v.finalize)
  }

  /** `finalizing` ends where the handler is about to give its answer. */
  ghost predicate FinalizeHappens(cfg: Config, v: Visit, s: State, finalizing: seq<Action>) {
    var s1 := Arrive(cfg, s, v.finalize, FinalizeRequest(v), finalizing);
    var s2 := AfterFinalize(cfg, v, s, finalizing);
    && v.finalize !in s.threads && NoFaults(finalizing, v.finalize)
    && v.finalize in s1.threads && !s1.threads[v.finalize].Finished?
    && v.finalize in s2.threads && s2.threads[v.finalize].Finished?
  }

  function AfterCheck(cfg: Config, v: Visit, s: State, checking: seq<Action>): State {
    Proceed(cfg, Arrive(cfg, s, v.check, CheckRequest(v), checking), v.check)
  }

  ghost predicate CheckHappens(cfg: Config, v: Visit, s: State, checking: seq<Action>) {
    var s1 := Arrive(cfg, s, v.check, CheckRequest(v), checking);
    var s2 := AfterCheck(cfg, v, s, checking);
    && v.check !in s.threads && NoFaults(checking, v.check)
    && v.check in s1.threads && !s1.threads[v.check].Finished?
    && v.check in s2.threads && s2.threads[v.check].Finished?
  }

  /** A login none of whose calls fails is answered with the current envelope and
      an evaluation under its key, and its nonce has been issued. */
  lemma LoginIsAnswered(cfg: Config, v: Visit, s: State, logging: seq<Action>, env: UserEnvelope)
    requires HonestVisit(cfg, v) && LoginHappens(cfg, v, s, logging)
    requires Current(s.st.envelopes, v.id, env) && UnmarshalScalar(cfg.c, env.key).Ok?
    requires |Of(AfterLogin(cfg, v, s, logging).st.envelopes, v.id)| == |Of(s.st.envelopes, v.id)|
    ensures
      var s' := AfterLogin(cfg, v, s, logging);
      var eval := Evaluate(cfg.c, UnmarshalScalar(cfg.c, env.key).value, EvalReq(cfg.c, v));
      && s'.threads[v.login].response == LoginResponse(eval, env, v.nonce)
      && Of(s'.st.envelopes, v.id) == Of(s.st.envelopes, v.id)
      && IssuedAs(s'.st, v.id, v.nonce, LoginNumber(cfg, v, s, logging))
  {
    var s0 := Step(cfg, s, Spawn(v.login, LoginRequest(cfg, v)));
    Arrival(cfg, s, v.login, LoginRequest(cfg, v));
    RunKeepsLogin(cfg, s0, logging, v.login, v.id, EvalReq(cfg.c, v), v.nonce, env, true);
    RunIssues(cfg, s0, logging, v.login, v.id, v.nonce);
  }

  /** Hence the client derives a token, made of the issued nonce, that matches the
      current envelope. */
  lemma LoginYieldsToken(cfg: Config, v: Visit, s: State, logging: seq<Action>, env: UserEnvelope)
    requires HonestVisit(cfg, v) && LoginHappens(cfg, v, s, logging)
    requires Current(s.st.envelopes, v.id, env) && CoherentEnvelope(cfg, env, v.password)
    requires |Of(AfterLogin(cfg, v, s, logging).st.envelopes, v.id)| == |Of(s.st.envelopes, v.id)|
    ensures AfterLogin(cfg, v, s, logging).threads[v.login].response.LoginStarted?
    ensures
      var token := ClientToken(cfg.c, v, AfterLogin(cfg, v, s, logging).threads[v.login].response);
      && token.Ok? && WellFormedToken(HexEncode(token.value))
      && NonceOf(HexEncode(token.value)) == v.nonce && Matches(cfg, HexEncode(token.value), env)
  {
    LoginIsAnswered(cfg, v, s, logging, env);
    TokenMatchesEnvelope(cfg, v, env);
  }

  lemma TokenMatchesEnvelope(cfg: Config, v: Visit, env: UserEnvelope)
    requires HonestVisit(cfg, v) && CoherentEnvelope(cfg, env, v.password)
    ensures
      var eval := Evaluate(cfg.c, UnmarshalScalar(cfg.c, env.key).value, EvalReq(cfg.c, v));
      var token := ClientToken(cfg.c, v, LoginResponse(eval, env, v.nonce));
      && token.Ok? && WellFormedToken(HexEncode(token.value))
      && NonceOf(HexEncode(token.value)) == v.nonce && Matches(cfg, HexEncode(token.value), env)
  {
    var k := UnmarshalScalar(cfg.c, env.key).value;
    ClientAndServerAgree(cfg.c, cfg.privS, k, RegistrationIn(env), v.password, v.blind, v.nonce, v.draw);
    var key := ServerKey(cfg.c, cfg.privS, env.pubU, v.nonce).value;
    HexRoundTrip(v.nonce + key);
    assert (v.nonce + key)[..12] == v.nonce && (v.nonce + key)[12..] == key;
  }

  /** The finalize request for that token succeeds and makes it the session. */
  lemma TokenIsAccepted(cfg: Config, v: Visit, s: State, finalizing: seq<Action>, env: UserEnvelope, issued: nat)
    requires WellFormedToken(v.token) && Matches(cfg, v.token, env)
    requires Current(s.st.envelopes, v.id, env) && IssuedAs(s.st, v.id, NonceOf(v.token), issued)
    requires FinalizeHappens(cfg, v, s, finalizing)
    requires |Of(AfterFinalize(cfg, v, s, finalizing).st.envelopes, v.id)| == |Of(s.st.envelopes, v.id)|
    requires |Of(AfterFinalize(cfg, v, s, finalizing).st.nonces, v.id)| <= issued + 20
    ensures
      var s2 := AfterFinalize(cfg, v, s, finalizing);
      && s2.threads[v.finalize] == Finished(v.id.app, Accepted)
      && Current(s2.st.sessions, v.id, Session(v.token, s2.now + SESSION_TTL))
  {
    var s0 := Step(cfg, s, Spawn(v.finalize, FinalizeRequest(v)));
    Arrival(cfg, s, v.finalize, FinalizeRequest(v));
    Lengths(cfg, s0, finalizing, Run(v.finalize, false), v.id);
    RunKeepsFinalize(cfg, s0, finalizing, v.finalize, v.id, v.token, env, issued);
    StepKeepsFinalize(cfg, Exec(cfg, s0, finalizing), Run(v.finalize, false), v.finalize, v.id, v.token, env, issued);
  }

  lemma Arrival(cfg: Config, s: State, tid: nat, request: Request)
    requires tid !in s.threads
    ensures
      var s' := Step(cfg, s, Spawn(tid, request));
      s'.st == s.st && s'.now == s.now && tid in s'.threads && s'.threads[tid] == Start(request)
  {
  }

  /** No history of this user has become shorter. */
  predicate NoShorter(s: State, s': State, id: UserId) {
    && |Of(s.st.envelopes, id)| <= |Of(s'.st.envelopes, id)|
    && |Of(s.st.nonces, id)| <= |Of(s'.st.nonces, id)|
    && |Of(s.st.sessions, id)| <= |Of(s'.st.sessions, id)|
    && |Of(s.st.secrets, id.app)| <= |Of(s'.st.secrets, id.app)|
    && s.now <= s'.now
  }

  lemma Lengths(cfg: Config, s: State, acts: seq<Action>, a: Action, id: UserId)
    ensures NoShorter(s, Exec(cfg, s, acts), id)
    ensures NoShorter(Exec(cfg, s, acts), Step(cfg, Exec(cfg, s, acts), a), id)
  {
    RunGrowsFor(cfg, s, acts, id);
    StepGrowsFor(cfg, Exec(cfg, s, acts), a, id);
  }

  /** The credentials check with the right app secret accepts the token until
      its fifteen minutes are over or another token took its place. */
  lemma SessionIsHonoured(cfg: Config, v: Visit, s: State, checking: seq<Action>)
    requires Current(s.st.sessions, v.id, Session(v.token, s.now + SESSION_TTL))
    requires Current(s.st.secrets, v.id.app, v.secret)
    requires CheckHappens(cfg, v, s, checking)
    requires |Of(AfterCheck(cfg, v, s, checking).st.secrets, v.id.app)| == |Of(s.st.secrets, v.id.app)|
    requires OnlyThisToken(s, AfterCheck(cfg, v, s, checking), v.id, v.token)
    requires AfterCheck(cfg, v, s, checking).now < s.now + SESSION_TTL
    ensures
      var response := AfterCheck(cfg, v, s, checking).threads[v.check].response;
      response.Credentials? && response.username == v.id.user
  {
    var s0 := Step(cfg, s, Spawn(v.check, CheckRequest(v)));
    var s1 := Exec(cfg, s0, checking);
    Arrival(cfg, s, v.check, CheckRequest(v));
    Lengths(cfg, s0, checking, Run(v.check, false), v.id);
    RunKeepsCheck(cfg, s0, checking, v.check, v.id, v.secret, v.token);
    CheckKeepsSessions(cfg, s1, v.check, v.id, v.secret, v.token);
    SessionOutlasts(cfg, s0, checking, v.id, v.token);
    CheckAnswers(cfg, s1, v.check, v.id, v.secret, v.token);
  }

  lemma CheckKeepsSessions(cfg: Config, s: State, tid: nat, id: UserId, secret: string, token: string)
    requires tid in s.threads && CheckUnderWay(s.threads[tid], id, secret, token)
    ensures Proceed(cfg, s, tid).st == s.st && Proceed(cfg, s, tid).now == s.now
  {
  }

  /** A session that only its own token replaces stays current with its full time. */
  lemma SessionOutlasts(cfg: Config, s: State, acts: seq<Action>, id: UserId, token: string)
    requires Current(s.st.sessions, id, Session(token, s.now + SESSION_TTL))
    requires OnlyThisToken(s, Exec(cfg, s, acts), id, token)
    ensures
      var h' := Of(Exec(cfg, s, acts).st.sessions, id);
      h' != [] && h'[0].token == token && h'[0].expires >= s.now + SESSION_TTL
  {
    LaterSessionsHoldLonger(cfg, s, acts, id);
    RunGrowsFor(cfg, s, acts, id);
    var h, h' := Of(s.st.sessions, id), Of(Exec(cfg, s, acts).st.sessions, id);
    if |h'| == |h| {
      SameLengthSameHistory(h, h');
    }
  }

  lemma CheckAnswers(cfg: Config, s: State, tid: nat, id: UserId, secret: string, token: string)
    requires tid in s.threads && CheckUnderWay(s.threads[tid], id, secret, token)
    requires Current(s.st.secrets, id.app, secret)
    requires CurrentSession(s.st, s.now, id) == Some(token)
    ensures
      var s' := Proceed(cfg, s, tid);
      && tid in s'.threads
      && (s'.threads[tid].Finished? ==>
            s'.threads[tid].response.Credentials? && s'.threads[tid].response.username == id.user)
  {
  }

  /** What the rest of the system must leave alone for the visit to succeed:
      no finalize replaces the envelope and at most twenty later logins start
      before the token is finalized; the app secret stays, no other token is
      accepted and fifteen minutes have not passed when it is checked. */
  ghost predicate Undisturbed(cfg: Config, v: Visit, s: State, logging: seq<Action>, s3: State, s5: State, s7: State)
    requires MakeOprfRequest(cfg.c, v.password, v.blind).Ok?
  {
    && |Of(s5.st.envelopes, v.id)| == |Of(s.st.envelopes, v.id)|
    && |Of(s5.st.nonces, v.id)| <= LoginNumber(cfg, v, s, logging) + 20
    && Current(s5.st.secrets, v.id.app, v.secret) && |Of(s7.st.secrets, v.id.app)| == |Of(s5.st.secrets, v.id.app)|
    && OnlyThisToken(s5, s7, v.id, v.token) && s7.now < s5.now + SESSION_TTL
  }

  /** A whole visit: the three requests one after the other, each with anything
      else going on in it, and no failed call of their own. */
  ghost predicate VisitRuns(cfg: Config, v: Visit, s: State, logging: seq<Action>, finalizing: seq<Action>,
                            checking: seq<Action>)
    requires MakeOprfRequest(cfg.c, v.password, v.blind).Ok?
  {
    var s3 := AfterLogin(cfg, v, s, logging);
    var s5 := AfterFinalize(cfg, v, s3, finalizing);
    var s7 := AfterCheck(cfg, v, s5, checking);
    && LoginHappens(cfg, v, s, logging)
    && FinalizeHappens(cfg, v, s3, finalizing) && CheckHappens(cfg, v, s5, checking)
    && Undisturbed(cfg, v, s, logging, s3, s5, s7)
  }

  ghost predicate VisitHappens(cfg: Config, v: Visit, s: State, logging: seq<Action>, finalizing: seq<Action>,
                               checking: seq<Action>)
    requires MakeOprfRequest(cfg.c, v.password, v.blind).Ok?
  {
    VisitRuns(cfg, v, s, logging, finalizing, checking) && TokenFromAnswer(cfg, v, AfterLogin(cfg, v, s, logging))
  }

  /** The visit succeeds from any state with a coherent envelope. */
  lemma VisitSucceeds(cfg: Config, v: Visit, env: UserEnvelope, s: State, logging: seq<Action>,
                      finalizing: seq<Action>, checking: seq<Action>)
    requires HonestVisit(cfg, v) && VisitHappens(cfg, v, s, logging, finalizing, checking)
    requires Current(s.st.envelopes, v.id, env) && CoherentEnvelope(cfg, env, v.password)
    ensures
      var s3 := AfterLogin(cfg, v, s, logging);
      var s5 := AfterFinalize(cfg, v, s3, finalizing);
      var s7 := AfterCheck(cfg, v, s5, checking);
      && s3.threads[v.login].response.LoginStarted?
      && s5.threads[v.finalize] == Finished(v.id.app, Accepted)
      && s7.threads[v.check].response.Credentials? && s7.threads[v.check].response.username == v.id.user
  {
    VisitIsAccepted(cfg, v, env, s, logging, finalizing);
    SessionIsHonoured(cfg, v, AfterFinalize(cfg, v, AfterLogin(cfg, v, s, logging), finalizing), checking);
  }

  lemma VisitIsAccepted(cfg: Config, v: Visit, env: UserEnvelope, s: State, logging: seq<Action>,
                        finalizing: seq<Action>)
    requires HonestVisit(cfg, v) && LoginHappens(cfg, v, s, logging)
    requires Current(s.st.envelopes, v.id, env) && CoherentEnvelope(cfg, env, v.password)
    requires TokenFromAnswer(cfg, v, AfterLogin(cfg, v, s, logging))
    requires FinalizeHappens(cfg, v, AfterLogin(cfg, v, s, logging), finalizing)
    requires
      var s5 := AfterFinalize(cfg, v, AfterLogin(cfg, v, s, logging), finalizing);
      && |Of(s5.st.envelopes, v.id)| == |Of(s.st.envelopes, v.id)|
      && |Of(s5.st.nonces, v.id)| <= LoginNumber(cfg, v, s, logging) + 20
    ensures AfterLogin(cfg, v, s, logging).threads[v.login].response.LoginStarted?
    ensures
      var s5 := AfterFinalize(cfg, v, AfterLogin(cfg, v, s, logging), finalizing);
      && s5.threads[v.finalize] == Finished(v.id.app, Accepted)
      && Current(s5.st.sessions, v.id, Session(v.token, s5.now + SESSION_TTL))
  {
    var s3 := AfterLogin(cfg, v, s, logging);
    EnvelopeStaysInLogin(cfg, v, s, logging, finalizing);
    LoginIsAnswered(cfg, v, s, logging, env);
    LoginYieldsToken(cfg, v, s, logging, env);
    TokenIsAccepted(cfg, v, s3, finalizing, env, LoginNumber(cfg, v, s, logging));
  }

  /** An envelope that is the same after the finalize was so after the login. */
  lemma EnvelopeStaysInLogin(cfg: Config, v: Visit, s: State, logging: seq<Action>, finalizing: seq<Action>)
    requires MakeOprfRequest(cfg.c, v.password, v.blind).Ok? && LoginHappens(cfg, v, s, logging)
    requires FinalizeHappens(cfg, v, AfterLogin(cfg, v, s, logging), finalizing)
    requires
      var s5 := AfterFinalize(cfg, v, AfterLogin(cfg, v, s, logging), finalizing);
      |Of(s5.st.envelopes, v.id)| == |Of(s.st.envelopes, v.id)|
    ensures |Of(AfterLogin(cfg, v, s, logging).st.envelopes, v.id)| == |Of(s.st.envelopes, v.id)|
  {
    var s0 := Step(cfg, s, Spawn(v.login, LoginRequest(cfg, v)));
    Arrival(cfg, s, v.login, LoginRequest(cfg, v));
    EnvelopesRun(cfg, s0, logging, v.id);
    FinalizeLengths(cfg, v, AfterLogin(cfg, v, s, logging), finalizing);
  }

  lemma FinalizeLengths(cfg: Config, v: Visit, s: State, finalizing: seq<Action>)
    requires v.finalize !in s.threads
    ensures |Of(s.st.envelopes, v.id)| <= |Of(AfterFinalize(cfg, v, s, finalizing).st.envelopes, v.id)|
  {
    Arrival(cfg, s, v.finalize, FinalizeRequest(v));
    Lengths(cfg, Step(cfg, s, Spawn(v.finalize, FinalizeRequest(v))), finalizing, Run(v.finalize, false), v.id);
  }

  /** End-to-end completeness, on the flat database and under every schedule.
      Start anywhere the system can get to with a coherent envelope, and let
      anything else go on in between: if none of its own calls fails and it is
      left undisturbed as said above, the client's login is answered, finalize
      accepts its token and the credentials check accepts it. */
  lemma EndToEnd(cfg: Config, v: Visit, env: UserEnvelope, earlier: seq<Action>, logging: seq<Action>,
                 finalizing: seq<Action>, checking: seq<Action>)
    requires HonestVisit(cfg, v) && VisitHappens(cfg, v, Exec(cfg, INIT, earlier), logging, finalizing, checking)
    requires Current(Exec(cfg, INIT, earlier).st.envelopes, v.id, env) && CoherentEnvelope(cfg, env, v.password)
    requires PlainActions(earlier + LoginPart(cfg, v, logging) + FinalizePart(v, finalizing) + CheckPart(v, checking))
    ensures
      VisitAccepted(cfg, v, earlier + LoginPart(cfg, v, logging) + FinalizePart(v, finalizing), CheckPart(v, checking))
  {
    VisitSchedule(cfg, v, earlier, logging, finalizing, checking);
    VisitSucceeds(cfg, v, env, Exec(cfg, INIT, earlier), logging, finalizing, checking);
  }

  /** On the flat database the finalize is accepted in the first part of the run
      and the token passes the credentials check at the end of the second. */
  ghost predicate VisitAccepted(cfg: Config, v: Visit, upToFinalize: seq<Action>, check: seq<Action>) {
    var r5 := RedisExec(cfg, REDIS_INIT, upToFinalize);
    var r7 := RedisExec(cfg, REDIS_INIT, upToFinalize + check);
    && v.finalize in r5.threads && r5.threads[v.finalize] == Finished(v.id.app, Accepted)
    && v.check in r7.threads && r7.threads[v.check].Finished?
    && r7.threads[v.check].response.Credentials? && r7.threads[v.check].response.username == v.id.user
  }

  /** The schedule as one list, over either storage. */
  lemma VisitSchedule(cfg: Config, v: Visit, earlier: seq<Action>, logging: seq<Action>,
                      finalizing: seq<Action>, checking: seq<Action>)
    requires MakeOprfRequest(cfg.c, v.password, v.blind).Ok?
    requires PlainActions(earlier + LoginPart(cfg, v, logging) + FinalizePart(v, finalizing) + CheckPart(v, checking))
    ensures
      var s3 := AfterLogin(cfg, v, Exec(cfg, INIT, earlier), logging);
      var s5 := AfterFinalize(cfg, v, s3, finalizing);
      var s7 := AfterCheck(cfg, v, s5, checking);
      var upToFinalize := earlier + LoginPart(cfg, v, logging) + FinalizePart(v, finalizing);
      && RedisExec(cfg, REDIS_INIT, upToFinalize).threads == s5.threads
      && RedisExec(cfg, REDIS_INIT, upToFinalize + CheckPart(v, checking)).threads == s7.threads
  {
    var upToFinalize := earlier + LoginPart(cfg, v, logging) + FinalizePart(v, finalizing);
    assert LoginPart(cfg, v, logging)[1..] == logging;
    ExecAppend(cfg, INIT, earlier, LoginPart(cfg, v, logging));
    var s3 := AfterLogin(cfg, v, Exec(cfg, INIT, earlier), logging);
    ExecAppend(cfg, INIT, earlier + LoginPart(cfg, v, logging), FinalizePart(v, finalizing));
    ExecAround(cfg, s3, Spawn(v.finalize, FinalizeRequest(v)), finalizing, Run(v.finalize, false));
    ExecAppend(cfg, INIT, upToFinalize, CheckPart(v, checking));
    var s5 := AfterFinalize(cfg, v, s3, finalizing);
    ExecAround(cfg, s5, Spawn(v.check, CheckRequest(v)), checking, Run(v.check, false));
    assert forall i :: 0 <= i < |upToFinalize| ==> upToFinalize[i] == (upToFinalize + CheckPart(v, checking))[i];
    RedisRefinesStorage(cfg, upToFinalize);
    RedisRefinesStorage(cfg, upToFinalize + CheckPart(v, checking));
  }
}
