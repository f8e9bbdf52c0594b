/** From a finalized registration to an accepted login, over whole runs in which
    anything else may happen in between. */
module Completeness {
  import opened Encoding
  import opened Suite
  import opened Client
  import opened Storage
  import opened Handlers
  import opened Machine
  import opened Login

  /** A step that stores an envelope for this user. */
  predicate StoresEnvelope(s: State, a: Action, id: UserId) {
    a.Run? && !a.fault && CanRun(s.threads, a.tid) && s.threads[a.tid].FinReg1? && s.threads[a.tid].id == id
  }

  predicate NoneStored(cfg: Config, s: State, acts: seq<Action>, id: UserId)
    decreases |acts|
  {
    acts == [] || (!StoresEnvelope(s, acts[0], id) && NoneStored(cfg, Step(cfg, s, acts[0]), acts[1..], id))
  }

  lemma CallEnvelopes(st: Histories, now: nat, th: Thread, id: UserId)
    requires !th.Finished?
    ensures Of(HistoryDo(st, now, NextCall(th)).0.envelopes, id)
         == if th.FinReg1? && th.id == id then [Sealed(th.reg, th.key)] + Of(st.envelopes, id) else Of(st.envelopes, id)
  {
  }

  lemma StepEnvelopes(cfg: Config, s: State, a: Action, id: UserId)
    ensures Of(Step(cfg, s, a).st.envelopes, id)
         == if StoresEnvelope(s, a, id)
            then [Sealed(s.threads[a.tid].reg, s.threads[a.tid].key)] + Of(s.st.envelopes, id)
            else Of(s.st.envelopes, id)
  {
    if a.Run? && CanRun(s.threads, a.tid) {
      CallEnvelopes(s.st, s.now, s.threads[a.tid], id);
    }
  }

  /** Exactly the runs that store none leave the envelopes of a user alone. */
  lemma {:induction false} EnvelopesKeptExactly(cfg: Config, s: State, acts: seq<Action>, id: UserId)
    ensures NoneStored(cfg, s, acts, id) <==> Of(Exec(cfg, s, acts).st.envelopes, id) == Of(s.st.envelopes, id)
    decreases |acts|
  {
    if acts != [] {
      var s' := Step(cfg, s, acts[0]);
      StepEnvelopes(cfg, s, acts[0], id);
      EnvelopesKeptExactly(cfg, s', acts[1..], id);
      EnvelopesRun(cfg, s', acts[1..], id);
    }
  }

  /** A coherent envelope stays current in every run without another store for
      the user, and a login that reads it at the end, with any blind and nonce,
      still makes a matching token; new registration requests change only the
      pending key. */
  lemma CoherenceIsKept(cfg: Config, s: State, acts: seq<Action>, env: UserEnvelope, v: Visit)
    requires HonestVisit(cfg, v)
    requires Current(s.st.envelopes, v.id, env) && CoherentEnvelope(cfg, env, v.password)
    requires NoneStored(cfg, s, acts, v.id)
    ensures
      var h := Of(Exec(cfg, s, acts).st.envelopes, v.id);
      && h == Of(s.st.envelopes, v.id) && UnmarshalScalar(cfg.c, h[0].key).Ok?
      && var eval := Evaluate(cfg.c, UnmarshalScalar(cfg.c, h[0].key).value, EvalReq(cfg.c, v));
         var token := ClientToken(cfg.c, v, LoginResponse(eval, h[0], v.nonce));
         token.Ok? && WellFormedToken(HexEncode(token.value)) && Matches(cfg, HexEncode(token.value), h[0])
  {
    EnvelopesKeptExactly(cfg, s, acts, v.id);
    TokenMatchesEnvelope(cfg, v, env);
  }

  /** A registration: the key that evaluated it and the client's random choices. */
  datatype SignUp = SignUp(password: Bytes, blind: nat, kU: nat, f: Fresh)

  ghost predicate HonestSignUp(cfg: Config, u: SignUp) {
    && cfg.c.Lawful() && 0 < u.blind < cfg.c.oprf.q && u.kU < cfg.c.oprf.q && GoodFresh(u.f)
    && MakeOprfRequest(cfg.c, u.password, u.blind).Ok?
    && SharedKey(cfg.c, cfg.privS, KeyGen(cfg.c, u.f.privU)).Some?
  }

  function RegistrationData(cfg: Config, u: SignUp): Result<Registration>
    requires MakeOprfRequest(cfg.c, u.password, u.blind).Ok?
  {
    var fin := MakeOprfRequest(cfg.c, u.password, u.blind).value;
    RegistrationOf(cfg.c, fin, Evaluate(cfg.c, u.kU, fin.evalReq), KeyGen(cfg.c, cfg.privS), u.f)
  }

  /** The finalize handler has read the very key that evaluated the request. */
  ghost predicate AboutToStore(cfg: Config, s: State, tid: nat, id: UserId, u: SignUp)
    requires MakeOprfRequest(cfg.c, u.password, u.blind).Ok?
  {
    var data := RegistrationData(cfg, u);
    data.Ok? && tid in s.threads && s.threads[tid] == FinReg1(id, data.value, MarshalScalar(u.kU))
  }

  /** What is stored for an honest registration is coherent. */
  lemma SealedIsCoherent(cfg: Config, u: SignUp)
    requires HonestSignUp(cfg, u)
    ensures RegistrationData(cfg, u).Ok?
    ensures CoherentEnvelope(cfg, Sealed(RegistrationData(cfg, u).value, MarshalScalar(u.kU)), u.password)
  {
    RegistrationIsCoherent(cfg.c, KeyGen(cfg.c, cfg.privS), u.kU, u.password, u.blind, u.f);
    ScalarRoundTrip(cfg.c, u.kU);
    var reg := RegistrationData(cfg, u).value;
    assert RegistrationIn(Sealed(reg, MarshalScalar(u.kU))) == reg;
  }

  lemma StoringStep(cfg: Config, s: State, tid: nat)
    requires tid in s.threads && s.threads[tid].FinReg1?
    ensures
      var th := s.threads[tid];
      var s' := Step(cfg, s, Run(tid, false));
      && s'.threads[tid] == Finished(th.id.app, Accepted)
      && Current(s'.st.envelopes, th.id, Sealed(th.reg, th.key))
  {
    StepEnvelopes(cfg, s, Run(tid, false), s.threads[tid].id);
  }

  /** Finalized against the key that evaluated it, a registration succeeds and
      leaves a coherent envelope, whatever state the system is in. */
  lemma FinalizedIsCoherent(cfg: Config, s: State, tid: nat, id: UserId, u: SignUp)
    requires HonestSignUp(cfg, u) && AboutToStore(cfg, s, tid, id, u)
    ensures
      var s' := Step(cfg, s, Run(tid, false));
      && s'.threads[tid] == Finished(id.app, Accepted)
      && Of(s'.st.envelopes, id) != []
      && CoherentEnvelope(cfg, Of(s'.st.envelopes, id)[0], u.password)
  {
    StoringStep(cfg, s, tid);
    SealedIsCoherent(cfg, u);
  }

  /** The whole story, on the flat database and for every schedule: a client
      whose registration was finalized against the key that evaluated it, and
      whose envelope nobody replaced, logs in with its password. */
  lemma RegisteredClientIsAccepted(cfg: Config, u: SignUp, tid: nat, v: Visit, before: seq<Action>,
                                   between: seq<Action>,
                                   logging: seq<Action>, finalizing: seq<Action>, checking: seq<Action>)
    requires HonestSignUp(cfg, u) && HonestVisit(cfg, v) && v.password == u.password
    requires AboutToStore(cfg, Exec(cfg, INIT, before), tid, v.id, u)
    requires NoneStored(cfg, Exec(cfg, INIT, before + [Run(tid, false)]), between, v.id)
    requires
      VisitHappens(cfg, v, Exec(cfg, INIT, before + [Run(tid, false)] + between), logging, finalizing, checking)
    requires
      PlainActions(before + [Run(tid, false)] + between
                   + LoginPart(cfg, v, logging) + FinalizePart(v, finalizing) + CheckPart(v, checking))
    ensures
      VisitAccepted(cfg, v,
                    before + [Run(tid, false)] + between + LoginPart(cfg, v, logging) + FinalizePart(v, finalizing),
                    CheckPart(v, checking))
  {
    var env := StoredEnvelope(cfg, u, tid, v.id, before, between);
    EndToEnd(cfg, v, env, before + [Run(tid, false)] + between, logging, finalizing, checking);
  }

  lemma StoredEnvelope(cfg: Config, u: SignUp, tid: nat, id: UserId, before: seq<Action>, between: seq<Action>)
    returns (env: UserEnvelope)
    requires HonestSignUp(cfg, u) && AboutToStore(cfg, Exec(cfg, INIT, before), tid, id, u)
    requires NoneStored(cfg, Exec(cfg, INIT, before + [Run(tid, false)]), between, id)
    ensures CoherentEnvelope(cfg, env, u.password)
    ensures Current(Exec(cfg, INIT, before + [Run(tid, false)] + between).st.envelopes, id, env)
  {
    var run := Run(tid, false);
    var s := Exec(cfg, INIT, before);
    var s' := Exec(cfg, INIT, before + [run]);
    ExecAppend(cfg, INIT, before, [run]);
    assert [run][1..] == [];
    assert Exec(cfg, s, [run]) == Exec(cfg, Step(cfg, s, run), []);
    FinalizedIsCoherent(cfg, s, tid, id, u);
    env := Of(s'.st.envelopes, id)[0];
    ExecAppend(cfg, INIT, before + [run], between);
    EnvelopesKeptExactly(cfg, s', between, id);
  }
}
