/** When the pending key of a user is written only once although database calls
    interleave, and which key the envelopes then carry. */
module PendingKey {
  import opened Encoding
  import opened Suite
  import opened Client
  import opened Storage
  import opened Handlers
  import opened Machine
  import opened Login
  import opened Completeness

  /** The handler has found no request and is going to write one. */
  predicate PastCheck(th: Thread, id: UserId) {
    th.StartReg1? && th.id == id
  }

  predicate NonePastCheck(s: State, id: UserId) {
    forall tid :: tid in s.threads ==> !PastCheck(s.threads[tid], id)
  }

  predicate StoresRequest(s: State, a: Action, id: UserId) {
    a.Run? && !a.fault && CanRun(s.threads, a.tid) && PastCheck(s.threads[a.tid], id)
  }

  lemma CallRequests(st: Histories, now: nat, th: Thread, id: UserId)
    requires !th.Finished?
    ensures Of(HistoryDo(st, now, NextCall(th)).0.requests, id)
         == if PastCheck(th, id) then [UserRequest(MarshalScalar(th.kU))] + Of(st.requests, id) else Of(st.requests, id)
  {
  }

  lemma StepRequests(cfg: Config, s: State, a: Action, id: UserId)
    ensures Of(Step(cfg, s, a).st.requests, id)
         == if StoresRequest(s, a, id) then [UserRequest(MarshalScalar(s.threads[a.tid].kU))] + Of(s.st.requests, id)
            else Of(s.st.requests, id)
  {
    if a.Run? && CanRun(s.threads, a.tid) {
      CallRequests(s.st, s.now, s.threads[a.tid], id);
    }
  }

  /** With a request there nobody gets past the check any more. */
  lemma NobodyPasses(cfg: Config, s: State, a: Action, tid: nat, id: UserId)
    requires Of(s.st.requests, id) != [] && tid in Step(cfg, s, a).threads
    requires PastCheck(Step(cfg, s, a).threads[tid], id)
    ensures tid in s.threads && PastCheck(s.threads[tid], id)
  {
  }

  lemma {:induction false} RunKeepsKey(cfg: Config, s: State, acts: seq<Action>, id: UserId)
    requires Of(s.st.requests, id) != [] && NonePastCheck(s, id)
    ensures Of(Exec(cfg, s, acts).st.requests, id) == Of(s.st.requests, id) && NonePastCheck(Exec(cfg, s, acts), id)
    decreases |acts|
  {
    if acts != [] {
      var m := Step(cfg, s, acts[0]);
      StepRequests(cfg, s, acts[0], id);
      forall tid | tid in m.threads ensures !PastCheck(m.threads[tid], id) {
        if PastCheck(m.threads[tid], id) {
          NobodyPasses(cfg, s, acts[0], tid, id);
        }
      }
      RunKeepsKey(cfg, m, acts[1..], id);
    }
  }

  lemma OneTurn(cfg: Config, s: State, a: Action)
    ensures Exec(cfg, s, [a]) == Step(cfg, s, a)
  {
    assert [a][1..] == [];
    assert Exec(cfg, s, [a]) == Exec(cfg, Step(cfg, s, a), []);
  }

  /** The key of a registered user is safe from being replaced, whatever the
      schedule, if and only if no handler is past the check for that user. */
  lemma KeyIsSettledExactly(cfg: Config, s: State, id: UserId)
    requires Of(s.st.requests, id) != []
    ensures
      (forall acts :: Of(Exec(cfg, s, acts).st.requests, id) == Of(s.st.requests, id)) <==> NonePastCheck(s, id)
  {
    if NonePastCheck(s, id) {
      forall acts ensures Of(Exec(cfg, s, acts).st.requests, id) == Of(s.st.requests, id) {
        RunKeepsKey(cfg, s, acts, id);
      }
    } else {
      var tid :| tid in s.threads && PastCheck(s.threads[tid], id);
      var a := Run(tid, false);
      OneTurn(cfg, s, a);
      StepRequests(cfg, s, a, id);
      assert |Of(Exec(cfg, s, [a]).st.requests, id)| == |Of(s.st.requests, id)| + 1;
    }
  }

  /** Interleaved, the first write of a user's key is the only one in every
      continuation if and only if no other handler had passed the check by then:
      the guard that the two separate calls do not have. */
  lemma KeyWrittenOnceExactly(cfg: Config, s: State, tid: nat, id: UserId)
    requires Of(s.st.requests, id) == [] && tid in s.threads && PastCheck(s.threads[tid], id)
    ensures
      var s' := Step(cfg, s, Run(tid, false));
      (forall acts :: |Of(Exec(cfg, s', acts).st.requests, id)| == 1) <==>
        forall other :: other in s.threads && other != tid ==> !PastCheck(s.threads[other], id)
  {
    var s' := Step(cfg, s, Run(tid, false));
    var key := UserRequest(MarshalScalar(s.threads[tid].kU));
    StepRequests(cfg, s, Run(tid, false), id);
    KeyIsSettledExactly(cfg, s', id);
    assert forall other :: other in s.threads && other != tid ==> s'.threads[other] == s.threads[other];
    assert s'.threads.Keys == s.threads.Keys && s'.threads[tid].Finished?;
    forall acts
      ensures |Of(Exec(cfg, s', acts).st.requests, id)| == 1 <==> Of(Exec(cfg, s', acts).st.requests, id) == [key]
    {
      RunGrowsFor(cfg, s', acts, id);
    }
  }

  // -------------------------------------------------------- what envelopes carry

  /** Every key that a handler has read for this user is one of these. */
  predicate ReadKeys(s: State, id: UserId, keys: set<Bytes>) {
    forall tid :: tid in s.threads && s.threads[tid].FinReg1? && s.threads[tid].id == id ==> s.threads[tid].key in keys
  }

  lemma StepKeepsReadKeys(cfg: Config, s: State, a: Action, id: UserId, keys: set<Bytes>)
    requires Of(s.st.requests, id) != [] && Of(s.st.requests, id)[0].key in keys && ReadKeys(s, id, keys)
    ensures ReadKeys(Step(cfg, s, a), id, keys)
  {
  }

  lemma {:induction false} RunKeepsReadKeys(cfg: Config, s: State, acts: seq<Action>, id: UserId, keys: set<Bytes>)
    requires Of(s.st.requests, id) != [] && NonePastCheck(s, id)
    requires Of(s.st.requests, id)[0].key in keys && ReadKeys(s, id, keys)
    ensures
      forall env :: env in Of(Exec(cfg, s, acts).st.envelopes, id) ==> env in Of(s.st.envelopes, id) || env.key in keys
    ensures ReadKeys(Exec(cfg, s, acts), id, keys)
    decreases |acts|
  {
    if acts != [] {
      var m := Step(cfg, s, acts[0]);
      RunKeepsKey(cfg, s, [acts[0]], id);
      OneTurn(cfg, s, acts[0]);
      StepKeepsReadKeys(cfg, s, acts[0], id, keys);
      StepEnvelopes(cfg, s, acts[0], id);
      RunKeepsReadKeys(cfg, m, acts[1..], id, keys);
    }
  }

  /** Keys read by handlers that have not stored their envelope yet. */
  function KeysInHand(s: State, id: UserId): set<Bytes> {
    set tid | tid in s.threads && s.threads[tid].FinReg1? && s.threads[tid].id == id :: s.threads[tid].key
  }

  /** Once the key is settled, every envelope stored from then on carries it, but
      for handlers that had already read a key before. */
  lemma SettledKeyIsSealed(cfg: Config, s: State, acts: seq<Action>, id: UserId, env: UserEnvelope)
    requires Of(s.st.requests, id) != [] && NonePastCheck(s, id)
    requires env in Of(Exec(cfg, s, acts).st.envelopes, id) && env !in Of(s.st.envelopes, id)
    ensures env.key == Of(s.st.requests, id)[0].key || env.key in KeysInHand(s, id)
  {
    RunKeepsReadKeys(cfg, s, acts, id, KeysInHand(s, id) + {Of(s.st.requests, id)[0].key});
  }

  // ------------------------------------- from the client's start request to its login

  /** A key is only read where there is one. */
  lemma ReadKeyWasStored(cfg: Config, acts: seq<Action>, tid: nat)
    ensures
      var s := Exec(cfg, INIT, acts);
      tid in s.threads && s.threads[tid].FinReg1? ==> Of(s.st.requests, s.threads[tid].id) != []
  {
    ReachableInv(cfg, acts);
    var s := Exec(cfg, INIT, acts);
    assert tid in s.threads ==> ThreadInv(cfg, s.st, s.threads[tid]);
  }

  lemma NothingReadYet(cfg: Config, acts: seq<Action>, id: UserId, keys: set<Bytes>)
    requires Of(Exec(cfg, INIT, acts).st.requests, id) == []
    ensures ReadKeys(Exec(cfg, INIT, acts), id, keys)
  {
    var s := Exec(cfg, INIT, acts);
    forall tid | tid in s.threads ensures !(s.threads[tid].FinReg1? && s.threads[tid].id == id) {
      ReadKeyWasStored(cfg, acts, tid);
    }
  }

  /** The handler is about to write the first key of this user, and no other one
      is past the check. */
  ghost predicate AloneAtWrite(s: State, start: nat, id: UserId) {
    && Of(s.st.requests, id) == [] && start in s.threads && PastCheck(s.threads[start], id)
    && forall other :: other in s.threads && other != start ==> !PastCheck(s.threads[other], id)
  }

  /** Then every finalize for this user has that key, whatever happens in between. */
  lemma FinalizeHasFirstKey(cfg: Config, before: seq<Action>, start: nat, registering: seq<Action>, tid: nat,
                            id: UserId)
    requires AloneAtWrite(Exec(cfg, INIT, before), start, id)
    requires
      var s := Exec(cfg, INIT, before + [Run(start, false)] + registering);
      tid in s.threads && s.threads[tid].FinReg1? && s.threads[tid].id == id
    ensures
      Exec(cfg, INIT, before + [Run(start, false)] + registering).threads[tid].key
        == MarshalScalar(Exec(cfg, INIT, before).threads[start].kU)
  {
    var s, run := Exec(cfg, INIT, before), Run(start, false);
    var m := Step(cfg, s, run);
    var keys := {MarshalScalar(s.threads[start].kU)};
    ExecAppend(cfg, INIT, before, [run]);
    OneTurn(cfg, s, run);
    ExecAppend(cfg, INIT, before + [run], registering);
    StepRequests(cfg, s, run, id);
    NothingReadYet(cfg, before, id, keys);
    assert m.threads.Keys == s.threads.Keys && m.threads[start].Finished?;
    assert forall other :: other in s.threads && other != start ==> m.threads[other] == s.threads[other];
    RunKeepsReadKeys(cfg, m, registering, id, keys);
  }

  /** The client's start request is about to write the first key, alone. */
  ghost predicate Starting(cfg: Config, s: State, start: nat, id: UserId, u: SignUp)
    requires MakeOprfRequest(cfg.c, u.password, u.blind).Ok?
  {
    && AloneAtWrite(s, start, id)
    && s.threads[start] == StartReg1(id, MakeOprfRequest(cfg.c, u.password, u.blind).value.evalReq, u.kU)
  }

  /** It is answered with an evaluation under the key it writes. */
  lemma StartIsEvaluated(cfg: Config, s: State, start: nat, id: UserId, u: SignUp)
    requires MakeOprfRequest(cfg.c, u.password, u.blind).Ok? && Starting(cfg, s, start, id, u)
    ensures
      var evalReq := MakeOprfRequest(cfg.c, u.password, u.blind).value.evalReq;
      Step(cfg, s, Run(start, false)).threads[start] == Finished(id.app, Evaluated(Evaluate(cfg.c, u.kU, evalReq)))
  {
  }

  /** Its finalize request is about to store the envelope, with whatever key. */
  ghost predicate Registering(cfg: Config, s: State, tid: nat, id: UserId, u: SignUp)
    requires MakeOprfRequest(cfg.c, u.password, u.blind).Ok?
  {
    var data := RegistrationData(cfg, u);
    && data.Ok? && tid in s.threads && s.threads[tid].FinReg1?
    && s.threads[tid].id == id && s.threads[tid].reg == data.value
  }

  /** The whole story from the client's own start request, on the flat database and
      for every schedule: if no other handler is past the check when its key is
      written, its envelope is sealed with that key whenever it finalizes, and
      unless the envelope is replaced it logs in. */
  lemma StartedClientIsAccepted(cfg: Config, u: SignUp, start: nat, tid: nat, v: Visit, first: seq<Action>,
                                registering: seq<Action>, before: seq<Action>, between: seq<Action>,
                                logging: seq<Action>, finalizing: seq<Action>, checking: seq<Action>)
    requires HonestSignUp(cfg, u) && HonestVisit(cfg, v) && v.password == u.password
    requires Starting(cfg, Exec(cfg, INIT, first), start, v.id, u)
    requires before == first + [Run(start, false)] + registering
    requires Registering(cfg, Exec(cfg, INIT, before), tid, v.id, u)
    requires NoneStored(cfg, Exec(cfg, INIT, before + [Run(tid, false)]), between, v.id)
    requires
      VisitHappens(cfg, v, Exec(cfg, INIT, before + [Run(tid, false)] + between), logging, finalizing, checking)
    requires
      PlainActions(before + [Run(tid, false)] + between
                   + LoginPart(cfg, v, logging) + FinalizePart(v, finalizing) + CheckPart(v, checking))
    ensures
      VisitAccepted(cfg, v,
                    before + [Run(tid, false)] + between + LoginPart(cfg, v, logging) + FinalizePart(v, finalizing),
                    CheckPart(v, checking))
  {
    FinalizeHasFirstKey(cfg, first, start, registering, tid, v.id);
    RegisteredClientIsAccepted(cfg, u, tid, v, before, between, logging, finalizing, checking);
  }
}
