/** Exactly when a token can still be accepted, and a run from the start in which
    one is although its nonce has long left the window. */
module Retirement {
  import opened Encoding
  import opened Suite
  import opened Storage
  import opened Handlers
  import opened Machine
  import opened Sessions
  import opened Login
  import opened Completeness
  import opened Atomic
  import opened HappyPath

  /** A continuation that issues this nonce to nobody, stores no envelope for the
      user and accepts the token. */
  ghost predicate AcceptingRun(cfg: Config, s: State, acts: seq<Action>, id: UserId, token: string)
    requires WellFormedToken(token)
  {
    && NotIssuedSince(s.st, Exec(cfg, s, acts).st, id, NonceOf(token))
    && NoneStored(cfg, s, acts, id)
    && AcceptedIn(cfg, s, acts, id, token)
  }

  ghost predicate CurrentMatches(cfg: Config, st: Histories, id: UserId, token: string)
    requires WellFormedToken(token)
  {
    Of(st.envelopes, id) != [] && Matches(cfg, token, Of(st.envelopes, id)[0])
  }

  /** A handler has made its comparison with this token. */
  ghost predicate Compared(s: State, id: UserId, token: string) {
    exists tid :: tid in s.threads && s.threads[tid].FinAuth2? && PastNonceCheck(s.threads[tid], id, token)
  }

  /** A token has something left: a handler that only has to store it, or a match
      with the current envelope and either its nonce in the window or a handler
      past the nonce check. */
  ghost predicate CanStillWin(cfg: Config, s: State, id: UserId, token: string)
    requires WellFormedToken(token)
  {
    Compared(s, id, token) || (CurrentMatches(cfg, s.st, id, token) && !Retired(s, id, token))
  }

  // ------------------------------------------------------- what is lost stays lost

  lemma ComparedWasPast(cfg: Config, s: State, a: Action, tid: nat, id: UserId, token: string)
    requires WellFormedToken(token) && !Compared(s, id, token) && tid in Step(cfg, s, a).threads
    requires
      var th' := Step(cfg, s, a).threads[tid];
      th'.FinAuth2? && PastNonceCheck(th', id, token)
    ensures InFlight(s, id, token) && CurrentMatches(cfg, s.st, id, token)
  {
    assert tid in s.threads && PastNonceCheck(s.threads[tid], id, token);
  }

  lemma AcceptedWasCompared(cfg: Config, s: State, a: Action, id: UserId, token: string)
    ensures AcceptsToken(cfg, s, a, id, token) ==> Compared(s, id, token)
  {
    AcceptsExactly(cfg, s, a, id);
    if AcceptsToken(cfg, s, a, id, token) {
      assert PastNonceCheck(s.threads[a.tid], id, token);
    }
  }

  lemma StepKeepsLost(cfg: Config, s: State, a: Action, id: UserId, token: string)
    requires WellFormedToken(token) && !CanStillWin(cfg, s, id, token)
    requires NotIssuedSince(s.st, Step(cfg, s, a).st, id, NonceOf(token)) && !StoresEnvelope(s, a, id)
    ensures !CanStillWin(cfg, Step(cfg, s, a), id, token) && !AcceptsToken(cfg, s, a, id, token)
  {
    var s' := Step(cfg, s, a);
    StepEnvelopes(cfg, s, a, id);
    AcceptedWasCompared(cfg, s, a, id, token);
    if Compared(s', id, token) {
      var tid :| tid in s'.threads && s'.threads[tid].FinAuth2? && PastNonceCheck(s'.threads[tid], id, token);
      ComparedWasPast(cfg, s, a, tid, id, token);
    }
    if Retired(s, id, token) {
      StepKeepsRetired(cfg, s, a, id, token);
    }
  }

  lemma {:induction false} RunKeepsLost(cfg: Config, s: State, acts: seq<Action>, id: UserId, token: string)
    requires WellFormedToken(token) && !CanStillWin(cfg, s, id, token)
    requires NotIssuedSince(s.st, Exec(cfg, s, acts).st, id, NonceOf(token)) && NoneStored(cfg, s, acts, id)
    ensures !AcceptedIn(cfg, s, acts, id, token)
    decreases |acts|
  {
    if acts != [] {
      NotIssuedSteps(cfg, s, acts, id, NonceOf(token));
      StepKeepsLost(cfg, s, acts[0], id, token);
      RunKeepsLost(cfg, Step(cfg, s, acts[0]), acts[1..], id, token);
    }
  }

  // ----------------------------------------------------- what is left can be used

  lemma NothingPushed(cfg: Config, s: State, a: Action, id: UserId)
    requires !Pushes(s, a, id) && !StoresEnvelope(s, a, id)
    ensures Of(Step(cfg, s, a).st.nonces, id) == Of(s.st.nonces, id)
    ensures Of(Step(cfg, s, a).st.envelopes, id) == Of(s.st.envelopes, id)
  {
    StepNonces(cfg, s, a, id);
    StepEnvelopes(cfg, s, a, id);
  }

  lemma Prepend(cfg: Config, s: State, a: Action, rest: seq<Action>, id: UserId, token: string)
    requires WellFormedToken(token) && !Pushes(s, a, id) && !StoresEnvelope(s, a, id)
    requires AcceptingRun(cfg, Step(cfg, s, a), rest, id, token)
    ensures AcceptingRun(cfg, s, [a] + rest, id, token)
  {
    assert ([a] + rest)[1..] == rest;
    NothingPushed(cfg, s, a, id);
  }

  lemma StoreWins(cfg: Config, s: State, tid: nat, id: UserId, token: string) returns (acts: seq<Action>)
    requires WellFormedToken(token) && tid in s.threads && s.threads[tid].FinAuth2?
    requires PastNonceCheck(s.threads[tid], id, token)
    ensures AcceptingRun(cfg, s, acts, id, token)
  {
    var a := Run(tid, false);
    acts := [a];
    AcceptsExactly(cfg, s, a, id);
    NothingPushed(cfg, s, a, id);
    var s' := Step(cfg, s, a);
    assert acts[1..] == [] && Exec(cfg, s, acts) == Exec(cfg, s', []);
    assert NoneStored(cfg, s', [], id);
  }

  lemma ReadWins(cfg: Config, s: State, tid: nat, id: UserId, token: string) returns (acts: seq<Action>)
    requires WellFormedToken(token) && CurrentMatches(cfg, s.st, id, token)
    requires tid in s.threads && s.threads[tid] == FinAuth1(id, token)
    ensures AcceptingRun(cfg, s, acts, id, token)
  {
    FinalizeReads(cfg, s, tid, id, token, Of(s.st.envelopes, id)[0]);
    var rest := StoreWins(cfg, Step(cfg, s, Run(tid, false)), tid, id, token);
    Prepend(cfg, s, Run(tid, false), rest, id, token);
    acts := [Run(tid, false)] + rest;
  }

  lemma ListWins(cfg: Config, s: State, tid: nat, id: UserId, token: string) returns (acts: seq<Action>)
    requires WellFormedToken(token) && CurrentMatches(cfg, s.st, id, token)
    requires NonceOf(token) in Window(Of(s.st.nonces, id))
    requires tid in s.threads && s.threads[tid] == FinAuth0(id, token)
    ensures AcceptingRun(cfg, s, acts, id, token)
  {
    ListedIsMembership(Window(Of(s.st.nonces, id)), NonceOf(token));
    FinalizeLists(cfg, s, tid, id, token);
    NothingPushed(cfg, s, Run(tid, false), id);
    var rest := ReadWins(cfg, Step(cfg, s, Run(tid, false)), tid, id, token);
    Prepend(cfg, s, Run(tid, false), rest, id, token);
    acts := [Run(tid, false)] + rest;
  }

  /** There is always a number that no handler has yet. */
  lemma {:induction false} FreshThread(tids: set<nat>) returns (tid: nat)
    ensures forall t :: t in tids ==> t < tid
    decreases |tids|
  {
    tid := 0;
    if tids != {} {
      var t :| t in tids;
      var rest := FreshThread(tids - {t});
      tid := if rest > t then rest else t + 1;
      forall t' | t' in tids ensures t' < tid {
        assert t' == t || t' in tids - {t};
      }
    }
  }

  lemma RequestWins(cfg: Config, s: State, id: UserId, token: string) returns (acts: seq<Action>)
    requires WellFormedToken(token) && CurrentMatches(cfg, s.st, id, token)
    requires NonceOf(token) in Window(Of(s.st.nonces, id))
    ensures AcceptingRun(cfg, s, acts, id, token)
  {
    var tid := FreshThread(s.threads.Keys);
    var spawn := Spawn(tid, FinalizeAuthentication(id, token));
    var rest := ListWins(cfg, Step(cfg, s, spawn), tid, id, token);
    Prepend(cfg, s, spawn, rest, id, token);
    acts := [spawn] + rest;
  }

  lemma Wins(cfg: Config, s: State, id: UserId, token: string) returns (acts: seq<Action>)
    requires WellFormedToken(token) && CanStillWin(cfg, s, id, token)
    ensures AcceptingRun(cfg, s, acts, id, token)
  {
    if Compared(s, id, token) {
      var tid :| tid in s.threads && s.threads[tid].FinAuth2? && PastNonceCheck(s.threads[tid], id, token);
      acts := StoreWins(cfg, s, tid, id, token);
    } else if InFlight(s, id, token) {
      var tid :| tid in s.threads && PastNonceCheck(s.threads[tid], id, token);
      acts := ReadWins(cfg, s, tid, id, token);
    } else {
      acts := RequestWins(cfg, s, id, token);
    }
  }

  /** Exactly when a token can still be accepted without its nonce being issued
      again and without another envelope, in any state and for any token. */
  lemma StillAcceptedExactly(cfg: Config, s: State, id: UserId, token: string)
    requires WellFormedToken(token)
    ensures CanStillWin(cfg, s, id, token) <==> exists acts :: AcceptingRun(cfg, s, acts, id, token)
  {
    if CanStillWin(cfg, s, id, token) {
      var acts := Wins(cfg, s, id, token);
    } else {
      forall acts ensures !AcceptingRun(cfg, s, acts, id, token) {
        if AcceptingRun(cfg, s, acts, id, token) {
          RunKeepsLost(cfg, s, acts, id, token);
        }
      }
    }
  }

  /** No continuation that does not issue the nonce again accepts the token. */
  ghost predicate OutOfReach(cfg: Config, s: State, id: UserId, token: string)
    requires WellFormedToken(token)
  {
    forall acts :: NotIssuedSince(s.st, Exec(cfg, s, acts).st, id, NonceOf(token)) ==>
      !AcceptedIn(cfg, s, acts, id, token)
  }

  /** Hence retirement is exact: a token that matches the current envelope is out
      of the reach of every continuation that does not issue its nonce again if
      and only if the nonce has left the window and no handler has it past the
      nonce check. */
  lemma RetirementExactly(cfg: Config, s: State, id: UserId, token: string)
    requires WellFormedToken(token) && CurrentMatches(cfg, s.st, id, token)
    ensures Retired(s, id, token) <==> OutOfReach(cfg, s, id, token)
  {
    if Retired(s, id, token) {
      forall acts | NotIssuedSince(s.st, Exec(cfg, s, acts).st, id, NonceOf(token))
        ensures !AcceptedIn(cfg, s, acts, id, token)
      {
        RunKeepsRetired(cfg, s, acts, id, token);
      }
    } else {
      var acts := Wins(cfg, s, id, token);
      assert NotIssuedSince(s.st, Exec(cfg, s, acts).st, id, NonceOf(token)) && AcceptedIn(cfg, s, acts, id, token);
    }
  }

  // ------------------------------------------------- a run in which one still wins

  /** A client registers and gets its login answered, one request at a time. */
  function Beginning(cfg: Config, u: SignUp, v: Visit): seq<Event>
    requires HonestSignUp(cfg, u) && HonestVisit(cfg, v)
  {
    [Serve(SignUpRequest(cfg, v.id, u), []), Serve(FinalizeSignUp(cfg, v.id, u), []), Serve(LoginRequest(cfg, v), [])]
  }

  /** Its finalize request comes in and gets to the point of storing the token;
      only then the other logins are served. */
  function LateSchedule(cfg: Config, u: SignUp, v: Visit, others: seq<Bytes>): seq<Action>
    requires HonestSignUp(cfg, u) && HonestVisit(cfg, v)
  {
    ScheduleOf(Beginning(cfg, u, v), 0) + Passing(v) + ScheduleOf(Logins(v.id, EvalReq(cfg.c, v), others), 4)
  }

  function Passing(v: Visit): seq<Action> {
    [Spawn(3, FinalizeRequest(v)), Run(3, false), Run(3, false)]
  }

  /** The same evaluation request again and again, each time with another nonce. */
  function Logins(id: UserId, evalReq: seq<nat>, nonces: seq<Bytes>): seq<Event> {
    seq(|nonces|, i requires 0 <= i < |nonces| => Serve(StartAuthentication(id, evalReq, nonces[i], 1), []))
  }

  lemma {:induction false} OthersRun(cfg: Config, s: State, acts: seq<Action>, tid: nat)
    requires tid in s.threads
    requires forall a :: a in acts && a.Run? ==> a.tid != tid
    ensures
      var s' := Exec(cfg, s, acts);
      tid in s'.threads && s'.threads[tid] == s.threads[tid]
    decreases |acts|
  {
    if acts != [] {
      OthersKeepThread(cfg, s, acts[0], tid);
      OthersRun(cfg, Step(cfg, s, acts[0]), acts[1..], tid);
    }
  }

  lemma {:induction false} TurnsAreOwn(tid: nat, faults: seq<bool>, n: nat)
    ensures forall a :: a in Turns(tid, faults, n) && a.Run? ==> a.tid == tid
    decreases n
  {
    if n > 0 {
      TurnsAreOwn(tid, TailFaults(faults), n - 1);
    }
  }

  lemma {:induction false} ScheduleRunsLater(events: seq<Event>, tid: nat)
    ensures forall a :: a in ScheduleOf(events, tid) && a.Run? ==> a.tid >= tid
    decreases |events|
  {
    if events != [] {
      if events[0].Serve? {
        TurnsAreOwn(tid, events[0].faults, 3);
      }
      ScheduleRunsLater(events[1..], tid + 1);
    }
  }

  /** A login served at once pushes its nonce and leaves the envelope. */
  lemma LoginPushes(cfg: Config, w: World, id: UserId, evalReq: seq<nat>, nonce: Bytes, env: UserEnvelope)
    requires Current(w.st.envelopes, id, env) && UnmarshalScalar(cfg.c, env.key).Ok?
    ensures
      var w' := Happen(cfg, w, Serve(StartAuthentication(id, evalReq, nonce, 1), []));
      Of(w'.st.nonces, id) == [nonce] + Of(w.st.nonces, id) && Current(w'.st.envelopes, id, env)
  {
    LoginReply(cfg, w, id, evalReq, nonce, 1, env);
  }

  lemma {:induction false} LoginsPush(cfg: Config, w: World, id: UserId, evalReq: seq<nat>, nonces: seq<Bytes>,
                                      nonce: Bytes, env: UserEnvelope)
    requires Current(w.st.envelopes, id, env) && UnmarshalScalar(cfg.c, env.key).Ok? && nonce !in nonces
    ensures
      var w' := After(cfg, w, Logins(id, evalReq, nonces));
      && |Of(w'.st.nonces, id)| == |Of(w.st.nonces, id)| + |nonces|
      && NotIssuedSince(w.st, w'.st, id, nonce)
    decreases |nonces|
  {
    if nonces != [] {
      var m := Happen(cfg, w, Logins(id, evalReq, nonces)[0]);
      LoginPushes(cfg, w, id, evalReq, nonces[0], env);
      assert Logins(id, evalReq, nonces)[1..] == Logins(id, evalReq, nonces[1..]);
      LoginsPush(cfg, m, id, evalReq, nonces[1..], nonce, env);
      AfterGrows(cfg, m, Logins(id, evalReq, nonces[1..]), id);
      var h' := Of(After(cfg, w, Logins(id, evalReq, nonces)).st.nonces, id);
      PushedBefore(Of(w.st.nonces, id), Of(m.st.nonces, id), h', nonces[0], nonce);
    }
  }

  lemma PushedBefore(h: seq<Bytes>, m: seq<Bytes>, h': seq<Bytes>, first: Bytes, nonce: Bytes)
    requires m == [first] + h && IsSuffix(m, h') && nonce != first && nonce !in h'[..|h'| - |m|]
    ensures nonce !in h'[..|h'| - |h|]
  {
    assert h'[..|h'| - |h|] == h'[..|h'| - |m|] + [first];
  }

  lemma {:induction false} AfterGrows(cfg: Config, w: World, events: seq<Event>, id: UserId)
    ensures IsSuffix(Of(w.st.nonces, id), Of(After(cfg, w, events).st.nonces, id))
    decreases |events|
  {
    if events == [] {
      SuffixReflexive(Of(w.st.nonces, id));
    } else {
      var m := Happen(cfg, w, events[0]);
      if events[0].Serve? {
        FinishGrows(cfg, w.st, w.now, Start(events[0].request), events[0].faults);
        assert GrowsFor(w.st, m.st, id);
      } else {
        SuffixReflexive(Of(w.st.nonces, id));
      }
      AfterGrows(cfg, m, events[1..], id);
      SuffixTransitive(Of(w.st.nonces, id), Of(m.st.nonces, id), Of(After(cfg, w, events).st.nonces, id));
    }
  }

  /** The finalize handler gets past its comparison while its nonce is the newest. */
  lemma PassingCompares(cfg: Config, s: State, v: Visit, env: UserEnvelope)
    requires WellFormedToken(v.token) && Matches(cfg, v.token, env) && 3 !in s.threads
    requires Current(s.st.envelopes, v.id, env) && Current(s.st.nonces, v.id, NonceOf(v.token))
    ensures Exec(cfg, s, Passing(v)) == s.(threads := s.threads[3 := FinAuth2(v.id, v.token, env)])
  {
    var s0 := Step(cfg, s, Spawn(3, FinalizeRequest(v)));
    assert Passing(v)[1..] == [Run(3, false), Run(3, false)];
    ExecTwo(cfg, s0, Run(3, false), Run(3, false));
    assert s0 == s.(threads := s.threads[3 := FinAuth0(v.id, v.token)]);
    NewestIsInWindow(Of(s.st.nonces, v.id));
    TwoTurnsCompare(cfg, s0, 3, v.id, v.token, env);
  }

  /** The token in the finalize request is what the client makes of its answer. */
  ghost predicate TokenIsDerived(cfg: Config, u: SignUp, v: Visit)
    requires HonestSignUp(cfg, u) && HonestVisit(cfg, v)
  {
    var token := TokenText(cfg, Registered(cfg, START, v.id, u), v);
    token.Some? ==> v.token == token.value
  }

  /** After the beginning the client has a token on the newest nonce. */
  lemma BeginningYieldsToken(cfg: Config, u: SignUp, v: Visit) returns (env: UserEnvelope)
    requires HonestSignUp(cfg, u) && HonestVisit(cfg, v) && v.password == u.password && TokenIsDerived(cfg, u, v)
    ensures
      var w := After(cfg, START, Beginning(cfg, u, v));
      && WellFormedToken(v.token) && NonceOf(v.token) == v.nonce && Matches(cfg, v.token, env)
      && Current(w.st.envelopes, v.id, env) && Current(w.st.nonces, v.id, v.nonce)
      && UnmarshalScalar(cfg.c, env.key).Ok?
  {
    var r := Registered(cfg, START, v.id, u);
    Registers(cfg, START, v.id, u);
    env := Of(r.st.envelopes, v.id)[0];
    GetsToken(cfg, r, v, env);
    AfterIssue(cfg, r, v, env);
    BeginningIsThen(cfg, u, v);
  }

  lemma BeginningIsThen(cfg: Config, u: SignUp, v: Visit)
    requires HonestSignUp(cfg, u) && HonestVisit(cfg, v)
    ensures After(cfg, START, Beginning(cfg, u, v)) == Then(cfg, Registered(cfg, START, v.id, u), LoginRequest(cfg, v))
  {
    var events := Beginning(cfg, u, v);
    assert events[1..] == [events[1], events[2]];
    assert [events[1], events[2]][1..] == [events[2]] && [events[2]][1..] == [];
    var w1 := Then(cfg, START, SignUpRequest(cfg, v.id, u));
    assert After(cfg, START, events) == After(cfg, w1, events[1..]);
    assert After(cfg, w1, [events[1], events[2]]) == After(cfg, Registered(cfg, START, v.id, u), [events[2]]);
  }

  /** By then the finalize handler only has to store the token. */
  lemma BeginningCompares(cfg: Config, u: SignUp, v: Visit) returns (s: State, env: UserEnvelope)
    requires HonestSignUp(cfg, u) && HonestVisit(cfg, v) && v.password == u.password && TokenIsDerived(cfg, u, v)
    ensures s == Exec(cfg, INIT, ScheduleOf(Beginning(cfg, u, v), 0) + Passing(v))
    ensures 3 in s.threads && s.threads[3] == FinAuth2(v.id, v.token, env) && forall t :: t in s.threads ==> t < 4
    ensures Current(s.st.envelopes, v.id, env) && UnmarshalScalar(cfg.c, env.key).Ok?
    ensures WellFormedToken(v.token) && NonceOf(v.token) == v.nonce
  {
    env := BeginningYieldsToken(cfg, u, v);
    var begin := ScheduleOf(Beginning(cfg, u, v), 0);
    AtomicRunIsSchedule(cfg, INIT, Beginning(cfg, u, v), 0);
    PassingCompares(cfg, Exec(cfg, INIT, begin), v, env);
    ExecAppend(cfg, INIT, begin, Passing(v));
    s := Exec(cfg, INIT, begin + Passing(v));
  }

  /** From the very start, for every client and any twenty-one or more other
      nonces: when the last turn of the finalize comes, its nonce has left the
      window long ago, and yet the token is accepted and becomes the session. So
      retirement has to speak of handlers in flight. */
  lemma InFlightFinalizeStillWins(cfg: Config, u: SignUp, v: Visit, others: seq<Bytes>)
    requires HonestSignUp(cfg, u) && HonestVisit(cfg, v) && v.password == u.password && TokenIsDerived(cfg, u, v)
    requires |others| >= 21 && v.nonce !in others
    ensures
      var s := Exec(cfg, INIT, LateSchedule(cfg, u, v, others));
      var s' := Step(cfg, s, Run(3, false));
      && WellFormedToken(v.token) && NonceOf(v.token) == v.nonce
      && v.nonce !in Window(Of(s.st.nonces, v.id))
      && 3 in s'.threads && s'.threads[3] == Finished(v.id.app, Accepted)
      && CurrentSession(s'.st, s'.now, v.id) == Some(v.token)
  {
    var s, env := BeginningCompares(cfg, u, v);
    LateLogins(cfg, s, v, others, env);
    var late := ScheduleOf(Logins(v.id, EvalReq(cfg.c, v), others), 4);
    ExecAppend(cfg, INIT, ScheduleOf(Beginning(cfg, u, v), 0) + Passing(v), late);
    StoringMakesSession(cfg, Exec(cfg, INIT, LateSchedule(cfg, u, v, others)), 3, v.id, v.token, env);
  }

  lemma StoringMakesSession(cfg: Config, s: State, tid: nat, id: UserId, token: string, env: UserEnvelope)
    requires tid in s.threads && s.threads[tid] == FinAuth2(id, token, env)
    ensures
      var s' := Step(cfg, s, Run(tid, false));
      && tid in s'.threads && s'.threads[tid] == Finished(id.app, Accepted)
      && CurrentSession(s'.st, s'.now, id) == Some(token)
  {
    FinalizeStores(cfg, s, tid, id, token, env);
  }

  lemma LateLogins(cfg: Config, s: State, v: Visit, others: seq<Bytes>, env: UserEnvelope)
    requires HonestVisit(cfg, v)
    requires 3 in s.threads && forall t :: t in s.threads ==> t < 4
    requires Current(s.st.envelopes, v.id, env) && UnmarshalScalar(cfg.c, env.key).Ok?
    requires |others| >= 21 && v.nonce !in others
    ensures
      var s' := Exec(cfg, s, ScheduleOf(Logins(v.id, EvalReq(cfg.c, v), others), 4));
      3 in s'.threads && s'.threads[3] == s.threads[3] && v.nonce !in Window(Of(s'.st.nonces, v.id))
  {
    var events := Logins(v.id, EvalReq(cfg.c, v), others);
    AtomicRunIsSchedule(cfg, s, events, 4);
    ScheduleRunsLater(events, 4);
    OthersRun(cfg, s, ScheduleOf(events, 4), 3);
    LoginsPush(cfg, World(s.st, s.now), v.id, EvalReq(cfg.c, v), others, v.nonce, env);
    TwentyOneIssuesRetire(s.st, Exec(cfg, s, ScheduleOf(events, 4)).st, v.id, v.nonce);
  }
}
