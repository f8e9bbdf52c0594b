/** What a run of the system guarantees about sessions: which token is live,
    until when, and when a token is gone for good. */
module Sessions {
  import opened Encoding
  import opened Storage
  import opened Redis
  import opened Handlers
  import opened Machine

  // ------------------------------------------------------- the observable reference

  predicate Finalizing(th: Thread) {
    th.FinAuth0? || th.FinAuth1? || th.FinAuth2?
  }

  /** A finalize request for this user is answered with success by this step. */
  predicate Accepts(cfg: Config, s: State, a: Action, id: UserId) {
    && a.Run? && CanRun(s.threads, a.tid)
    && Finalizing(s.threads[a.tid]) && s.threads[a.tid].id == id
    && Step(cfg, s, a).threads[a.tid] == Finished(id.app, Accepted)
  }

  /** The token of the last successful finalize and the time it holds until,
      read off the answers alone. */
  function LastAccepted(cfg: Config, s: State, acts: seq<Action>, id: UserId): Option<Session>
    decreases |acts|
  {
    if acts == [] then None
    else
      var before := acts[..|acts| - 1];
      var a := acts[|acts| - 1];
      var s' := Exec(cfg, s, before);
      if Accepts(cfg, s', a, id) then Some(Session(s'.threads[a.tid].token, s'.now + SESSION_TTL))
      else LastAccepted(cfg, s, before, id)
  }

  lemma CallSessions(st: Histories, now: nat, th: Thread, id: UserId)
    requires !th.Finished?
    ensures Of(HistoryDo(st, now, NextCall(th)).0.sessions, id)
         == if th.FinAuth2? && th.id == id then [Session(th.token, now + SESSION_TTL)] + Of(st.sessions, id)
            else Of(st.sessions, id)
  {
  }

  lemma AcceptsExactly(cfg: Config, s: State, a: Action, id: UserId)
    ensures Accepts(cfg, s, a, id) <==>
      a.Run? && !a.fault && CanRun(s.threads, a.tid) && s.threads[a.tid].FinAuth2? && s.threads[a.tid].id == id
  {
  }

  lemma StepSessions(cfg: Config, s: State, a: Action, id: UserId)
    ensures Of(Step(cfg, s, a).st.sessions, id)
         == if Accepts(cfg, s, a, id)
            then [Session(s.threads[a.tid].token, s.now + SESSION_TTL)] + Of(s.st.sessions, id)
            else Of(s.st.sessions, id)
  {
    AcceptsExactly(cfg, s, a, id);
    if a.Run? && CanRun(s.threads, a.tid) {
      CallSessions(s.st, s.now, s.threads[a.tid], id);
    }
  }

  lemma ExecLast(cfg: Config, s: State, acts: seq<Action>)
    requires acts != []
    ensures Exec(cfg, s, acts) == Step(cfg, Exec(cfg, s, acts[..|acts| - 1]), acts[|acts| - 1])
  {
    var n := |acts| - 1;
    assert acts[..n] + [acts[n]] == acts;
    ExecAppend(cfg, s, acts[..n], [acts[n]]);
    var s' := Exec(cfg, s, acts[..n]);
    assert [acts[n]][1..] == [];
    assert Exec(cfg, s', [acts[n]]) == Exec(cfg, Step(cfg, s', acts[n]), []);
  }

  lemma {:induction false} NewestSessionIsLastAccepted(cfg: Config, acts: seq<Action>, id: UserId)
    ensures
      var h := Of(Exec(cfg, INIT, acts).st.sessions, id);
      LastAccepted(cfg, INIT, acts, id) == if h == [] then None else Some(h[0])
    decreases |acts|
  {
    if acts != [] {
      var before := acts[..|acts| - 1];
      NewestSessionIsLastAccepted(cfg, before, id);
      ExecLast(cfg, INIT, acts);
      StepSessions(cfg, Exec(cfg, INIT, before), acts[|acts| - 1], id);
    }
  }

  /** No session holds longer than fifteen minutes from now. */
  lemma NewestSessionEnds(cfg: Config, acts: seq<Action>, id: UserId)
    ensures
      var s := Exec(cfg, INIT, acts);
      var h := Of(s.st.sessions, id);
      h != [] ==> h[0].expires <= s.now + SESSION_TTL
  {
    ReachableInv(cfg, acts);
    var s := Exec(cfg, INIT, acts);
    var h := Of(s.st.sessions, id);
    if h != [] {
      assert h[0] in h;
      assert SessionInv(cfg, s.st, s.now, id, h[0]);
    }
  }

  lemma ReportedEndIsLater(cfg: Config, id: UserId, now: nat, expires: nat)
    requires expires <= now + SESSION_TTL
    ensures CredentialsAt(cfg, id, now).expiresAt >= expires / 1000
  {
  }

  /** A single live session with an exact end: at the moment its last reply
      comes, the credentials check on the flat database answers with success
      exactly for the token of the last successful finalize, before fifteen
      minutes have passed since. The second it reports as the end is not before
      the one in which the session really ends. */
  lemma SingleLiveSession(cfg: Config, acts: seq<Action>, tid: nat, id: UserId, token: string)
    requires PlainActions(acts)
    requires
      var r := RedisExec(cfg, REDIS_INIT, acts);
      tid in r.threads && r.threads[tid] == Check1(id, token)
    ensures
      var r := RedisExec(cfg, REDIS_INIT, acts);
      var last := LastAccepted(cfg, INIT, acts, id);
      var answer := RedisStep(cfg, r, Run(tid, false)).threads[tid];
      && answer.Finished?
      && (answer.response.Credentials? <==> last.Some? && last.value.token == token && r.now < last.value.expires)
      && (answer.response.Credentials? ==> answer.response.expiresAt >= last.value.expires / 1000)
  {
    EmptyRepresents(PlainIds());
    PlainNamesDiffer();
    RunRefines(cfg, REDIS_INIT, INIT, acts, PlainIds());
    var r, s := RedisExec(cfg, REDIS_INIT, acts), Exec(cfg, INIT, acts);
    NewestSessionIsLastAccepted(cfg, acts, id);
    NewestSessionEnds(cfg, acts, id);
    CallRefines(r.db, s.st, s.now, GetSession(id));
    var last := LastAccepted(cfg, INIT, acts, id);
    if last.Some? {
      ReportedEndIsLater(cfg, id, r.now, last.value.expires);
    }
    CheckAnswersCurrent(cfg, r, tid, id, token);
  }

  lemma CheckAnswersCurrent(cfg: Config, r: RedisState, tid: nat, id: UserId, token: string)
    requires tid in r.threads && r.threads[tid] == Check1(id, token)
    ensures
      var reply := RedisDo(r.db, r.now, GetSession(id)).1;
      var answer := RedisStep(cfg, r, Run(tid, false)).threads[tid];
      && answer.Finished?
      && (if reply == TextIs(token) then answer.response == CredentialsAt(cfg, id, r.now)
          else !answer.response.Credentials?)
  {
  }

  /** An accepted token is the live one for 900000 milliseconds, if nothing else is
      stored meanwhile. */
  lemma FifteenMinutes(cfg: Config, s: State, a: Action, id: UserId, t: nat)
    requires Accepts(cfg, s, a, id)
    ensures CurrentSession(Step(cfg, s, a).st, t, id) == Some(s.threads[a.tid].token) <==> t < s.now + 900000
  {
    StepSessions(cfg, s, a, id);
  }

  // ----------------------------------------------------------- session provenance

  /** After these actions the handler is about to read this envelope. */
  ghost predicate Reads(cfg: Config, acts: seq<Action>, tid: nat, id: UserId, token: string, env: UserEnvelope) {
    var s := Exec(cfg, INIT, acts);
    && tid in s.threads && s.threads[tid] == FinAuth1(id, token)
    && Of(s.st.envelopes, id) != [] && Of(s.st.envelopes, id)[0] == env
  }

  /** After these actions the handler is about to store the token. */
  ghost predicate Stores(cfg: Config, acts: seq<Action>, tid: nat, id: UserId, token: string, env: UserEnvelope) {
    var s := Exec(cfg, INIT, acts);
    tid in s.threads && s.threads[tid] == FinAuth2(id, token, env)
  }

  /** The envelope a finalize handler carries is the one it read. */
  lemma {:induction false} EnvelopeWasRead(cfg: Config, acts: seq<Action>, tid: nat, id: UserId, token: string,
                                           env: UserEnvelope) returns (m: nat)
    requires Stores(cfg, acts, tid, id, token, env)
    ensures m < |acts| && acts[m] == Run(tid, false) && Reads(cfg, acts[..m], tid, id, token, env)
    decreases |acts|
  {
    m := |acts| - 1;
    var before := acts[..m];
    ExecLast(cfg, INIT, acts);
    if Stores(cfg, before, tid, id, token, env) {
      m := EnvelopeWasRead(cfg, before, tid, id, token, env);
      assert before[..m] == acts[..m];
    } else {
      OnlyReadingLeadsToStore(cfg, Exec(cfg, INIT, before), acts[m], tid);
    }
  }

  lemma OnlyReadingLeadsToStore(cfg: Config, s: State, a: Action, tid: nat)
    requires
      var s' := Step(cfg, s, a);
      tid in s'.threads && s'.threads[tid].FinAuth2? && !(tid in s.threads && s.threads[tid] == s'.threads[tid])
    ensures
      var th' := Step(cfg, s, a).threads[tid];
      && a == Run(tid, false) && tid in s.threads && s.threads[tid] == FinAuth1(th'.id, th'.token)
      && Of(s.st.envelopes, th'.id) != [] && Of(s.st.envelopes, th'.id)[0] == th'.env
  {
  }

  /** Every current session was stored by some step of a finalize handler. */
  lemma {:induction false} NewestSessionWasStored(cfg: Config, acts: seq<Action>, id: UserId)
    returns (n: nat, tid: nat, env: UserEnvelope)
    requires Of(Exec(cfg, INIT, acts).st.sessions, id) != []
    ensures
      var session := Of(Exec(cfg, INIT, acts).st.sessions, id)[0];
      && n < |acts| && acts[n] == Run(tid, false) && Stores(cfg, acts[..n], tid, id, session.token, env)
      && session.expires == Exec(cfg, INIT, acts[..n]).now + SESSION_TTL
    decreases |acts|
  {
    n := |acts| - 1;
    var before := acts[..n];
    var s := Exec(cfg, INIT, before);
    ExecLast(cfg, INIT, acts);
    StepSessions(cfg, s, acts[n], id);
    AcceptsExactly(cfg, s, acts[n], id);
    if Accepts(cfg, s, acts[n], id) {
      tid := acts[n].tid;
      env := s.threads[tid].env;
    } else {
      n, tid, env := NewestSessionWasStored(cfg, before, id);
      assert before[..n] == acts[..n];
    }
  }

  /** What a session rests on: the handler stored it at step `n`, less than
      fifteen minutes ago, after reading at step `m` the envelope that was then
      current; the nonce had been issued to the same user before that, and the
      key part is what this very envelope gives for it. */
  ghost predicate Provenance(cfg: Config, acts: seq<Action>, m: nat, n: nat, tid: nat, id: UserId, token: string,
                             env: UserEnvelope)
    requires WellFormedToken(token)
  {
    && m < n < |acts| && acts[m] == Run(tid, false) && acts[n] == Run(tid, false)
    && Reads(cfg, acts[..m], tid, id, token, env) && Stores(cfg, acts[..n], tid, id, token, env)
    && Exec(cfg, INIT, acts).now < Exec(cfg, INIT, acts[..n]).now + SESSION_TTL
    && NonceOf(token) in Pushed(cfg, INIT, acts[..m], id)
    && Matches(cfg, token, env)
  }

  /** Where every live session comes from, in every reachable state of the flat
      system: 44 bytes, with the provenance just described. */
  lemma SessionProvenance(cfg: Config, acts: seq<Action>, id: UserId, token: string)
    returns (m: nat, n: nat, tid: nat, env: UserEnvelope)
    requires PlainActions(acts) && Plain(id.app)
    requires
      var r := RedisExec(cfg, REDIS_INIT, acts);
      Lookup(r.db, r.now, Key(SessionOf(id))) == Some(Text(token))
    ensures WellFormedToken(token) && Provenance(cfg, acts, m, n, tid, id, token, env)
  {
    LiveTokenOnRedis(cfg, acts, id, token);
    n, tid, env := NewestSessionWasStored(cfg, acts, id);
    m := EnvelopeWasRead(cfg, acts[..n], tid, id, token, env);
    assert acts[..n][..m] == acts[..m];
    HandlerWasRight(cfg, acts[..n], tid);
    HandlerWasRight(cfg, acts[..m], tid);
    NoncesArePushed(cfg, acts[..m], id);
  }

  /** The invariant read off one handler of a reachable state. */
  lemma HandlerWasRight(cfg: Config, acts: seq<Action>, tid: nat)
    ensures
      var s := Exec(cfg, INIT, acts);
      tid in s.threads ==> ThreadInv(cfg, s.st, s.threads[tid])
  {
    ReachableInv(cfg, acts);
  }

  // ------------------------------------------------------------- token retirement

  /** The handler has this token past the nonce check and may still store it. */
  ghost predicate PastNonceCheck(th: Thread, id: UserId, token: string) {
    (th.FinAuth1? || th.FinAuth2?) && th.id == id && th.token == token
  }

  ghost predicate InFlight(s: State, id: UserId, token: string) {
    exists tid :: tid in s.threads && PastNonceCheck(s.threads[tid], id, token)
  }

  /** The nonce has left the window and no handler has the token past the check. */
  ghost predicate Retired(s: State, id: UserId, token: string)
    requires WellFormedToken(token)
  {
    NonceOf(token) !in Window(Of(s.st.nonces, id)) && !InFlight(s, id, token)
  }

  /** None of the nonces pushed since is this one. */
  ghost predicate NotIssuedSince(st: Histories, st': Histories, id: UserId, nonce: Bytes) {
    var h, h' := Of(st.nonces, id), Of(st'.nonces, id);
    |h| <= |h'| && nonce !in h'[..|h'| - |h|]
  }

  /** Every session with this token was there before. */
  ghost predicate NoNewSession(s: State, s': State, id: UserId, token: string) {
    forall session: Session :: session in Of(s'.st.sessions, id) && session.token == token ==>
      session in Of(s.st.sessions, id)
  }

  predicate AcceptsToken(cfg: Config, s: State, a: Action, id: UserId, token: string) {
    Accepts(cfg, s, a, id) && s.threads[a.tid].token == token
  }

  /** Some finalize request with this token is answered with success. */
  predicate AcceptedIn(cfg: Config, s: State, acts: seq<Action>, id: UserId, token: string)
    decreases |acts|
  {
    acts != [] &&
    (AcceptsToken(cfg, s, acts[0], id, token) || AcceptedIn(cfg, Step(cfg, s, acts[0]), acts[1..], id, token))
  }

  /** A healthy push for this user. */
  predicate Pushes(s: State, a: Action, id: UserId) {
    a.Run? && !a.fault && CanRun(s.threads, a.tid) && s.threads[a.tid].StartAuth1? && s.threads[a.tid].id == id
  }

  lemma CallNonces(st: Histories, now: nat, th: Thread, id: UserId)
    requires !th.Finished?
    ensures Of(HistoryDo(st, now, NextCall(th)).0.nonces, id)
         == if th.StartAuth1? && th.id == id then [th.nonce] + Of(st.nonces, id) else Of(st.nonces, id)
  {
  }

  lemma StepNonces(cfg: Config, s: State, a: Action, id: UserId)
    ensures Of(Step(cfg, s, a).st.nonces, id)
         == if Pushes(s, a, id) then [s.threads[a.tid].nonce] + Of(s.st.nonces, id) else Of(s.st.nonces, id)
  {
    if a.Run? && CanRun(s.threads, a.tid) {
      CallNonces(s.st, s.now, s.threads[a.tid], id);
    }
  }

  /** The nonces pushed for a user, newest first, read off the actions. */
  function Pushed(cfg: Config, s: State, acts: seq<Action>, id: UserId): seq<Bytes>
    decreases |acts|
  {
    if acts == [] then []
    else
      var before := acts[..|acts| - 1];
      var a := acts[|acts| - 1];
      var s' := Exec(cfg, s, before);
      if Pushes(s', a, id) then [s'.threads[a.tid].nonce] + Pushed(cfg, s, before, id) else Pushed(cfg, s, before, id)
  }

  lemma {:induction false} NoncesArePushed(cfg: Config, acts: seq<Action>, id: UserId)
    ensures Of(Exec(cfg, INIT, acts).st.nonces, id) == Pushed(cfg, INIT, acts, id)
    decreases |acts|
  {
    if acts != [] {
      var before := acts[..|acts| - 1];
      NoncesArePushed(cfg, before, id);
      ExecLast(cfg, INIT, acts);
      StepNonces(cfg, Exec(cfg, INIT, before), acts[|acts| - 1], id);
    }
  }

  /** The window is exact on the lazily trimmed list: after any interleaving of
      pushes, trims and reads and whatever the coins said, the nonce check says
      yes exactly to the twenty-one nonces pushed last for the user. */
  lemma WindowIsExact(cfg: Config, acts: seq<Action>, id: UserId, nonce: Bytes)
    requires PlainActions(acts) && Plain(id.app)
    ensures
      var r := RedisExec(cfg, REDIS_INIT, acts);
      var reply := RedisDo(r.db, r.now, ListNonces(id)).1;
      var pushed := Pushed(cfg, INIT, acts, id);
      && reply.EntriesAre?
      && (Listed(reply.entries, nonce) <==> exists i :: 0 <= i < |pushed| && i < 21 && pushed[i] == nonce)
  {
    RedisRefinesStorage(cfg, acts);
    NoncesArePushed(cfg, acts, id);
    var pushed := Pushed(cfg, INIT, acts, id);
    var r := RedisExec(cfg, REDIS_INIT, acts);
    CallRefines(r.db, Exec(cfg, INIT, acts).st, r.now, ListNonces(id));
    ListedIsMembership(Window(pushed), nonce);
    WindowIsTwentyOne(pushed);
    assert forall i :: 0 <= i < |Window(pushed)| ==> Window(pushed)[i] == pushed[i];
  }

  /** A healthy trim for this user. */
  predicate Trims(s: State, a: Action, id: UserId) {
    a.Run? && !a.fault && CanRun(s.threads, a.tid) && s.threads[a.tid].StartAuth2? && s.threads[a.tid].id == id
  }

  /** How many nonces were pushed for a user since the last healthy trim. */
  function SinceTrim(cfg: Config, s: State, acts: seq<Action>, id: UserId): nat
    decreases |acts|
  {
    if acts == [] then 0
    else
      var before := acts[..|acts| - 1];
      var a := acts[|acts| - 1];
      var s' := Exec(cfg, s, before);
      if Trims(s', a, id) then 0
      else SinceTrim(cfg, s, before, id) + if Pushes(s', a, id) then 1 else 0
  }

  lemma StoredInStep(cfg: Config, r: RedisState, s: State, a: Action, id: UserId)
    requires Simulates(r, s, PlainIds()) && Plain(id.app)
    ensures
      var r' := RedisStep(cfg, r, a);
      |StoredNonces(r'.db, r'.now, id)|
        <= if Trims(s, a, id) then 21 else |StoredNonces(r.db, r.now, id)| + if Pushes(s, a, id) then 1 else 0
  {
    if a.Run? && CanRun(r.threads, a.tid) && !a.fault && !r.threads[a.tid].Secret0? {
      OthersKeepList(r.db, r.now, NextCall(r.threads[a.tid]), id);
    } else if a.Run? && CanRun(r.threads, a.tid) && !a.fault {
      FamiliesDisjoint(SecretOf(r.threads[a.tid].app), NoncesOf(id));
    }
  }

  lemma {:induction false} RedisExecAppend(cfg: Config, r: RedisState, a: seq<Action>, b: seq<Action>)
    ensures RedisExec(cfg, r, a + b) == RedisExec(cfg, RedisExec(cfg, r, a), b)
    decreases |a|
  {
    if a == [] {
      assert a + b == b;
    } else {
      RedisExecAppend(cfg, RedisStep(cfg, r, a[0]), a[1..], b);
      assert (a + b)[1..] == a[1..] + b;
    }
  }

  lemma RedisExecLast(cfg: Config, r: RedisState, acts: seq<Action>)
    requires acts != []
    ensures RedisExec(cfg, r, acts) == RedisStep(cfg, RedisExec(cfg, r, acts[..|acts| - 1]), acts[|acts| - 1])
  {
    var n := |acts| - 1;
    assert acts == acts[..n] + ([acts[n]] + []);
    RedisExecAppend(cfg, r, acts[..n], [acts[n]] + []);
    RedisExecOnce(cfg, RedisExec(cfg, r, acts[..n]), acts[n], []);
  }

  /** However the coins fall, no more is stored than the window and what was pushed
      since the last trim went through. */
  lemma {:induction false} StoredListIsShort(cfg: Config, acts: seq<Action>, id: UserId)
    requires PlainActions(acts) && Plain(id.app)
    ensures
      var r := RedisExec(cfg, REDIS_INIT, acts);
      |StoredNonces(r.db, r.now, id)| <= 21 + SinceTrim(cfg, INIT, acts, id)
    decreases |acts|
  {
    if acts != [] {
      var before := acts[..|acts| - 1];
      StoredListIsShort(cfg, before, id);
      EmptyRepresents(PlainIds());
      PlainNamesDiffer();
      RunRefines(cfg, REDIS_INIT, INIT, before, PlainIds());
      RedisExecLast(cfg, REDIS_INIT, acts);
      StoredInStep(cfg, RedisExec(cfg, REDIS_INIT, before), Exec(cfg, INIT, before), acts[|acts| - 1], id);
    }
  }

  /** Passing the nonce check means the nonce was in the window just then. */
  lemma OnlyWindowPasses(cfg: Config, s: State, a: Action, tid: nat, id: UserId, token: string)
    requires WellFormedToken(token) && Retired(s, id, token)
    requires tid in Step(cfg, s, a).threads
    ensures !PastNonceCheck(Step(cfg, s, a).threads[tid], id, token)
  {
    ListedIsMembership(Window(Of(s.st.nonces, id)), NonceOf(token));
    assert tid in s.threads ==> !PastNonceCheck(s.threads[tid], id, token);
  }

  /** The window gets nothing but what is issued. */
  lemma WindowKeepsOut(cfg: Config, s: State, a: Action, id: UserId, nonce: Bytes)
    requires nonce !in Window(Of(s.st.nonces, id)) && NotIssuedSince(s.st, Step(cfg, s, a).st, id, nonce)
    ensures nonce !in Window(Of(Step(cfg, s, a).st.nonces, id))
  {
    var h, h' := Of(s.st.nonces, id), Of(Step(cfg, s, a).st.nonces, id);
    StepNonces(cfg, s, a, id);
    WindowIsTwentyOne(h);
    WindowIsTwentyOne(h');
    if Pushes(s, a, id) {
      assert h'[..1] == [s.threads[a.tid].nonce];
      assert forall i :: 1 <= i < |Window(h')| ==> Window(h')[i] == Window(h)[i - 1];
    }
  }

  lemma StepKeepsRetired(cfg: Config, s: State, a: Action, id: UserId, token: string)
    requires WellFormedToken(token) && Retired(s, id, token)
    requires NotIssuedSince(s.st, Step(cfg, s, a).st, id, NonceOf(token))
    ensures Retired(Step(cfg, s, a), id, token)
    ensures NoNewSession(s, Step(cfg, s, a), id, token) && !AcceptsToken(cfg, s, a, id, token)
  {
    var s' := Step(cfg, s, a);
    WindowKeepsOut(cfg, s, a, id, NonceOf(token));
    forall tid | tid in s'.threads ensures !PastNonceCheck(s'.threads[tid], id, token) {
      OnlyWindowPasses(cfg, s, a, tid, id, token);
    }
    StepSessions(cfg, s, a, id);
    AcceptsExactly(cfg, s, a, id);
    assert Accepts(cfg, s, a, id) ==> !PastNonceCheck(s.threads[a.tid], id, token);
  }

  lemma PrefixSplits<T>(h: seq<T>, m: seq<T>, h': seq<T>, x: T)
    requires IsSuffix(h, m) && IsSuffix(m, h') && x !in h'[..|h'| - |h|]
    ensures x !in m[..|m| - |h|] && x !in h'[..|h'| - |m|]
  {
    var first := h'[..|h'| - |m|];
    var whole := h'[..|h'| - |h|];
    assert whole == first + m[..|m| - |h|];
  }

  lemma NotIssuedSplits(st: Histories, m: Histories, st': Histories, id: UserId, nonce: Bytes)
    requires NotIssuedSince(st, st', id, nonce) && Grows(st, m) && Grows(m, st')
    ensures NotIssuedSince(st, m, id, nonce) && NotIssuedSince(m, st', id, nonce)
  {
    assert GrowsFor(st, m, id) && GrowsFor(m, st', id);
    PrefixSplits(Of(st.nonces, id), Of(m.nonces, id), Of(st'.nonces, id), nonce);
  }

  lemma NotIssuedSteps(cfg: Config, s: State, acts: seq<Action>, id: UserId, nonce: Bytes)
    requires acts != [] && NotIssuedSince(s.st, Exec(cfg, s, acts).st, id, nonce)
    ensures
      var m := Step(cfg, s, acts[0]);
      NotIssuedSince(s.st, m.st, id, nonce) && NotIssuedSince(m.st, Exec(cfg, m, acts[1..]).st, id, nonce)
  {
    var m := Step(cfg, s, acts[0]);
    StepIsLater(cfg, s, acts[0]);
    RunIsLater(cfg, m, acts[1..]);
    NotIssuedSplits(s.st, m.st, Exec(cfg, s, acts).st, id, nonce);
  }

  /** A retired token stays retired, is never accepted and makes no session. */
  lemma {:induction false} RunKeepsRetired(cfg: Config, s: State, acts: seq<Action>, id: UserId, token: string)
    requires WellFormedToken(token) && Retired(s, id, token)
    requires NotIssuedSince(s.st, Exec(cfg, s, acts).st, id, NonceOf(token))
    ensures Retired(Exec(cfg, s, acts), id, token)
    ensures NoNewSession(s, Exec(cfg, s, acts), id, token) && !AcceptedIn(cfg, s, acts, id, token)
    decreases |acts|
  {
    if acts != [] {
      NotIssuedSteps(cfg, s, acts, id, NonceOf(token));
      StepKeepsRetired(cfg, s, acts[0], id, token);
      RunKeepsRetired(cfg, Step(cfg, s, acts[0]), acts[1..], id, token);
    }
  }

  /** Twenty-one later issues push a nonce out of the window. */
  lemma TwentyOneIssuesRetire(st: Histories, st': Histories, id: UserId, nonce: Bytes)
    requires NotIssuedSince(st, st', id, nonce)
    requires |Of(st'.nonces, id)| >= |Of(st.nonces, id)| + 21
    ensures nonce !in Window(Of(st'.nonces, id))
  {
    var h' := Of(st'.nonces, id);
    WindowIsTwentyOne(h');
    var new' := h'[..|h'| - |Of(st.nonces, id)|];
    forall i | 0 <= i < 21 ensures h'[i] != nonce {
      assert h'[i] == new'[i];
    }
  }

  /** A handler that is to finalize this token, or has refused to. */
  ghost predicate NeverAccepting(th: Thread, id: UserId, token: string) {
    || th == FinAuth0(id, token)
    || (th.Finished? && th.response != Accepted)
  }

  lemma StepStaysRefused(cfg: Config, s: State, a: Action, tid: nat, id: UserId, token: string)
    requires WellFormedToken(token) && NonceOf(token) !in Window(Of(s.st.nonces, id))
    requires tid in s.threads && NeverAccepting(s.threads[tid], id, token)
    ensures NeverAccepting(Step(cfg, s, a).threads[tid], id, token)
  {
    ListedIsMembership(Window(Of(s.st.nonces, id)), NonceOf(token));
  }

  lemma {:induction false} RunStaysRefused(cfg: Config, s: State, acts: seq<Action>, tid: nat, id: UserId,
                                           token: string)
    requires WellFormedToken(token) && NonceOf(token) !in Window(Of(s.st.nonces, id))
    requires NotIssuedSince(s.st, Exec(cfg, s, acts).st, id, NonceOf(token))
    requires tid in s.threads && NeverAccepting(s.threads[tid], id, token)
    ensures
      var s' := Exec(cfg, s, acts);
      tid in s'.threads && NeverAccepting(s'.threads[tid], id, token)
    decreases |acts|
  {
    if acts != [] {
      NotIssuedSteps(cfg, s, acts, id, NonceOf(token));
      WindowKeepsOut(cfg, s, acts[0], id, NonceOf(token));
      StepStaysRefused(cfg, s, acts[0], tid, id, token);
      RunStaysRefused(cfg, Step(cfg, s, acts[0]), acts[1..], tid, id, token);
    }
  }

  function WithFinalize(id: UserId, token: string, tid: nat, after: seq<Action>): seq<Action> {
    [Spawn(tid, FinalizeAuthentication(id, token))] + after
  }

  /** A finalize request that arrives when the nonce has left the window is never
      answered with success, whatever else is in flight. */
  lemma LateFinalizeRefused(cfg: Config, s: State, after: seq<Action>, id: UserId, token: string, tid: nat)
    requires WellFormedToken(token) && NonceOf(token) !in Window(Of(s.st.nonces, id)) && tid !in s.threads
    requires NotIssuedSince(s.st, Exec(cfg, s, WithFinalize(id, token, tid, after)).st, id, NonceOf(token))
    ensures
      var s' := Exec(cfg, s, WithFinalize(id, token, tid, after));
      tid in s'.threads && s'.threads[tid] != Finished(id.app, Accepted)
  {
    var acts := WithFinalize(id, token, tid, after);
    assert acts[1..] == after;
    NotIssuedSteps(cfg, s, acts, id, NonceOf(token));
    RunStaysRefused(cfg, Step(cfg, s, acts[0]), after, tid, id, token);
  }

  /** The flat database holds exactly the live session of the typed store. */
  lemma LiveTokenOnRedis(cfg: Config, acts: seq<Action>, id: UserId, token: string)
    requires PlainActions(acts) && Plain(id.app)
    ensures
      var r, s := RedisExec(cfg, REDIS_INIT, acts), Exec(cfg, INIT, acts);
      var held := Lookup(r.db, r.now, Key(SessionOf(id))) == Some(Text(token));
      r.threads == s.threads && r.now == s.now && (held <==> CurrentSession(s.st, s.now, id) == Some(token))
  {
    RedisRefinesStorage(cfg, acts);
    assert Agrees(RedisExec(cfg, REDIS_INIT, acts).db, Exec(cfg, INIT, acts).st, SessionOf(id));
  }

  lemma RetiredTokenIsDead(cfg: Config, acts: seq<Action>, more: seq<Action>, id: UserId, token: string)
    requires WellFormedToken(token) && Retired(Exec(cfg, INIT, acts), id, token)
    requires NotIssuedSince(Exec(cfg, INIT, acts).st, Exec(cfg, INIT, acts + more).st, id, NonceOf(token))
    ensures !AcceptedIn(cfg, Exec(cfg, INIT, acts), more, id, token)
    ensures
      var s, s' := Exec(cfg, INIT, acts), Exec(cfg, INIT, acts + more);
      s'.now >= s.now + SESSION_TTL ==> CurrentSession(s'.st, s'.now, id) != Some(token)
  {
    var s, s' := Exec(cfg, INIT, acts), Exec(cfg, INIT, acts + more);
    ExecAppend(cfg, INIT, acts, more);
    RunKeepsRetired(cfg, s, more, id, token);
    ReachableInv(cfg, acts);
    if CurrentSession(s'.st, s'.now, id) == Some(token) {
      var session := Of(s'.st.sessions, id)[0];
      assert session in Of(s'.st.sessions, id) && session.token == token;
      assert SessionInv(cfg, s.st, s.now, id, session);
    }
  }

  /** Once a token is retired, no continuation in which its nonce is not issued
      again accepts it; and from fifteen minutes on the flat database does not
      hold it, however often it was finalized before. */
  lemma TokenRetirement(cfg: Config, acts: seq<Action>, more: seq<Action>, id: UserId, token: string)
    requires WellFormedToken(token) && Plain(id.app) && PlainActions(acts + more)
    requires Retired(Exec(cfg, INIT, acts), id, token)
    requires NotIssuedSince(Exec(cfg, INIT, acts).st, Exec(cfg, INIT, acts + more).st, id, NonceOf(token))
    ensures !AcceptedIn(cfg, Exec(cfg, INIT, acts), more, id, token)
    ensures
      var r, r' := RedisExec(cfg, REDIS_INIT, acts), RedisExec(cfg, REDIS_INIT, acts + more);
      r'.now >= r.now + SESSION_TTL ==> Lookup(r'.db, r'.now, Key(SessionOf(id))) != Some(Text(token))
  {
    assert forall i :: 0 <= i < |acts| ==> acts[i] == (acts + more)[i];
    RetiredTokenIsDead(cfg, acts, more, id, token);
    LiveTokenOnRedis(cfg, acts, id, token);
    LiveTokenOnRedis(cfg, acts + more, id, token);
  }

  /** From twenty-one further login starts to the end of the token: when they are
      issued and no handler has the token past its check at that point, it is
      never accepted again and fifteen minutes later it is gone for good. */
  lemma TwentyOneStartsEndToken(cfg: Config, acts: seq<Action>, issuing: seq<Action>, more: seq<Action>,
                                id: UserId, token: string)
    requires WellFormedToken(token) && Plain(id.app) && PlainActions(acts + issuing + more)
    requires |Pushed(cfg, INIT, acts + issuing, id)| >= |Pushed(cfg, INIT, acts, id)| + 21
    requires !InFlight(Exec(cfg, INIT, acts + issuing), id, token)
    requires
      NotIssuedSince(Exec(cfg, INIT, acts).st, Exec(cfg, INIT, acts + issuing + more).st, id, NonceOf(token))
    ensures !AcceptedIn(cfg, Exec(cfg, INIT, acts + issuing), more, id, token)
    ensures
      var r, r' := RedisExec(cfg, REDIS_INIT, acts + issuing), RedisExec(cfg, REDIS_INIT, acts + issuing + more);
      r'.now >= r.now + SESSION_TTL ==> Lookup(r'.db, r'.now, Key(SessionOf(id))) != Some(Text(token))
  {
    var s, m := Exec(cfg, INIT, acts), Exec(cfg, INIT, acts + issuing);
    NoncesArePushed(cfg, acts, id);
    NoncesArePushed(cfg, acts + issuing, id);
    ExecAppend(cfg, INIT, acts, issuing);
    ExecAppend(cfg, INIT, acts + issuing, more);
    RunIsLater(cfg, s, issuing);
    RunIsLater(cfg, m, more);
    NotIssuedSplits(s.st, m.st, Exec(cfg, INIT, acts + issuing + more).st, id, NonceOf(token));
    TwentyOneIssuesRetire(s.st, m.st, id, NonceOf(token));
    TokenRetirement(cfg, acts + issuing, more, id, token);
  }
}
