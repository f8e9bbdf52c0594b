/** The running system: any number of handlers in flight, one database call at
    a time, in any order the schedule says. It is defined over the typed store
    and over the flat database, and the second refines the first on every run. */
module Machine {
  import opened Encoding
  import opened Storage
  import opened Suite
  import opened Redis
  import opened Handlers

  /** A schedule is a list of actions; a faulty call fails and does nothing. */
  datatype Action =
    | Spawn(tid: nat, request: Request)
    | Run(tid: nat, fault: bool)
    | Tick(ms: nat)

  type Threads = map<nat, Thread>

  datatype State = State(st: Histories, now: nat, threads: Threads)

  const INIT := State(EMPTY, 0, map[])

  predicate CanRun(threads: Threads, tid: nat) {
    tid in threads && !threads[tid].Finished?
  }

  function Step(cfg: Config, s: State, a: Action): State {
    match a
    case Spawn(tid, request) => if tid in s.threads then s else s.(threads := s.threads[tid := Start(request)])
    case Run(tid, fault) =>
      if !CanRun(s.threads, tid) then s
      else
        var th := s.threads[tid];
        var (st', reply) := if fault then (s.st, Failed) else HistoryDo(s.st, s.now, NextCall(th));
        State(st', s.now, s.threads[tid := Resume(cfg, s.now, th, reply)])
    case Tick(ms) => s.(now := s.now + ms)
  }

  function Exec(cfg: Config, s: State, acts: seq<Action>): State
    decreases |acts|
  {
    if acts == [] then s else Exec(cfg, Step(cfg, s, acts[0]), acts[1..])
  }

  lemma {:induction false} ExecAppend(cfg: Config, s: State, a: seq<Action>, b: seq<Action>)
    ensures Exec(cfg, s, a + b) == Exec(cfg, Exec(cfg, s, a), b)
    decreases |a|
  {
    if a == [] {
      assert a + b == b;
    } else {
      ExecAppend(cfg, Step(cfg, s, a[0]), a[1..], b);
      assert (a + b)[1..] == a[1..] + b;
    }
  }

  // -------------------------------------------------------- over the flat database

  datatype RedisState = RedisState(db: Db, now: nat, threads: Threads)

  const REDIS_INIT := RedisState(map[], 0, map[])

  function RedisStep(cfg: Config, s: RedisState, a: Action): RedisState {
    match a
    case Spawn(tid, request) => if tid in s.threads then s else s.(threads := s.threads[tid := Start(request)])
    case Run(tid, fault) =>
      if !CanRun(s.threads, tid) then s
      else
        var th := s.threads[tid];
        var (db', reply) := if fault then (s.db, Failed) else RedisDo(s.db, s.now, NextCall(th));
        RedisState(db', s.now, s.threads[tid := Resume(cfg, s.now, th, reply)])
    case Tick(ms) => s.(now := s.now + ms)
  }

  function RedisExec(cfg: Config, s: RedisState, acts: seq<Action>): RedisState
    decreases |acts|
  {
    if acts == [] then s else RedisExec(cfg, RedisStep(cfg, s, acts[0]), acts[1..])
  }

  predicate RequestWithin(r: Request, ids: iset<UserId>) {
    r.SetSecret? || r.id in ids
  }

  predicate ThreadWithin(th: Thread, ids: iset<UserId>) {
    th.Secret0? || th.Finished? || th.id in ids
  }

  /** The schedule has requests of these users only. */
  predicate ActionsWithin(acts: seq<Action>, ids: iset<UserId>) {
    forall a :: a in acts && a.Spawn? ==> RequestWithin(a.request, ids)
  }

  ghost predicate Simulates(r: RedisState, s: State, ids: iset<UserId>) {
    && r.now == s.now && r.threads == s.threads
    && RepresentsWithin(r.db, s.st, ids)
    && forall tid :: tid in s.threads ==> ThreadWithin(s.threads[tid], ids)
  }

  lemma ThreadKeepsId(cfg: Config, now: nat, th: Thread, reply: Reply, ids: iset<UserId>)
    requires !th.Finished? && ThreadWithin(th, ids)
    ensures Within(SlotOf(NextCall(th)), ids) && ThreadWithin(Resume(cfg, now, th, reply), ids)
  {
  }

  lemma StepRefines(cfg: Config, r: RedisState, s: State, a: Action, ids: iset<UserId>)
    requires DistinctNames(ids) && Simulates(r, s, ids)
    requires a.Spawn? ==> RequestWithin(a.request, ids)
    ensures Simulates(RedisStep(cfg, r, a), Step(cfg, s, a), ids)
  {
    if a.Run? && CanRun(s.threads, a.tid) {
      var th := s.threads[a.tid];
      ThreadKeepsId(cfg, s.now, th, Failed, ids);
      if !a.fault {
        CallRefinesWithin(r.db, s.st, s.now, NextCall(th), ids);
        ThreadKeepsId(cfg, s.now, th, HistoryDo(s.st, s.now, NextCall(th)).1, ids);
      }
    }
  }

  lemma {:induction false} RunRefines(cfg: Config, r: RedisState, s: State, acts: seq<Action>, ids: iset<UserId>)
    requires DistinctNames(ids) && Simulates(r, s, ids) && ActionsWithin(acts, ids)
    ensures Simulates(RedisExec(cfg, r, acts), Exec(cfg, s, acts), ids)
    decreases |acts|
  {
    if acts != [] {
      StepRefines(cfg, r, s, acts[0], ids);
      RunRefines(cfg, RedisStep(cfg, r, acts[0]), Step(cfg, s, acts[0]), acts[1..], ids);
    }
  }

  /** No request of the schedule names an app token with a ':' in it. */
  predicate PlainActions(acts: seq<Action>) {
    forall i :: 0 <= i < |acts| && acts[i].Spawn? ==> Plain(AppOfRequest(acts[i].request))
  }

  /** The flat database, lazily trimmed and expiring, answers every request of
      every schedule as the typed store that forgets nothing would. */
  lemma RedisRefinesStorage(cfg: Config, acts: seq<Action>)
    requires PlainActions(acts)
    ensures
      var r := RedisExec(cfg, REDIS_INIT, acts);
      var s := Exec(cfg, INIT, acts);
      r.threads == s.threads && r.now == s.now && Represents(r.db, s.st)
  {
    EmptyRepresents(PlainIds());
    PlainNamesDiffer();
    RunRefines(cfg, REDIS_INIT, INIT, acts, PlainIds());
  }

  // ------------------------------------------------- exactly when it is a refinement

  /** One user registers, then another one tries to. */
  function TwoSignUps(a: UserId, b: UserId, evalReq: seq<nat>, kU: nat): seq<Action> {
    [Spawn(0, StartRegistration(a, evalReq, kU)), Run(0, false), Run(0, false),
     Spawn(1, StartRegistration(b, evalReq, kU)), Run(1, false)]
  }

  lemma RedisExecOnce(cfg: Config, r: RedisState, a: Action, rest: seq<Action>)
    ensures RedisExec(cfg, r, [a] + rest) == RedisExec(cfg, RedisStep(cfg, r, a), rest)
  {
    assert ([a] + rest)[1..] == rest;
  }

  lemma ExecOnce(cfg: Config, s: State, a: Action, rest: seq<Action>)
    ensures Exec(cfg, s, [a] + rest) == Exec(cfg, Step(cfg, s, a), rest)
  {
    assert ([a] + rest)[1..] == rest;
  }

  /** With one joined name for both, Redis refuses the second user as already
      registered; the typed store lets it go on. */
  lemma SharedNameIsSeen(cfg: Config, a: UserId, b: UserId, evalReq: seq<nat>, kU: nat)
    requires a != b && Joined(a) == Joined(b)
    ensures
      var acts := TwoSignUps(a, b, evalReq, kU);
      var r, s := RedisExec(cfg, REDIS_INIT, acts), Exec(cfg, INIT, acts);
      && 1 in r.threads && r.threads[1] == Finished(b.app, Rejected(403, "User already registered"))
      && 1 in s.threads && s.threads[1] == StartReg1(b, evalReq, kU)
  {
    var spawnA, spawnB := Spawn(0, StartRegistration(a, evalReq, kU)), Spawn(1, StartRegistration(b, evalReq, kU));
    var run := Run(0, false);
    var acts := TwoSignUps(a, b, evalReq, kU);
    assert acts == [spawnA] + ([run] + ([run] + ([spawnB] + ([Run(1, false)] + []))));
    RedisAlone(cfg, a, evalReq, kU, [spawnB] + ([Run(1, false)] + []));
    TypedAlone(cfg, a, evalReq, kU, [spawnB] + ([Run(1, false)] + []));
    var key := Key(RequestOf(a));
    assert key == Key(RequestOf(b));
    var r := RedisState(map[key := Entry(Value.Request(UserRequest(MarshalScalar(kU))), None)], 0,
                        map[0 := Finished(a.app, Evaluated(Evaluate(cfg.c, kU, evalReq)))]);
    RedisExecOnce(cfg, r, spawnB, [Run(1, false)] + []);
    RedisExecOnce(cfg, RedisStep(cfg, r, spawnB), Run(1, false), []);
    var s := State(EMPTY.(requests := map[a := [UserRequest(MarshalScalar(kU))]]), 0, r.threads);
    ExecOnce(cfg, s, spawnB, [Run(1, false)] + []);
    ExecOnce(cfg, Step(cfg, s, spawnB), Run(1, false), []);
  }

  lemma RedisAlone(cfg: Config, a: UserId, evalReq: seq<nat>, kU: nat, rest: seq<Action>)
    ensures
      var done := Finished(a.app, Evaluated(Evaluate(cfg.c, kU, evalReq)));
      var db := map[Key(RequestOf(a)) := Entry(Value.Request(UserRequest(MarshalScalar(kU))), None)];
      RedisExec(cfg, REDIS_INIT,
                [Spawn(0, StartRegistration(a, evalReq, kU))] + ([Run(0, false)] + ([Run(0, false)] + rest)))
        == RedisExec(cfg, RedisState(db, 0, map[0 := done]), rest)
  {
    var spawn, run := Spawn(0, StartRegistration(a, evalReq, kU)), Run(0, false);
    RedisExecOnce(cfg, REDIS_INIT, spawn, [run] + ([run] + rest));
    var r1 := RedisState(map[], 0, map[0 := StartReg0(a, evalReq, kU)]);
    RedisExecOnce(cfg, r1, run, [run] + rest);
    var r2 := RedisState(map[], 0, map[0 := StartReg1(a, evalReq, kU)]);
    assert RedisStep(cfg, r1, run) == r2;
    RedisExecOnce(cfg, r2, run, rest);
    var done := Finished(a.app, Evaluated(Evaluate(cfg.c, kU, evalReq)));
    var db := map[Key(RequestOf(a)) := Entry(Value.Request(UserRequest(MarshalScalar(kU))), None)];
    assert RedisStep(cfg, r2, run) == RedisState(db, 0, map[0 := done]);
  }

  lemma TypedAlone(cfg: Config, a: UserId, evalReq: seq<nat>, kU: nat, rest: seq<Action>)
    ensures
      var done := Finished(a.app, Evaluated(Evaluate(cfg.c, kU, evalReq)));
      var st := EMPTY.(requests := map[a := [UserRequest(MarshalScalar(kU))]]);
      Exec(cfg, INIT, [Spawn(0, StartRegistration(a, evalReq, kU))] + ([Run(0, false)] + ([Run(0, false)] + rest)))
        == Exec(cfg, State(st, 0, map[0 := done]), rest)
  {
    var spawn, run := Spawn(0, StartRegistration(a, evalReq, kU)), Run(0, false);
    ExecOnce(cfg, INIT, spawn, [run] + ([run] + rest));
    var s1 := State(EMPTY, 0, map[0 := StartReg0(a, evalReq, kU)]);
    ExecOnce(cfg, s1, run, [run] + rest);
    var s2 := State(EMPTY, 0, map[0 := StartReg1(a, evalReq, kU)]);
    assert Step(cfg, s1, run) == s2;
    ExecOnce(cfg, s2, run, rest);
    var done := Finished(a.app, Evaluated(Evaluate(cfg.c, kU, evalReq)));
    var st := EMPTY.(requests := map[a := [UserRequest(MarshalScalar(kU))]]);
    var request := UserRequest(MarshalScalar(kU));
    assert [request] + [] == [request];
    assert HistoryDo(EMPTY, 0, PutRequest(a, request)).0 == st;
    assert Step(cfg, s2, run) == State(st, 0, map[0 := done]);
  }

  /** All answers of all schedules over these users are those of the typed store. */
  ghost predicate AnswersAlike(cfg: Config, ids: iset<UserId>) {
    forall acts :: ActionsWithin(acts, ids) ==>
      RedisExec(cfg, REDIS_INIT, acts).threads == Exec(cfg, INIT, acts).threads
  }

  /** Exactly when the flat database refines the typed store for a set of users:
      if and only if no two of them have the same joined name. */
  lemma RefinementExactly(cfg: Config, ids: iset<UserId>)
    ensures DistinctNames(ids) <==> AnswersAlike(cfg, ids)
  {
    if DistinctNames(ids) {
      forall acts | ActionsWithin(acts, ids)
        ensures RedisExec(cfg, REDIS_INIT, acts).threads == Exec(cfg, INIT, acts).threads
      {
        EmptyRepresents(ids);
        RunRefines(cfg, REDIS_INIT, INIT, acts, ids);
      }
    } else {
      var a, b :| a in ids && b in ids && Joined(a) == Joined(b) && a != b;
      var acts := TwoSignUps(a, b, [2], 1);
      SharedNameIsSeen(cfg, a, b, [2], 1);
      assert ActionsWithin(acts, ids);
    }
  }

  // ------------------------------------------------------------- what runs preserve

  /** The store only grows, time only advances and no handler disappears. */
  ghost predicate Later(s: State, s': State) {
    && Grows(s.st, s'.st) && s.now <= s'.now
    && forall tid :: tid in s.threads ==>
        tid in s'.threads && (s.threads[tid].Finished? ==> s'.threads[tid] == s.threads[tid])
  }

  lemma StepIsLater(cfg: Config, s: State, a: Action)
    ensures Later(s, Step(cfg, s, a))
  {
    if a.Run? && CanRun(s.threads, a.tid) {
      CallGrows(s.st, s.now, NextCall(s.threads[a.tid]));
    }
  }

  lemma LaterTransitive(a: State, b: State, c: State)
    requires Later(a, b) && Later(b, c)
    ensures Later(a, c)
  {
    GrowsTransitive(a.st, b.st, c.st);
  }

  lemma {:induction false} RunIsLater(cfg: Config, s: State, acts: seq<Action>)
    ensures Later(s, Exec(cfg, s, acts))
    decreases |acts|
  {
    if acts != [] {
      var s' := Step(cfg, s, acts[0]);
      StepIsLater(cfg, s, acts[0]);
      RunIsLater(cfg, s', acts[1..]);
      LaterTransitive(s, s', Exec(cfg, s', acts[1..]));
    }
  }

  lemma StepGrowsFor(cfg: Config, s: State, a: Action, id: UserId)
    ensures GrowsFor(s.st, Step(cfg, s, a).st, id) && s.now <= Step(cfg, s, a).now
  {
    StepIsLater(cfg, s, a);
  }

  lemma RunGrowsFor(cfg: Config, s: State, acts: seq<Action>, id: UserId)
    ensures GrowsFor(s.st, Exec(cfg, s, acts).st, id) && s.now <= Exec(cfg, s, acts).now
  {
    RunIsLater(cfg, s, acts);
  }

  lemma RunKeepsThread(cfg: Config, s: State, acts: seq<Action>, tid: nat)
    requires tid in s.threads
    ensures
      var s' := Exec(cfg, s, acts);
      tid in s'.threads && (s.threads[tid].Finished? ==> s'.threads[tid] == s.threads[tid])
  {
    RunIsLater(cfg, s, acts);
  }

  /** A handler only moves when it is its turn. */
  lemma OthersKeepThread(cfg: Config, s: State, a: Action, tid: nat)
    requires tid in s.threads && !(a.Run? && a.tid == tid)
    ensures
      var s' := Step(cfg, s, a);
      tid in s'.threads && s'.threads[tid] == s.threads[tid]
  {
  }

  /** An in-flight handler always comes to its answer when it is scheduled. */
  lemma {:induction false} HandlersTerminate(cfg: Config, s: State, tid: nat, faults: seq<bool>)
    requires tid in s.threads && |faults| >= Remaining(s.threads[tid])
    ensures
      var acts := seq(|faults|, i requires 0 <= i < |faults| => Run(tid, faults[i]));
      var s' := Exec(cfg, s, acts);
      tid in s'.threads && s'.threads[tid].Finished?
    decreases |faults|
  {
    var acts := seq(|faults|, i requires 0 <= i < |faults| => Run(tid, faults[i]));
    if s.threads[tid].Finished? {
      RunIsLater(cfg, s, acts);
    } else {
      var th := s.threads[tid];
      ResumeGetsCloser(cfg, s.now, th, Failed);
      ResumeGetsCloser(cfg, s.now, th, HistoryDo(s.st, s.now, NextCall(th)).1);
      HandlersTerminate(cfg, Step(cfg, s, acts[0]), tid, faults[1..]);
      var rest := faults[1..];
      assert acts[1..] == seq(|rest|, i requires 0 <= i < |rest| => Run(tid, rest[i]));
    }
  }

  // ------------------------------------------------------------------- invariants

  ghost predicate KeyWasStored(st: Histories, id: UserId, key: Bytes) {
    UserRequest(key) in Of(st.requests, id)
  }

  /** An issued nonce of the same user, and the key part that some stored
      envelope of the same user gives for it. */
  ghost predicate Justified(cfg: Config, st: Histories, id: UserId, token: string, env: UserEnvelope) {
    && WellFormedToken(token)
    && NonceOf(token) in Of(st.nonces, id)
    && env in Of(st.envelopes, id)
    && Matches(cfg, token, env)
  }

  ghost predicate ThreadInv(cfg: Config, st: Histories, th: Thread) {
    match th
    case FinReg1(id, _, key) => KeyWasStored(st, id, key)
    case StartAuth1(id, _, env, _, _) => env in Of(st.envelopes, id)
    case StartAuth2(id, _, env, nonce) => env in Of(st.envelopes, id) && nonce in Of(st.nonces, id)
    case FinAuth0(_, token) => WellFormedToken(token)
    case FinAuth1(id, token) => WellFormedToken(token) && NonceOf(token) in Of(st.nonces, id)
    case FinAuth2(id, token, env) => Justified(cfg, st, id, token, env)
    case _ => true
  }

  /** Every envelope was sealed with a key stored for that same user before;
      in particular there is no envelope without a request. */
  ghost predicate EnvelopesInv(st: Histories) {
    forall id: UserId, env: UserEnvelope :: env in Of(st.envelopes, id) ==> KeyWasStored(st, id, env.key)
  }

  ghost predicate SessionInv(cfg: Config, st: Histories, now: nat, id: UserId, session: Session) {
    && session.expires <= now + SESSION_TTL
    && exists env: UserEnvelope :: Justified(cfg, st, id, session.token, env)
  }

  ghost predicate SessionsInv(cfg: Config, st: Histories, now: nat) {
    forall id: UserId, session: Session :: session in Of(st.sessions, id) ==> SessionInv(cfg, st, now, id, session)
  }

  ghost predicate Inv(cfg: Config, s: State) {
    && (forall tid :: tid in s.threads ==> ThreadInv(cfg, s.st, s.threads[tid]))
    && EnvelopesInv(s.st)
    && SessionsInv(cfg, s.st, s.now)
  }

  lemma SuffixKeeps<T>(a: seq<T>, b: seq<T>, x: T)
    requires IsSuffix(a, b) && x in a
    ensures x in b
  {
    assert x in b[..|b| - |a|] + a;
  }

  lemma RequestKept(st: Histories, st': Histories, id: UserId, key: Bytes)
    requires Grows(st, st') && KeyWasStored(st, id, key)
    ensures KeyWasStored(st', id, key)
  {
    assert GrowsFor(st, st', id);
    SuffixKeeps(Of(st.requests, id), Of(st'.requests, id), UserRequest(key));
  }

  lemma EnvelopeKept(st: Histories, st': Histories, id: UserId, env: UserEnvelope)
    requires Grows(st, st') && env in Of(st.envelopes, id)
    ensures env in Of(st'.envelopes, id)
  {
    assert GrowsFor(st, st', id);
    SuffixKeeps(Of(st.envelopes, id), Of(st'.envelopes, id), env);
  }

  lemma NonceKept(st: Histories, st': Histories, id: UserId, nonce: Bytes)
    requires Grows(st, st') && nonce in Of(st.nonces, id)
    ensures nonce in Of(st'.nonces, id)
  {
    assert GrowsFor(st, st', id);
    SuffixKeeps(Of(st.nonces, id), Of(st'.nonces, id), nonce);
  }

  lemma JustifiedGrows(cfg: Config, st: Histories, st': Histories, id: UserId, token: string, env: UserEnvelope)
    requires Grows(st, st') && Justified(cfg, st, id, token, env)
    ensures Justified(cfg, st', id, token, env)
  {
    NonceKept(st, st', id, NonceOf(token));
    EnvelopeKept(st, st', id, env);
  }

  lemma ThreadInvGrows(cfg: Config, st: Histories, st': Histories, th: Thread)
    requires Grows(st, st') && ThreadInv(cfg, st, th)
    ensures ThreadInv(cfg, st', th)
  {
    match th {
      case FinReg1(id, _, key) => RequestKept(st, st', id, key);
      case StartAuth1(id, _, env, _, _) => EnvelopeKept(st, st', id, env);
      case StartAuth2(id, _, env, nonce) =>
        EnvelopeKept(st, st', id, env);
        NonceKept(st, st', id, nonce);
      case FinAuth1(id, token) => NonceKept(st, st', id, NonceOf(token));
      case FinAuth2(id, token, env) => JustifiedGrows(cfg, st, st', id, token, env);
      case _ =>
    }
  }

  /** What a reply tells its own handler. */
  lemma ResumeKeepsThreadInv(cfg: Config, st: Histories, now: nat, th: Thread, fault: bool)
    requires !th.Finished? && ThreadInv(cfg, st, th)
    ensures
      var (st', reply) := if fault then (st, Failed) else HistoryDo(st, now, NextCall(th));
      ThreadInv(cfg, st', Resume(cfg, now, th, reply))
  {
    if th.FinAuth0? && !fault {
      var h := Of(st.nonces, th.id);
      ListedIsMembership(Window(h), NonceOf(th.token));
      WindowIsTwentyOne(h);
    }
  }

  lemma CallKeepsEnvelopesInv(cfg: Config, st: Histories, now: nat, th: Thread)
    requires !th.Finished? && ThreadInv(cfg, st, th) && EnvelopesInv(st)
    ensures EnvelopesInv(HistoryDo(st, now, NextCall(th)).0)
  {
    var st' := HistoryDo(st, now, NextCall(th)).0;
    CallGrows(st, now, NextCall(th));
    forall id: UserId, env: UserEnvelope | env in Of(st'.envelopes, id)
      ensures KeyWasStored(st', id, env.key)
    {
      if !(th.FinReg1? && th.id == id && env == Sealed(th.reg, th.key)) {
        NewEnvelopes(st, now, NextCall(th), id, env);
      }
      assert KeyWasStored(st, id, env.key);
      RequestKept(st, st', id, env.key);
    }
  }

  /** Only the command that writes an envelope makes one appear. */
  lemma NewEnvelopes(st: Histories, now: nat, call: Call, id: UserId, env: UserEnvelope)
    requires env in Of(HistoryDo(st, now, call).0.envelopes, id)
    requires !(call.PutEnvelope? && call.id == id && call.envelope == env)
    ensures env in Of(st.envelopes, id)
  {
    if call.PutEnvelope? && call.id == id {
      var h' := Of(HistoryDo(st, now, call).0.envelopes, id);
      assert h' == [call.envelope] + Of(st.envelopes, id);
      var i :| 0 <= i < |h'| && h'[i] == env;
      assert Of(st.envelopes, id)[i - 1] == env;
    }
  }

  lemma CallKeepsSessionsInv(cfg: Config, st: Histories, now: nat, th: Thread)
    requires !th.Finished? && ThreadInv(cfg, st, th) && SessionsInv(cfg, st, now)
    ensures SessionsInv(cfg, HistoryDo(st, now, NextCall(th)).0, now)
  {
    var st' := HistoryDo(st, now, NextCall(th)).0;
    CallGrows(st, now, NextCall(th));
    forall id: UserId, session: Session | session in Of(st'.sessions, id)
      ensures SessionInv(cfg, st', now, id, session)
    {
      if th.FinAuth2? && th.id == id && session == Session(th.token, now + SESSION_TTL) {
        JustifiedGrows(cfg, st, st', id, session.token, th.env);
      } else {
        NewSessions(st, now, th, id, session);
        assert SessionInv(cfg, st, now, id, session);
        var env :| Justified(cfg, st, id, session.token, env);
        JustifiedGrows(cfg, st, st', id, session.token, env);
      }
    }
  }

  /** Only the last step of a finalize handler makes a session appear. */
  lemma NewSessions(st: Histories, now: nat, th: Thread, id: UserId, session: Session)
    requires !th.Finished? && session in Of(HistoryDo(st, now, NextCall(th)).0.sessions, id)
    requires !(th.FinAuth2? && th.id == id && session == Session(th.token, now + SESSION_TTL))
    ensures session in Of(st.sessions, id)
  {
    if th.FinAuth2? && th.id == id {
      var h' := Of(HistoryDo(st, now, NextCall(th)).0.sessions, id);
      assert h' == [Session(th.token, now + SESSION_TTL)] + Of(st.sessions, id);
      var i :| 0 <= i < |h'| && h'[i] == session;
      assert Of(st.sessions, id)[i - 1] == session;
    }
  }

  lemma StepKeepsInv(cfg: Config, s: State, a: Action)
    requires Inv(cfg, s)
    ensures Inv(cfg, Step(cfg, s, a))
  {
    var s' := Step(cfg, s, a);
    StepIsLater(cfg, s, a);
    if a.Run? && CanRun(s.threads, a.tid) {
      var th := s.threads[a.tid];
      ResumeKeepsThreadInv(cfg, s.st, s.now, th, a.fault);
      forall tid | tid in s'.threads
        ensures ThreadInv(cfg, s'.st, s'.threads[tid])
      {
        if tid != a.tid {
          ThreadInvGrows(cfg, s.st, s'.st, s.threads[tid]);
        }
      }
      CallKeepsEnvelopesInv(cfg, s.st, s.now, th);
      CallKeepsSessionsInv(cfg, s.st, s.now, th);
    } else if a.Tick? {
      forall id: UserId, session: Session | session in Of(s.st.sessions, id)
        ensures SessionInv(cfg, s.st, s'.now, id, session)
      {
        assert SessionInv(cfg, s.st, s.now, id, session);
      }
    }
  }

  lemma {:induction false} RunKeepsInv(cfg: Config, s: State, acts: seq<Action>)
    requires Inv(cfg, s)
    ensures Inv(cfg, Exec(cfg, s, acts))
    decreases |acts|
  {
    if acts != [] {
      StepKeepsInv(cfg, s, acts[0]);
      RunKeepsInv(cfg, Step(cfg, s, acts[0]), acts[1..]);
    }
  }

  lemma ReachableInv(cfg: Config, acts: seq<Action>)
    ensures Inv(cfg, Exec(cfg, INIT, acts))
  {
    RunKeepsInv(cfg, INIT, acts);
  }

  // ------------------------------------------------------------- the plain readings

  /** Under every interleaving: an envelope only where there is a request, with
      a key once stored for that same user, and requests are never removed. */
  lemma InterleavedRegistrations(cfg: Config, acts: seq<Action>, more: seq<Action>, id: UserId)
    ensures
      var st := Exec(cfg, INIT, acts).st;
      var st' := Exec(cfg, INIT, acts + more).st;
      && (forall env :: env in Of(st.envelopes, id) ==> UserRequest(env.key) in Of(st.requests, id))
      && (Of(st.envelopes, id) != [] ==> Of(st.requests, id) != [])
      && IsSuffix(Of(st.requests, id), Of(st'.requests, id))
  {
    var s := Exec(cfg, INIT, acts);
    ReachableInv(cfg, acts);
    ExecAppend(cfg, INIT, acts, more);
    RunIsLater(cfg, s, more);
    assert GrowsFor(s.st, Exec(cfg, s, more).st, id);
    forall env | env in Of(s.st.envelopes, id)
      ensures UserRequest(env.key) in Of(s.st.requests, id)
    {
      assert KeyWasStored(s.st, id, env.key);
    }
    if Of(s.st.envelopes, id) != [] {
      assert Of(s.st.envelopes, id)[0] in Of(s.st.envelopes, id);
    }
  }
}
