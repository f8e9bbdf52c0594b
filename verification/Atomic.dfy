/** The system with every handler as one uninterrupted step, what it keeps in
    addition, and how that breaks as soon as database calls interleave. */
module Atomic {
  import opened Encoding
  import opened Suite
  import opened Client
  import opened Storage
  import opened Handlers
  import opened Machine
  import opened Sessions
  import opened Login

  /** A handler run to its answer; `faults` says which of its calls fail. */
  function Finish(cfg: Config, st: Histories, now: nat, th: Thread, faults: seq<bool>): (Histories, Thread)
    decreases Remaining(th)
  {
    if th.Finished? then (st, th)
    else
      var (st', reply) := if HeadFault(faults) then (st, Failed) else HistoryDo(st, now, NextCall(th));
      ResumeGetsCloser(cfg, now, th, reply);
      Finish(cfg, st', now, Resume(cfg, now, th, reply), TailFaults(faults))
  }

  lemma FinishOnce(cfg: Config, st: Histories, now: nat, th: Thread)
    requires !th.Finished?
    ensures
      var (st', reply) := HistoryDo(st, now, NextCall(th));
      Finish(cfg, st, now, th, []) == Finish(cfg, st', now, Resume(cfg, now, th, reply), [])
  {
  }

  datatype Event = Serve(request: Request, faults: seq<bool>) | Wait(ms: nat)

  datatype World = World(st: Histories, now: nat)

  const START := World(EMPTY, 0)

  function Happen(cfg: Config, w: World, e: Event): World {
    match e
    case Serve(request, faults) => w.(st := Finish(cfg, w.st, w.now, Start(request), faults).0)
    case Wait(ms) => w.(now := w.now + ms)
  }

  function AnswerTo(cfg: Config, w: World, request: Request, faults: seq<bool>): Thread {
    Finish(cfg, w.st, w.now, Start(request), faults).1
  }

  function After(cfg: Config, w: World, events: seq<Event>): World
    decreases |events|
  {
    if events == [] then w else After(cfg, Happen(cfg, w, events[0]), events[1..])
  }

  lemma {:induction false} FinishStatuses(cfg: Config, st: Histories, now: nat, th: Thread, faults: seq<bool>)
    requires !th.Finished?
    ensures
      var th' := Finish(cfg, st, now, th, faults).1;
      && th'.Finished? && StatusOf(th'.response) in Statuses(th)
      && (StatusOf(th'.response) == 200 <==> !th'.response.Rejected?)
    decreases Remaining(th)
  {
    var (st', reply) := if HeadFault(faults) then (st, Failed) else HistoryDo(st, now, NextCall(th));
    var th' := Resume(cfg, now, th, reply);
    ResumeGetsCloser(cfg, now, th, reply);
    ResumeStatuses(cfg, now, th, reply);
    if !th'.Finished? {
      FinishStatuses(cfg, st', now, th', TailFaults(faults));
    }
  }

  /** The statuses that the routes can answer with, whatever the faults. */
  lemma AnswerStatuses(cfg: Config, w: World, request: Request, faults: seq<bool>)
    ensures
      var answer := AnswerTo(cfg, w, request, faults);
      && answer.Finished? && (StatusOf(answer.response) == 200 <==> !answer.response.Rejected?)
      && StatusOf(answer.response) in
           if request.StartRegistration? then {200, 400, 403}
           else if request.StartAuthentication? then {200, 400}
           else if request.FinalizeAuthentication? then {200, 400, 500}
           else if request.CheckCredentials? then {200, 401, 500}
           else {200, 500}
  {
    if !Start(request).Finished? {
      FinishStatuses(cfg, w.st, w.now, Start(request), faults);
    }
  }

  // ------------------------------------------- atomic steps are a kind of schedule

  function Turns(tid: nat, faults: seq<bool>, n: nat): seq<Action>
    decreases n
  {
    if n == 0 then [] else [Run(tid, HeadFault(faults))] + Turns(tid, TailFaults(faults), n - 1)
  }

  lemma {:induction false} TurnsFinish(cfg: Config, s: State, tid: nat, faults: seq<bool>, n: nat)
    requires tid in s.threads && Remaining(s.threads[tid]) <= n
    ensures
      var (st', th') := Finish(cfg, s.st, s.now, s.threads[tid], faults);
      Exec(cfg, s, Turns(tid, faults, n)) == State(st', s.now, s.threads[tid := th'])
    decreases n
  {
    var th := s.threads[tid];
    if th.Finished? {
      assert s.threads[tid := th] == s.threads;
      if n > 0 {
        assert Turns(tid, faults, n)[1..] == Turns(tid, TailFaults(faults), n - 1);
        TurnsFinish(cfg, s, tid, TailFaults(faults), n - 1);
      }
    } else {
      var (st', reply) := if HeadFault(faults) then (s.st, Failed) else HistoryDo(s.st, s.now, NextCall(th));
      ResumeGetsCloser(cfg, s.now, th, reply);
      var s' := Step(cfg, s, Run(tid, HeadFault(faults)));
      assert Turns(tid, faults, n)[1..] == Turns(tid, TailFaults(faults), n - 1);
      TurnsFinish(cfg, s', tid, TailFaults(faults), n - 1);
      var th' := Finish(cfg, s'.st, s.now, s'.threads[tid], TailFaults(faults)).1;
      assert s'.threads[tid := th'] == s.threads[tid := th'];
    }
  }

  /** One handler served at a time, under thread numbers from `tid` on. */
  function ScheduleOf(events: seq<Event>, tid: nat): seq<Action>
    decreases |events|
  {
    if events == [] then []
    else EventSchedule(events[0], tid) + ScheduleOf(events[1..], tid + 1)
  }

  function EventSchedule(e: Event, tid: nat): seq<Action> {
    match e
    case Serve(request, faults) => [Spawn(tid, request)] + Turns(tid, faults, 3)
    case Wait(ms) => [Tick(ms)]
  }

  lemma EventIsSchedule(cfg: Config, s: State, e: Event, tid: nat)
    requires tid !in s.threads
    ensures
      var s' := Exec(cfg, s, EventSchedule(e, tid));
      && World(s'.st, s'.now) == Happen(cfg, World(s.st, s.now), e)
      && s'.threads.Keys <= s.threads.Keys + {tid}
  {
    match e {
      case Serve(request, faults) =>
        var acts := [Spawn(tid, request)] + Turns(tid, faults, 3);
        assert acts[1..] == Turns(tid, faults, 3);
        TurnsFinish(cfg, Step(cfg, s, Spawn(tid, request)), tid, faults, 3);
      case Wait(ms) =>
        assert [Tick(ms)][1..] == [];
        assert Exec(cfg, s, [Tick(ms)]) == Exec(cfg, Step(cfg, s, Tick(ms)), []);
    }
  }

  /** Every run of atomic handlers is a run of the interleaved system, so all
      that holds there holds here. */
  lemma {:induction false} AtomicRunIsSchedule(cfg: Config, s: State, events: seq<Event>, tid: nat)
    requires forall t :: t in s.threads ==> t < tid
    ensures
      var s' := Exec(cfg, s, ScheduleOf(events, tid));
      && World(s'.st, s'.now) == After(cfg, World(s.st, s.now), events)
      && forall t :: t in s'.threads ==> t < tid + |events|
    decreases |events|
  {
    if events != [] {
      var acts := EventSchedule(events[0], tid);
      var s' := Exec(cfg, s, acts);
      EventIsSchedule(cfg, s, events[0], tid);
      ExecAppend(cfg, s, acts, ScheduleOf(events[1..], tid + 1));
      AtomicRunIsSchedule(cfg, s', events[1..], tid + 1);
    }
  }

  // ------------------------------------------------------- what atomicity adds

  /** At most one key was ever stored for a user, and every envelope has it. */
  ghost predicate OneKey(st: Histories, id: UserId) {
    var r := Of(st.requests, id);
    && |r| <= 1
    && forall env: UserEnvelope :: env in Of(st.envelopes, id) ==> |r| == 1 && env.key == r[0].key
  }

  /** What a handler under way knows, with nothing having come between. */
  ghost predicate Undistracted(st: Histories, th: Thread) {
    && (th.StartReg1? ==> Of(st.requests, th.id) == [])
    && (th.FinReg1? ==> |Of(st.requests, th.id)| == 1 && Of(st.requests, th.id)[0].key == th.key)
  }

  lemma CallKeepsOneKey(cfg: Config, st: Histories, now: nat, th: Thread, fault: bool, id: UserId)
    requires !th.Finished? && Undistracted(st, th) && OneKey(st, id)
    requires !th.Secret0? ==> OneKey(st, th.id)
    ensures
      var (st', reply) := if fault then (st, Failed) else HistoryDo(st, now, NextCall(th));
      OneKey(st', id) && Undistracted(st', Resume(cfg, now, th, reply))
  {
    if th.FinReg1? && th.id == id && !fault {
      var st' := HistoryDo(st, now, NextCall(th)).0;
      forall env: UserEnvelope | env in Of(st'.envelopes, id)
        ensures env.key == Of(st.requests, id)[0].key
      {
        if env != Sealed(th.reg, th.key) {
          NewEnvelopes(st, now, NextCall(th), id, env);
        }
      }
    }
  }

  lemma {:induction false} FinishKeepsOneKey(cfg: Config, st: Histories, now: nat, th: Thread, faults: seq<bool>)
    requires Undistracted(st, th) && forall id: UserId :: OneKey(st, id)
    ensures forall id: UserId :: OneKey(Finish(cfg, st, now, th, faults).0, id)
    decreases Remaining(th)
  {
    if !th.Finished? {
      var fault := HeadFault(faults);
      var (st', reply) := if fault then (st, Failed) else HistoryDo(st, now, NextCall(th));
      forall id: UserId ensures OneKey(st', id) {
        CallKeepsOneKey(cfg, st, now, th, fault, id);
      }
      CallKeepsOneKey(cfg, st, now, th, fault, UserId(AppOfThread(th), ""));
      ResumeGetsCloser(cfg, now, th, reply);
      FinishKeepsOneKey(cfg, st', now, Resume(cfg, now, th, reply), TailFaults(faults));
    }
  }

  lemma {:induction false} RunKeepsOneKey(cfg: Config, w: World, events: seq<Event>)
    requires forall id: UserId :: OneKey(w.st, id)
    ensures forall id: UserId :: OneKey(After(cfg, w, events).st, id)
    decreases |events|
  {
    if events != [] {
      if events[0].Serve? {
        FinishKeepsOneKey(cfg, w.st, w.now, Start(events[0].request), events[0].faults);
      }
      RunKeepsOneKey(cfg, Happen(cfg, w, events[0]), events[1..]);
    }
  }

  /** With atomic handlers the pending key of a user is written at most once
      and every envelope of that user carries exactly that key. */
  lemma AtomicKeyWrittenOnce(cfg: Config, events: seq<Event>, id: UserId)
    ensures
      var st := After(cfg, START, events).st;
      && |Of(st.requests, id)| <= 1
      && forall env: UserEnvelope :: env in Of(st.envelopes, id) ==>
           Of(st.requests, id) == [UserRequest(env.key)]
  {
    RunKeepsOneKey(cfg, START, events);
    assert OneKey(After(cfg, START, events).st, id);
  }

  // ------------------------------------------------------ registration, atomically

  lemma {:induction false} AfterAppend(cfg: Config, w: World, a: seq<Event>, b: seq<Event>)
    ensures After(cfg, w, a + b) == After(cfg, After(cfg, w, a), b)
    decreases |a|
  {
    if a == [] {
      assert a + b == b;
    } else {
      AfterAppend(cfg, Happen(cfg, w, a[0]), a[1..], b);
      assert (a + b)[1..] == a[1..] + b;
    }
  }

  lemma {:induction false} FinishGrows(cfg: Config, st: Histories, now: nat, th: Thread, faults: seq<bool>)
    ensures Grows(st, Finish(cfg, st, now, th, faults).0)
    decreases Remaining(th)
  {
    if th.Finished? {
      CallGrows(st, now, TrimNonces(UserId("", "")));
    } else {
      var (st', reply) := if HeadFault(faults) then (st, Failed) else HistoryDo(st, now, NextCall(th));
      CallGrows(st, now, NextCall(th));
      CallGrows(st, now, TrimNonces(UserId("", "")));
      ResumeGetsCloser(cfg, now, th, reply);
      FinishGrows(cfg, st', now, Resume(cfg, now, th, reply), TailFaults(faults));
      GrowsTransitive(st, st', Finish(cfg, st, now, th, faults).0);
    }
  }

  lemma HappenKeepsRequests(cfg: Config, w: World, e: Event, id: UserId)
    ensures IsSuffix(Of(w.st.requests, id), Of(Happen(cfg, w, e).st.requests, id))
  {
    if e.Serve? {
      FinishGrows(cfg, w.st, w.now, Start(e.request), e.faults);
      assert GrowsFor(w.st, Happen(cfg, w, e).st, id);
    } else {
      SuffixReflexive(Of(w.st.requests, id));
    }
  }

  lemma {:induction false} RequestsStay(cfg: Config, w: World, events: seq<Event>, id: UserId)
    ensures |Of(w.st.requests, id)| <= |Of(After(cfg, w, events).st.requests, id)|
    ensures Of(w.st.requests, id) != [] ==>
      var r, r' := Of(w.st.requests, id), Of(After(cfg, w, events).st.requests, id);
      r'[|r'| - 1] == r[|r| - 1]
    decreases |events|
  {
    if events != [] {
      HappenKeepsRequests(cfg, w, events[0], id);
      RequestsStay(cfg, Happen(cfg, w, events[0]), events[1..], id);
    }
  }

  /** Being answered means the key was stored and is the user's only one. */
  lemma AnsweredRegistration(cfg: Config, w: World, id: UserId, evalReq: seq<nat>, kU: nat, faults: seq<bool>)
    requires AnswerTo(cfg, w, StartRegistration(id, evalReq, kU), faults)
          == Finished(id.app, Evaluated(Evaluate(cfg.c, kU, evalReq)))
    ensures Of(Happen(cfg, w, Serve(StartRegistration(id, evalReq, kU), faults)).st.requests, id)
         == [UserRequest(MarshalScalar(kU))]
  {
    var th0, th1 := StartReg0(id, evalReq, kU), StartReg1(id, evalReq, kU);
    var reply := if HeadFault(faults) then Failed else HistoryDo(w.st, w.now, HasRequest(id)).1;
    assert Finish(cfg, w.st, w.now, th0, faults)
        == Finish(cfg, w.st, w.now, Resume(cfg, w.now, th0, reply), TailFaults(faults));
    assert Resume(cfg, w.now, th0, reply) == th1;
    var (st', reply') := if HeadFault(TailFaults(faults)) then (w.st, Failed)
      else HistoryDo(w.st, w.now, PutRequest(id, UserRequest(MarshalScalar(kU))));
    assert Finish(cfg, w.st, w.now, th1, TailFaults(faults))
        == Finish(cfg, st', w.now, Resume(cfg, w.now, th1, reply'), TailFaults(TailFaults(faults)));
  }

  lemma AnsweredFinalize(cfg: Config, w: World, id: UserId, reg: Registration, faults: seq<bool>)
    requires AnswerTo(cfg, w, FinalizeRegistration(id, reg), faults) == Finished(id.app, Accepted)
    ensures Of(w.st.requests, id) != []
    ensures Current(Happen(cfg, w, Serve(FinalizeRegistration(id, reg), faults)).st.envelopes, id,
      Sealed(reg, Of(w.st.requests, id)[0].key))
  {
    var th0 := FinReg0(id, reg);
    var reply := if HeadFault(faults) then Failed else HistoryDo(w.st, w.now, GetRequest(id)).1;
    assert Finish(cfg, w.st, w.now, th0, faults)
        == Finish(cfg, w.st, w.now, Resume(cfg, w.now, th0, reply), TailFaults(faults));
    assert Resume(cfg, w.now, th0, reply).FinReg1?;
    var th1 := FinReg1(id, reg, Of(w.st.requests, id)[0].key);
    var (st', reply') := if HeadFault(TailFaults(faults)) then (w.st, Failed)
      else HistoryDo(w.st, w.now, PutEnvelope(id, Sealed(reg, th1.key)));
    assert Finish(cfg, w.st, w.now, th1, TailFaults(faults))
        == Finish(cfg, st', w.now, Resume(cfg, w.now, th1, reply'), TailFaults(TailFaults(faults)));
  }

  /** With atomic handlers registration needs no luck: if the client's start
      request was answered and its finalize request later accepted, whatever
      happened in between, the stored envelope opens under its password. */
  lemma AtomicRegistrationIsCoherent(cfg: Config, before: seq<Event>, between: seq<Event>, id: UserId, password: Bytes,
                                     blind: nat, kU: nat, f: Fresh, faults: seq<bool>, faults': seq<bool>)
    requires cfg.c.Lawful() && 0 < blind < cfg.c.oprf.q && kU < cfg.c.oprf.q && GoodFresh(f)
    requires MakeOprfRequest(cfg.c, password, blind).Ok?
    requires SharedKey(cfg.c, cfg.privS, KeyGen(cfg.c, f.privU)).Some?
    requires
      var fin := MakeOprfRequest(cfg.c, password, blind).value;
      var eval := Evaluate(cfg.c, kU, fin.evalReq);
      var start := StartRegistration(id, fin.evalReq, kU);
      var w := After(cfg, START, before);
      var w' := After(cfg, START, before + [Serve(start, faults)] + between);
      var reg := RegistrationOf(cfg.c, fin, eval, KeyGen(cfg.c, cfg.privS), f);
      && AnswerTo(cfg, w, start, faults) == Finished(id.app, Evaluated(eval))
      && reg.Ok? && AnswerTo(cfg, w', FinalizeRegistration(id, reg.value), faults') == Finished(id.app, Accepted)
    ensures
      var fin := MakeOprfRequest(cfg.c, password, blind).value;
      var reg := RegistrationOf(cfg.c, fin, Evaluate(cfg.c, kU, fin.evalReq), KeyGen(cfg.c, cfg.privS), f).value;
      var w' := After(cfg, START, before + [Serve(StartRegistration(id, fin.evalReq, kU), faults)] + between);
      var h := Of(Happen(cfg, w', Serve(FinalizeRegistration(id, reg), faults')).st.envelopes, id);
      h != [] && CoherentEnvelope(cfg, h[0], password)
  {
    var fin := MakeOprfRequest(cfg.c, password, blind).value;
    var eval := Evaluate(cfg.c, kU, fin.evalReq);
    var pubS := KeyGen(cfg.c, cfg.privS);
    var reg := RegistrationOf(cfg.c, fin, eval, pubS, f).value;
    var start := StartRegistration(id, fin.evalReq, kU);
    var events := before + [Serve(start, faults)];
    var w' := After(cfg, START, events + between);
    KeyStays(cfg, before, between, id, fin.evalReq, kU, faults);
    AnsweredFinalize(cfg, w', id, reg, faults');
    RegistrationIsCoherent(cfg.c, pubS, kU, password, blind, f);
    ScalarRoundTrip(cfg.c, kU);
    assert RegistrationIn(Sealed(reg, MarshalScalar(kU))) == reg;
  }

  lemma KeyStays(cfg: Config, before: seq<Event>, between: seq<Event>, id: UserId, evalReq: seq<nat>, kU: nat,
                 faults: seq<bool>)
    requires AnswerTo(cfg, After(cfg, START, before), StartRegistration(id, evalReq, kU), faults)
          == Finished(id.app, Evaluated(Evaluate(cfg.c, kU, evalReq)))
    ensures
      var w' := After(cfg, START, before + [Serve(StartRegistration(id, evalReq, kU), faults)] + between);
      Of(w'.st.requests, id) == [UserRequest(MarshalScalar(kU))]
  {
    var e := Serve(StartRegistration(id, evalReq, kU), faults);
    var w := After(cfg, START, before);
    AnsweredRegistration(cfg, w, id, evalReq, kU, faults);
    AfterAppend(cfg, START, before, [e]);
    assert [e][1..] == [];
    assert After(cfg, w, [e]) == After(cfg, Happen(cfg, w, e), []);
    AfterAppend(cfg, START, before + [e], between);
    RequestsStay(cfg, After(cfg, START, before + [e]), between, id);
    AtomicKeyWrittenOnce(cfg, before + [e] + between, id);
  }

  // ------------------------------------------------------- finalizing, atomically

  /** With atomic handlers finalize accepts a token exactly when none of its three
      calls fails, its nonce is one of the twenty-one issued last and its key part
      is what the current envelope gives for that nonce. */
  lemma FinalizeAcceptsExactly(cfg: Config, w: World, id: UserId, token: string, faults: seq<bool>)
    ensures
      var envelopes := Of(w.st.envelopes, id);
      AnswerTo(cfg, w, FinalizeAuthentication(id, token), faults) == Finished(id.app, Accepted) <==>
        && !FaultWithin(faults, 3) && WellFormedToken(token)
        && NonceOf(token) in Window(Of(w.st.nonces, id))
        && envelopes != [] && Matches(cfg, token, envelopes[0])
  {
    if WellFormedToken(token) {
      var window := Window(Of(w.st.nonces, id));
      ListedIsMembership(window, NonceOf(token));
      var th := FinAuth0(id, token);
      var reply := if HeadFault(faults) then Failed else EntriesAre(HexAll(window));
      var th' := Resume(cfg, w.now, th, reply);
      assert Finish(cfg, w.st, w.now, th, faults) == Finish(cfg, w.st, w.now, th', TailFaults(faults));
      if !HeadFault(faults) && NonceOf(token) in window {
        EnvelopeDecides(cfg, w, id, token, TailFaults(faults));
      }
    }
  }

  /** A key part taken from one accepted token is of no use with another nonce. */
  lemma StolenKeyPartRefused(cfg: Config, w: World, id: UserId, token: string, stolen: string, faults: seq<bool>)
    requires AnswerTo(cfg, w, FinalizeAuthentication(id, token), []) == Finished(id.app, Accepted)
    requires WellFormedToken(token) && WellFormedToken(stolen)
    requires KeyPart(stolen) == KeyPart(token) && NonceOf(stolen) != NonceOf(token)
    requires Of(w.st.envelopes, id) != []
    requires
      var shared := SharedKey(cfg.c, cfg.privS, Fit32(Of(w.st.envelopes, id)[0].pubU));
      shared.Some? ==> NoKeyCollision(cfg.c, shared.value, NonceOf(token), shared.value, NonceOf(stolen))
    ensures AnswerTo(cfg, w, FinalizeAuthentication(id, stolen), faults) != Finished(id.app, Accepted)
  {
    FinalizeAcceptsExactly(cfg, w, id, token, []);
    FinalizeAcceptsExactly(cfg, w, id, stolen, faults);
    KeyPartBindsNonce(cfg, token, stolen, Of(w.st.envelopes, id)[0]);
  }

  predicate FaultWithin(faults: seq<bool>, n: nat) {
    n > 0 && (HeadFault(faults) || FaultWithin(TailFaults(faults), n - 1))
  }

  /** Faults are taken in order: the first one says of the first call. */
  lemma {:induction false} FaultsInOrder(faults: seq<bool>, n: nat)
    ensures FaultWithin(faults, n) <==> exists i :: 0 <= i < n && i < |faults| && faults[i]
    decreases n
  {
    if n > 0 {
      FaultsInOrder(TailFaults(faults), n - 1);
      if i :| 0 < i < n && i < |faults| && faults[i] {
        assert TailFaults(faults)[i - 1];
      }
      if j :| 0 <= j < n - 1 && j < |TailFaults(faults)| && TailFaults(faults)[j] {
        assert faults[j + 1];
      }
    }
  }

  lemma EnvelopeDecides(cfg: Config, w: World, id: UserId, token: string, faults: seq<bool>)
    requires WellFormedToken(token)
    ensures
      var envelopes := Of(w.st.envelopes, id);
      Finish(cfg, w.st, w.now, FinAuth1(id, token), faults).1 == Finished(id.app, Accepted) <==>
        !FaultWithin(faults, 2) && envelopes != [] && Matches(cfg, token, envelopes[0])
  {
    var th := FinAuth1(id, token);
    var reply := if HeadFault(faults) then Failed else HistoryDo(w.st, w.now, GetEnvelope(id)).1;
    var th' := Resume(cfg, w.now, th, reply);
    assert Finish(cfg, w.st, w.now, th, faults) == Finish(cfg, w.st, w.now, th', TailFaults(faults));
    if th'.FinAuth2? {
      StoreDecides(cfg, w, th', TailFaults(faults));
    }
  }

  lemma StoreDecides(cfg: Config, w: World, th: Thread, faults: seq<bool>)
    requires th.FinAuth2?
    ensures
      Finish(cfg, w.st, w.now, th, faults).1 == Finished(th.id.app, Accepted) <==> !FaultWithin(faults, 1)
  {
    var (st', reply) := if HeadFault(faults) then (w.st, Failed) else HistoryDo(w.st, w.now, NextCall(th));
    assert Finish(cfg, w.st, w.now, th, faults)
        == Finish(cfg, st', w.now, Resume(cfg, w.now, th, reply), TailFaults(faults));
  }

  /** With atomic handlers nothing is in flight: after twenty-one later issues no
      world, however much later, in which the nonce was not issued again answers
      a finalize request for the token with success. */
  lemma AtomicTokenRetirement(cfg: Config, events: seq<Event>, more: seq<Event>, id: UserId, token: string,
                              faults: seq<bool>)
    requires WellFormedToken(token)
    requires
      var w, w' := After(cfg, START, events), After(cfg, START, events + more);
      && |Of(w'.st.nonces, id)| >= |Of(w.st.nonces, id)| + 21
      && NotIssuedSince(w.st, w'.st, id, NonceOf(token))
    ensures
      var w' := After(cfg, START, events + more);
      AnswerTo(cfg, w', FinalizeAuthentication(id, token), faults) != Finished(id.app, Accepted)
  {
    var w, w' := After(cfg, START, events), After(cfg, START, events + more);
    TwentyOneIssuesRetire(w.st, w'.st, id, NonceOf(token));
    FinalizeAcceptsExactly(cfg, w', id, token, faults);
  }

  // ------------------------------------------------- and how interleaving breaks it

  lemma ExecTwo(cfg: Config, s: State, a: Action, b: Action)
    ensures Exec(cfg, s, [a, b]) == Step(cfg, Step(cfg, s, a), b)
  {
    assert [a, b][1..] == [b];
    assert [b][1..] == [];
    assert Exec(cfg, Step(cfg, s, a), [b]) == Exec(cfg, Step(cfg, Step(cfg, s, a), b), []);
  }

  /** Two start requests whose checks both come before either write. */
  function Race(id: UserId, a: seq<nat>, k: nat, b: seq<nat>, k': nat): seq<Action> {
    [Spawn(0, StartRegistration(id, a, k)), Spawn(1, StartRegistration(id, b, k'))]
    + [Run(0, false), Run(1, false)] + [Run(0, false), Run(1, false)]
  }

  lemma BothChecksPass(cfg: Config, id: UserId, a: seq<nat>, k: nat, b: seq<nat>, k': nat)
    ensures
      var arrived := Exec(cfg, INIT, [Spawn(0, StartRegistration(id, a, k)), Spawn(1, StartRegistration(id, b, k'))]);
      Exec(cfg, arrived, [Run(0, false), Run(1, false)])
        == State(EMPTY, 0, map[0 := StartReg1(id, a, k), 1 := StartReg1(id, b, k')])
  {
    ExecTwo(cfg, INIT, Spawn(0, StartRegistration(id, a, k)), Spawn(1, StartRegistration(id, b, k')));
    var arrived := State(EMPTY, 0, map[0 := StartReg0(id, a, k), 1 := StartReg0(id, b, k')]);
    ExecTwo(cfg, arrived, Run(0, false), Run(1, false));
    assert Step(cfg, arrived, Run(0, false))
        == State(EMPTY, 0, map[0 := StartReg1(id, a, k), 1 := StartReg0(id, b, k')]);
  }

  lemma BothWritesHappen(cfg: Config, id: UserId, a: seq<nat>, k: nat, b: seq<nat>, k': nat)
    ensures
      var s := Exec(cfg, State(EMPTY, 0, map[0 := StartReg1(id, a, k), 1 := StartReg1(id, b, k')]),
                    [Run(0, false), Run(1, false)]);
      && s.threads == map[0 := Finished(id.app, Evaluated(Evaluate(cfg.c, k, a))),
                          1 := Finished(id.app, Evaluated(Evaluate(cfg.c, k', b)))]
      && Of(s.st.requests, id) == [UserRequest(MarshalScalar(k')), UserRequest(MarshalScalar(k))]
  {
    var passed := State(EMPTY, 0, map[0 := StartReg1(id, a, k), 1 := StartReg1(id, b, k')]);
    ExecTwo(cfg, passed, Run(0, false), Run(1, false));
  }

  /** Both are answered, the first with an evaluation under a key that is no
      longer the user's: the pending key is written twice. */
  lemma RaceOverwritesKey(cfg: Config, id: UserId, a: seq<nat>, k: nat, b: seq<nat>, k': nat)
    ensures
      var s := Exec(cfg, INIT, Race(id, a, k, b, k'));
      && s.threads == map[0 := Finished(id.app, Evaluated(Evaluate(cfg.c, k, a))),
                          1 := Finished(id.app, Evaluated(Evaluate(cfg.c, k', b)))]
      && Of(s.st.requests, id) == [UserRequest(MarshalScalar(k')), UserRequest(MarshalScalar(k))]
  {
    var arrivals := [Spawn(0, StartRegistration(id, a, k)), Spawn(1, StartRegistration(id, b, k'))];
    var turns := [Run(0, false), Run(1, false)];
    ExecAppend(cfg, INIT, arrivals + turns, turns);
    ExecAppend(cfg, INIT, arrivals, turns);
    BothChecksPass(cfg, id, a, k, b, k');
    BothWritesHappen(cfg, id, a, k, b, k');
  }

  /** The first client of a race then finalizes: its envelope is filed under the
      second client's key. With no collision on its two frames, its own password
      logs in from then on if and only if the two keys happen to be the same. */
  lemma RaceStrandsFirstClient(cfg: Config, id: UserId, b: seq<nat>, k: nat, k': nat, password: Bytes, blind: nat,
                               f: Fresh,
                               blind': nat, authNonce: Bytes, draw: Block)
    requires cfg.c.Lawful() && cfg.c.Committing() && k < cfg.c.oprf.q && k' < cfg.c.oprf.q && GoodFresh(f)
    requires 0 < blind < cfg.c.oprf.q && 0 < blind' < cfg.c.oprf.q
    requires MakeOprfRequest(cfg.c, password, blind).Ok? && MakeOprfRequest(cfg.c, password, blind').Ok?
    requires SharedKey(cfg.c, cfg.privS, KeyGen(cfg.c, f.privU)).Some?
    requires NoCollision(cfg.c, PasswordFrame(cfg.c, k', password), PasswordFrame(cfg.c, k, password), f.salt)
    ensures
      var fin := MakeOprfRequest(cfg.c, password, blind).value;
      var reg := RegistrationOf(cfg.c, fin, Evaluate(cfg.c, k, fin.evalReq), KeyGen(cfg.c, cfg.privS), f).value;
      var s := Exec(cfg, INIT, Race(id, fin.evalReq, k, b, k'));
      var env := Sealed(reg, MarshalScalar(k'));
      && Current(Finish(cfg, s.st, s.now, FinReg0(id, reg), []).0.envelopes, id, env)
      && UnmarshalScalar(cfg.c, env.key) == Ok(k')
      && (LoginToken(cfg.c, k', RegistrationIn(env), password, blind', authNonce, draw).Ok? <==> k == k')
  {
    var fin := MakeOprfRequest(cfg.c, password, blind).value;
    var pubS := KeyGen(cfg.c, cfg.privS);
    RegistrationIsCoherent(cfg.c, pubS, k, password, blind, f);
    var reg := RegistrationOf(cfg.c, fin, Evaluate(cfg.c, k, fin.evalReq), pubS, f).value;
    RaceFilesUnderOtherKey(cfg, id, fin.evalReq, k, b, k', reg);
    ScalarRoundTrip(cfg.c, k');
    KeyDiscrimination(cfg.c, cfg.privS, k, reg, password, k', blind', authNonce, draw);
  }

  lemma RaceFilesUnderOtherKey(cfg: Config, id: UserId, a: seq<nat>, k: nat, b: seq<nat>, k': nat, reg: Registration)
    ensures
      var s := Exec(cfg, INIT, Race(id, a, k, b, k'));
      Current(Finish(cfg, s.st, s.now, FinReg0(id, reg), []).0.envelopes, id, Sealed(reg, MarshalScalar(k')))
  {
    var s := Exec(cfg, INIT, Race(id, a, k, b, k'));
    RaceOverwritesKey(cfg, id, a, k, b, k');
    FinalizeAnswers(cfg, World(s.st, s.now), id, reg);
    AnsweredFinalize(cfg, World(s.st, s.now), id, reg, []);
  }

  lemma FinalizeAnswers(cfg: Config, w: World, id: UserId, reg: Registration)
    requires Of(w.st.requests, id) != []
    ensures AnswerTo(cfg, w, FinalizeRegistration(id, reg), []) == Finished(id.app, Accepted)
  {
    var th0, th1 := FinReg0(id, reg), FinReg1(id, reg, Of(w.st.requests, id)[0].key);
    assert Finish(cfg, w.st, w.now, th0, []) == Finish(cfg, w.st, w.now, th1, []);
    var st' := HistoryDo(w.st, w.now, PutEnvelope(id, Sealed(reg, th1.key))).0;
    assert Finish(cfg, w.st, w.now, th1, []) == Finish(cfg, st', w.now, Finished(id.app, Accepted), []);
  }
}
