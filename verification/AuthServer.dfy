/** The server objects. Each handler runs the program that `Handlers` gives for
    its request from the first call to the answer. */
module AuthServer {
  import opened Encoding
  import opened Suite
  import opened Client
  import opened Storage
  import opened Redis
  import opened Handlers
  import opened Atomic
  import opened Enumeration
  import opened Wrapper
  import opened IndexPage
  import opened Machine

  datatype Served = Served(net: Net, thread: Thread)

  /** A handler run to its answer over the flat database. */
  function Drive(cfg: Config, w: Net, th: Thread): Served
    decreases Remaining(th)
  {
    if th.Finished? then Served(w, th)
    else
      var x := Send(w, NextCall(th));
      ResumeGetsCloser(cfg, w.now, th, x.reply);
      Drive(cfg, x.net, Resume(cfg, w.now, th, x.reply))
  }

  lemma DriveStep(cfg: Config, w: Net, th: Thread)
    requires !th.Finished?
    ensures
      var x := Send(w, NextCall(th));
      var th' := Resume(cfg, w.now, th, x.reply);
      && Drive(cfg, w, th) == Drive(cfg, x.net, th')
      && (th'.Finished? ==> Drive(cfg, w, th) == Served(x.net, th'))
  {
  }

  lemma LastCall(cfg: Config, w: Net, th: Thread)
    requires Remaining(th) == 1
    ensures
      var x := Send(w, NextCall(th));
      Drive(cfg, w, th) == Served(x.net, Resume(cfg, w.now, th, x.reply))
  {
    ResumeGetsCloser(cfg, w.now, th, Send(w, NextCall(th)).reply);
    DriveStep(cfg, w, th);
  }

  class Server {
    const storage: RedisWrapper
    const c: Suite
    const privS: Block
    const pubS: Block

    /** A given key is fitted to the key size, otherwise `draw` is the key. */
    constructor (storage: RedisWrapper, c: Suite, inputPrivKey: Option<Bytes>, draw: Block)
      ensures Valid() && this.storage == storage && this.c == c
      ensures inputPrivKey.None? ==> privS == draw
      ensures inputPrivKey.Some? ==>
        var input := inputPrivKey.value;
        forall i :: 0 <= i < 32 ==> privS[i] == if i < |input| then input[i] else 0
    {
      this.storage := storage;
      this.c := c;
      var key: Block := if inputPrivKey.None? then draw else Fit32(inputPrivKey.value);
      privS := key;
      pubS := KeyGen(c, key);
    }

    ghost predicate Valid() {
      pubS == KeyGen(c, privS)
    }

    method HandleNewUserRequest(id: UserId, evalReq: seq<nat>, kU: nat) returns (r: Result<seq<nat>>)
      modifies storage.client
      ensures
        var x := Send(old(storage.client.State()), PutRequest(id, UserRequest(MarshalScalar(kU))));
        && storage.client.State() == x.net
        && r == if x.reply.Done? then Ok(Evaluate(c, kU, evalReq)) else Err(StorageFailed)
    {
      var ret := Evaluate(c, kU, evalReq);
      var ok := storage.StoreUserRequest(id, UserRequest(MarshalScalar(kU)));
      return if ok then Ok(ret) else Err(StorageFailed);
    }

    /** The stored key goes into the envelope together with what was sent. */
    method StoreUserData(id: UserId, pubU: Bytes, envU: Bytes, nonce: Bytes, rwdUSalt: Bytes) returns (ok: bool)
      modifies storage.client
      ensures
        var load := Send(old(storage.client.State()), GetRequest(id));
        if !load.reply.RequestIs? then storage.client.State() == load.net && !ok
        else
          var sealed := UserEnvelope(pubU, envU, nonce, rwdUSalt, load.reply.request.key);
          var store := Send(load.net, PutEnvelope(id, sealed));
          storage.client.State() == store.net && ok == store.reply.Done?
    {
      var userReq := storage.LoadUserRequest(id);
      if userReq.Err? {
        return false;
      }
      ok := storage.StoreUserEnvelope(id, UserEnvelope(pubU, envU, nonce, rwdUSalt, userReq.value.key));
    }

    /** The SDK version plays no part here. */
    method HandleNewUserAuthentication(id: UserId, evalReq: seq<nat>, authNonce: Bytes, coin: nat,
                                       ghost sdkVersion: string)
      returns (r: Result<Response>)
      modifies storage.client
      ensures r.Ok? ==> r.value.LoginStarted?
      ensures Served(storage.client.State(), Finished(id.app, if r.Ok? then r.value else BAD_EVALUATION))
           == Drive(Config(c, privS, sdkVersion), old(storage.client.State()), StartAuth0(id, evalReq, authNonce, coin))
    {
      ghost var cfg, w := Config(c, privS, sdkVersion), storage.client.State();
      ghost var th := StartAuth0(id, evalReq, authNonce, coin);
      var loaded := storage.LoadUserEnvelope(id);
      DriveStep(cfg, w, th);
      ghost var load := Send(w, GetEnvelope(id));
      ghost var th' := Resume(cfg, w.now, th, load.reply);
      if loaded.Err? {
        return Err(loaded.error);
      }
      var env := loaded.value;
      var kU := UnmarshalScalar(c, env.key);
      if kU.Err? {
        return Err(kU.error);
      }
      var eval := Evaluate(c, kU.value, evalReq);
      assert th' == StartAuth1(id, eval, env, authNonce, coin);
      var stored := storage.StoreAuthNonce(id, authNonce, coin);
      NonceStored(cfg, load.net, th');
      return if stored then Ok(LoginResponse(eval, env, authNonce)) else Err(StorageFailed);
    }

    method IsRegistered(id: UserId) returns (r: Result<bool>)
      modifies storage.client`faults
      ensures
        var x := Send(old(storage.client.State()), HasRequest(id));
        && storage.client.State() == x.net
        && r == if x.reply.Flag? then Ok(x.reply.flag) else Err(StorageFailed)
    {
      r := storage.HasUserRequest(id);
    }

    /** Never answers no: it says yes or fails. */
    method IsAuthenticated(id: UserId, input: Bytes) returns (r: Result<bool>)
      modifies storage.client`faults
      ensures r.Ok? ==> r.value
      ensures |input| != TOKEN_LENGTH ==> r.Err? && storage.client.State() == old(storage.client.State())
      ensures |input| == TOKEN_LENGTH ==>
        var list := Send(old(storage.client.State()), ListNonces(id));
        var load := Send(list.net, GetEnvelope(id));
        if list.reply.EntriesAre? && Listed(list.reply.entries, input[..NONCE_LENGTH])
        then
          && storage.client.State() == load.net
          && r.Ok? == (
               && load.reply.EnvelopeIs?
               && ServerKey(c, privS, load.reply.envelope.pubU, input[..NONCE_LENGTH]) == Some(input[NONCE_LENGTH..]))
        else storage.client.State() == list.net && r.Err?
    {
      if |input| != TOKEN_LENGTH {
        return Err(NotAuthenticated);
      }
      var known := storage.HasAuthNonce(id, input[..NONCE_LENGTH]);
      if known.Err? {
        return known;
      }
      if !known.value {
        return Err(NotAuthenticated);
      }
      var authNonce := input[..NONCE_LENGTH];
      var env := storage.LoadUserEnvelope(id);
      if env.Err? {
        return Err(env.error);
      }
      var pubU := CopyKey(env.value.pubU);
      var actual := CopyKey(input[NONCE_LENGTH..]);
      assert actual[..] == input[NONCE_LENGTH..];
      var sharedKey := SharedKey(c, privS, pubU[..]);
      if sharedKey.None? {
        return Err(NoSharedKey);
      }
      var derived := Hkdf(c, sharedKey.value, Some(authNonce), 32);
      return if actual[..] == derived then Ok(true) else Err(NotAuthenticated);
    }
  }

  lemma NonceStored(cfg: Config, w: Net, th: Thread)
    requires th.StartAuth1?
    ensures
      var push := Send(w, PushNonce(th.id, th.nonce));
      var trim := Send(push.net, TrimNonces(th.id));
      var started := LoginResponse(th.eval, th.env, th.nonce);
      Drive(cfg, w, th) ==
        if !push.reply.Done? || th.coin != 0
        then Served(push.net, Finished(th.id.app, if push.reply.Done? then started else BAD_EVALUATION))
        else Served(trim.net, Finished(th.id.app, if trim.reply.Done? then started else BAD_EVALUATION))
  {
    var push := Send(w, PushNonce(th.id, th.nonce));
    var th' := Resume(cfg, w.now, th, push.reply);
    DriveStep(cfg, w, th);
    if !th'.Finished? {
      LastCall(cfg, push.net, th');
    }
  }

  lemma TokenChecked(cfg: Config, w: Net, th: Thread)
    requires th.FinAuth0? && WellFormedToken(th.token)
    ensures
      var list := Send(w, ListNonces(th.id));
      Drive(cfg, w, th) ==
        if list.reply.EntriesAre? && Listed(list.reply.entries, NonceOf(th.token))
        then Drive(cfg, list.net, FinAuth1(th.id, th.token))
        else Served(list.net, Finished(th.id.app, BAD_TOKEN))
  {
    DriveStep(cfg, w, th);
  }

  lemma EnvelopeChecked(cfg: Config, w: Net, th: Thread)
    requires th.FinAuth1? && WellFormedToken(th.token)
    ensures
      var load := Send(w, GetEnvelope(th.id));
      Drive(cfg, w, th) ==
        if load.reply.EnvelopeIs? && Matches(cfg, th.token, load.reply.envelope)
        then Drive(cfg, load.net, FinAuth2(th.id, th.token, load.reply.envelope))
        else Served(load.net, Finished(th.id.app, BAD_TOKEN))
  {
    DriveStep(cfg, w, th);
  }

  lemma SessionSaved(cfg: Config, w: Net, th: Thread)
    requires th.FinAuth2?
    ensures
      var x := Send(w, PutSession(th.id, th.token, SESSION_TTL));
      Drive(cfg, w, th) == Served(x.net, Finished(th.id.app, if x.reply.Done? then Accepted else NOT_SAVED))
  {
    LastCall(cfg, w, th);
  }

  lemma SecretCompared(cfg: Config, w: Net, th: Thread)
    requires th.Check0?
    ensures
      var x := Send(w, GetSecret(th.id.app));
      Drive(cfg, w, th) ==
        if SameText(x.reply, th.secret) == Ok(true) then Drive(cfg, x.net, Check1(th.id, th.token))
        else Served(x.net, Finished(th.id.app, if SameText(x.reply, th.secret).Err? then BAD_SECRET else WRONG_SECRET))
  {
    DriveStep(cfg, w, th);
  }

  lemma SessionCompared(cfg: Config, w: Net, th: Thread)
    requires th.Check1?
    ensures
      var x := Send(w, GetSession(th.id));
      Drive(cfg, w, th) ==
        Served(x.net, Finished(th.id.app,
          if SameText(x.reply, th.token).Err? then BAD_SECRET
          else if !SameText(x.reply, th.token).value then WRONG_TOKEN
          else CredentialsAt(cfg, th.id, w.now)))
  {
    LastCall(cfg, w, th);
  }

  // --------------------------------------------------------------------- handlers

  /** A panic in a handler is recovered as a response of its own. */
  datatype IndexResponse = Index(rows: seq<Row>) | IndexError(meta: string) | Recovered

  class MyServer {
    const redisWrapper: RedisWrapper
    const opaqueServer: Server
    const sdkVersion: string

    constructor (redisWrapper: RedisWrapper, opaqueServer: Server, sdkVersion: string)
      requires opaqueServer.Valid() && opaqueServer.storage == redisWrapper
      ensures Valid() && this.redisWrapper == redisWrapper && this.opaqueServer == opaqueServer
      ensures this.sdkVersion == sdkVersion
    {
      this.sdkVersion := sdkVersion;
      this.redisWrapper := redisWrapper;
      this.opaqueServer := opaqueServer;
    }

    ghost predicate Valid() {
      opaqueServer.Valid() && opaqueServer.storage == redisWrapper
    }

    function Cfg(): Config {
      Config(opaqueServer.c, opaqueServer.privS, sdkVersion)
    }

    method HandleStartPasswordRegistration(id: UserId, evalReq: seq<nat>, kU: nat) returns (resp: Response)
      requires Valid()
      modifies redisWrapper.client
      ensures Served(redisWrapper.client.State(), Finished(id.app, resp))
           == Drive(Cfg(), old(redisWrapper.client.State()), Start(StartRegistration(id, evalReq, kU)))
    {
      ghost var w, th := redisWrapper.client.State(), StartReg0(id, evalReq, kU);
      DriveStep(Cfg(), w, th);
      var registered := opaqueServer.IsRegistered(id);
      if registered.Err? {
        return BAD_EVALUATION;
      }
      if registered.value {
        return Rejected(403, "User already registered");
      }
      LastCall(Cfg(), redisWrapper.client.State(), StartReg1(id, evalReq, kU));
      var eval := opaqueServer.HandleNewUserRequest(id, evalReq, kU);
      return if eval.Ok? then Evaluated(eval.value) else BAD_EVALUATION;
    }

    method HandleFinalizePasswordRegistration(id: UserId, reg: Registration) returns (resp: Response)
      requires Valid()
      modifies redisWrapper.client
      ensures Served(redisWrapper.client.State(), Finished(id.app, resp))
           == Drive(Cfg(), old(redisWrapper.client.State()), Start(FinalizeRegistration(id, reg)))
    {
      ghost var w, th := redisWrapper.client.State(), FinReg0(id, reg);
      ghost var load := Send(w, GetRequest(id));
      ghost var th' := Resume(Cfg(), w.now, th, load.reply);
      DriveStep(Cfg(), w, th);
      if !th'.Finished? {
        LastCall(Cfg(), load.net, th');
      }
      var ok := opaqueServer.StoreUserData(id, reg.pubU, reg.envU, reg.envUNonce, reg.salt);
      return if ok then Accepted else Rejected(500, "Failed to store user data");
    }

    method HandleStartPasswordAuthentication(id: UserId, evalReq: seq<nat>, authNonce: Bytes, coin: nat)
      returns (resp: Response)
      requires Valid()
      modifies redisWrapper.client
      ensures Served(redisWrapper.client.State(), Finished(id.app, resp))
           == Drive(Cfg(), old(redisWrapper.client.State()), Start(StartAuthentication(id, evalReq, authNonce, coin)))
    {
      var r := opaqueServer.HandleNewUserAuthentication(id, evalReq, authNonce, coin, sdkVersion);
      return if r.Ok? then r.value else BAD_EVALUATION;
    }

    method HandleFinalizePasswordAuthentication(id: UserId, token: string) returns (resp: Response)
      requires Valid()
      modifies redisWrapper.client
      ensures Served(redisWrapper.client.State(), Finished(id.app, resp))
           == Drive(Cfg(), old(redisWrapper.client.State()), Start(FinalizeAuthentication(id, token)))
    {
      ghost var cfg, w := Cfg(), redisWrapper.client.State();
      var b := HexDecode(token);
      if !b.ok {
        return Rejected(400, "session token is bad");
      }
      var ok := opaqueServer.IsAuthenticated(id, b.bytes);
      if WellFormedToken(token) {
        var list := Send(w, ListNonces(id));
        TokenChecked(cfg, w, FinAuth0(id, token));
        EnvelopeChecked(cfg, list.net, FinAuth1(id, token));
      }
      if ok.Err? {
        return BAD_TOKEN;
      }
      ghost var env := Send(Send(w, ListNonces(id)).net, GetEnvelope(id)).reply.envelope;
      SessionSaved(cfg, redisWrapper.client.State(), FinAuth2(id, token, env));
      var stored := redisWrapper.StoreSessionToken(id, token, SESSION_TTL);
      return if stored then Accepted else NOT_SAVED;
    }

    /** The answer names the current second and the one 15 minutes on. */
    method HandleCheckCredentials(id: UserId, secret: string, token: string) returns (resp: Response)
      requires Valid()
      modifies redisWrapper.client
      ensures Served(redisWrapper.client.State(), Finished(id.app, resp))
           == Drive(Cfg(), old(redisWrapper.client.State()), Start(CheckCredentials(id, secret, token)))
    {
      SecretCompared(Cfg(), redisWrapper.client.State(), Check0(id, secret, token));
      var ok := redisWrapper.HasAppSecret(id.app, secret);
      if ok.Err? {
        return BAD_SECRET;
      }
      if !ok.value {
        return WRONG_SECRET;
      }
      SessionCompared(Cfg(), redisWrapper.client.State(), Check1(id, token));
      ok := redisWrapper.HasSessionToken(id, token);
      if ok.Err? {
        return BAD_SECRET;
      }
      if !ok.value {
        return WRONG_TOKEN;
      }
      return CredentialsAt(Cfg(), id, redisWrapper.client.now);
    }

    /** Whatever the names, what is shown for one is what is stored under its key.
        Without pattern characters in app tokens, the page has exactly the stored
        envelopes whose usernames have no ':', under what stands before the first
        ':' of an app token with a secret; without a fault it comes up if and only
        if every username cut off at its ':' names an envelope, too. With clean
        names these are all envelopes whose app token has a secret, each once. */
    method HandleIndex() returns (resp: IndexResponse)
      modifies redisWrapper.client`faults
      ensures resp.Index? ==> AllStored(redisWrapper.client.db, redisWrapper.client.now, resp.rows)
      ensures Written(redisWrapper.client.db, false) ==> !resp.Recovered?
      ensures PatternFree(redisWrapper.client.db, redisWrapper.client.now) && resp.Index? ==>
        ShowsPlain(redisWrapper.client.db, redisWrapper.client.now, resp.rows)
      ensures PatternFree(redisWrapper.client.db, redisWrapper.client.now) && old(redisWrapper.client.faults) == [] ==>
        (resp.Index? <==> PageComplete(redisWrapper.client.db, redisWrapper.client.now))
      ensures CleanNames(redisWrapper.client.db, redisWrapper.client.now) && resp.Index? ==>
        ShowsAll(redisWrapper.client.db, redisWrapper.client.now, resp.rows) && NoDuplicates(resp.rows)
      ensures CleanNames(redisWrapper.client.db, redisWrapper.client.now) && old(redisWrapper.client.faults) == [] ==>
        resp.Index?
    {
      var client := redisWrapper.client;
      ghost var db, now := client.db, client.now;
      ghost var quiet := PatternFree(db, now) && client.faults == [];
      if CleanNames(db, now) {
        CleanIsPatternFree(db, now);
      }
      var rows := [];
      var tokens, apps := redisWrapper.GetAllAppTokens();
      if tokens.Err? {
        return IndexError("while fetching app tokens");
      }
      var t := 0;
      while t < |tokens.value|
        invariant 0 <= t <= |tokens.value|
        invariant quiet ==> client.faults == []
        invariant Outer(db, now, rows, tokens.value[..t])
      {
        var token := tokens.value[t];
        TokenIsPlain(db, now, apps, tokens.value, t);
        var usernames, keys, users := redisWrapper.GetAllUsernamesFromEnvelopes(token);
        if usernames.Err? {
          if usernames.error == Panicked {
            return Recovered;
          }
          return IndexError("while fetching usernames for app token");
        }
        ghost var before := rows;
        InnerStarts(db, now, rows, tokens.value, t, usernames.value);
        var u := 0;
        while u < |usernames.value|
          invariant 0 <= u <= |usernames.value|
          invariant quiet ==> client.faults == []
          invariant Inner(db, now, before, rows, token, usernames.value[..u])
        {
          var username := usernames.value[u];
          LoadTells(client.State(), apps, tokens.value, t, users, usernames.value, u);
          var env := redisWrapper.LoadUserEnvelope(UserId(token, username));
          if env.Err? {
            return IndexError("while checking fetching user envelopes");
          }
          var row := Row(UserId(token, username), env.value);
          InnerPush(db, now, before, rows, apps, tokens.value, t, users, usernames.value, u, row);
          rows := rows + [row];
          u := u + 1;
        }
        InnerEnds(db, now, before, rows, apps, tokens.value, t, users, usernames.value);
        t := t + 1;
      }
      assert tokens.value[..t] == tokens.value;
      PageShown(db, now, rows, apps, tokens.value);
      return Index(rows);
    }
  }

  // ----------------------------------------- the server stands for the typed store

  lemma {:induction false} DriveRefines(cfg: Config, w: Net, st: Histories, th: Thread)
    requires Represents(w.db, st) && Plain(AppOfThread(th))
    ensures
      var served := Drive(cfg, w, th);
      var (st', th') := Finish(cfg, st, w.now, th, w.faults);
      served.thread == th' && served.net.now == w.now && Represents(served.net.db, st')
    decreases Remaining(th)
  {
    if !th.Finished? {
      var call := NextCall(th);
      var x := Send(w, call);
      var st' := if HeadFault(w.faults) then st else HistoryDo(st, w.now, call).0;
      ThreadKeepsApp(cfg, w.now, th, x.reply);
      CallRefines(w.db, st, w.now, call);
      ResumeGetsCloser(cfg, w.now, th, x.reply);
      DriveRefines(cfg, x.net, st', Resume(cfg, w.now, th, x.reply));
    }
  }

  /** The server objects serving one request after the other. */
  function ServeAll(cfg: Config, w: Net, events: seq<Event>): Net
    decreases |events|
  {
    if events == [] then w
    else
      var w' := match events[0]
        case Serve(request, faults) => Drive(cfg, w.(faults := faults), Start(request)).net
        case Wait(ms) => w.(now := w.now + ms);
      ServeAll(cfg, w', events[1..])
  }

  predicate PlainEvents(events: seq<Event>) {
    forall i :: 0 <= i < |events| && events[i].Serve? ==> Plain(AppOfRequest(events[i].request))
  }

  lemma StartKeepsApp(request: Request)
    ensures AppOfThread(Start(request)) == AppOfRequest(request)
  {
  }

  lemma {:induction false} ServeAllRefines(cfg: Config, w: Net, a: World, events: seq<Event>)
    requires Represents(w.db, a.st) && w.now == a.now && PlainEvents(events)
    ensures
      var w', a' := ServeAll(cfg, w, events), After(cfg, a, events);
      Represents(w'.db, a'.st) && w'.now == a'.now
    decreases |events|
  {
    if events != [] {
      var e := events[0];
      assert PlainEvents(events[1..]);
      if e.Serve? {
        StartKeepsApp(e.request);
        DriveRefines(cfg, w.(faults := e.faults), a.st, Start(e.request));
        ServeAllRefines(cfg, Drive(cfg, w.(faults := e.faults), Start(e.request)).net, Happen(cfg, a, e), events[1..]);
      } else {
        ServeAllRefines(cfg, w.(now := w.now + e.ms), Happen(cfg, a, e), events[1..]);
      }
    }
  }

  /** After any number of requests the server gives the answer that the typed
      store would, to any next request and with any faults; so all that holds of
      atomic handlers there holds of the objects here. */
  lemma ServerAnswers(cfg: Config, events: seq<Event>, request: Request, faults: seq<bool>)
    requires PlainEvents(events) && Plain(AppOfRequest(request))
    ensures
      var w := ServeAll(cfg, Net(map[], 0, []), events);
      var a := After(cfg, START, events);
      && Represents(w.db, a.st)
      && Drive(cfg, w.(faults := faults), Start(request)).thread == AnswerTo(cfg, a, request, faults)
  {
    EmptyRepresents(PlainIds());
    var w := ServeAll(cfg, Net(map[], 0, []), events);
    ServeAllRefines(cfg, Net(map[], 0, []), START, events);
    StartKeepsApp(request);
    DriveRefines(cfg, w.(faults := faults), After(cfg, START, events).st, Start(request));
  }

  /** A token text that is not hexadecimal is refused before any call: nothing in
      the database changes and no fault is met. */
  lemma MalformedTokenRefused(cfg: Config, w: Net, id: UserId, token: string)
    requires |token| % 2 == 1 || exists c :: c in token && c !in "0123456789abcdefABCDEF"
    ensures Drive(cfg, w, Start(FinalizeAuthentication(id, token)))
         == Served(w, Finished(id.app, Rejected(400, "session token is bad")))
  {
    HexDecodesExactly(token);
  }

  /** Likewise one of another length than 88 digits. */
  lemma WrongLengthRefused(cfg: Config, w: Net, id: UserId, token: string)
    requires |token| != 88 && |token| % 2 == 0 && forall c :: c in token ==> c in "0123456789abcdefABCDEF"
    ensures Drive(cfg, w, Start(FinalizeAuthentication(id, token)))
         == Served(w, Finished(id.app, Rejected(400, "while checking session token")))
  {
    HexDecodesExactly(token);
    HexLength(token);
  }

  // ------------------------------------------- what the index page can rely on

  predicate CleanThread(th: Thread) {
    Plain(AppOfThread(th)) && GlobFree(AppOfThread(th)) && (!th.Secret0? && !th.Finished? ==> Plain(th.id.user))
  }

  lemma CleanThreadResumes(cfg: Config, now: nat, th: Thread, reply: Reply)
    requires CleanThread(th) && !th.Finished?
    ensures CleanSlot(SlotOf(NextCall(th))) && CleanThread(Resume(cfg, now, th, reply))
  {
  }

  lemma {:induction false} DriveKeepsWritten(cfg: Config, w: Net, th: Thread, clean: bool)
    requires Written(w.db, clean) && (clean ==> CleanThread(th))
    ensures Written(Drive(cfg, w, th).net.db, clean)
    decreases Remaining(th)
  {
    if !th.Finished? {
      var x := Send(w, NextCall(th));
      ResumeGetsCloser(cfg, w.now, th, x.reply);
      if clean {
        CleanThreadResumes(cfg, w.now, th, x.reply);
      }
      CallKeepsWritten(w.db, w.now, NextCall(th), clean);
      DriveKeepsWritten(cfg, x.net, Resume(cfg, w.now, th, x.reply), clean);
    }
  }

  predicate CleanRequest(r: Request) {
    Plain(AppOfRequest(r)) && GlobFree(AppOfRequest(r)) && (!r.SetSecret? ==> Plain(r.id.user))
  }

  lemma CleanRequestStarts(r: Request)
    requires CleanRequest(r)
    ensures CleanThread(Start(r))
  {
  }

  /** Serving requests keeps a database the program's own, and if they all have
      clean names its names clean. */
  lemma {:induction false} RequestsKeepWritten(cfg: Config, w: Net, events: seq<Event>, clean: bool)
    requires Written(w.db, clean)
    requires clean ==> forall i :: 0 <= i < |events| && events[i].Serve? ==> CleanRequest(events[i].request)
    ensures Written(ServeAll(cfg, w, events).db, clean)
    decreases |events|
  {
    if events != [] {
      if events[0].Serve? {
        if clean {
          CleanRequestStarts(events[0].request);
        }
        DriveKeepsWritten(cfg, w.(faults := events[0].faults), Start(events[0].request), clean);
        var w' := Drive(cfg, w.(faults := events[0].faults), Start(events[0].request)).net;
        RequestsKeepWritten(cfg, w', events[1..], clean);
      } else {
        RequestsKeepWritten(cfg, w.(now := w.now + events[0].ms), events[1..], clean);
      }
    }
  }

  /** So if all requests so far had clean names, the index page can rely on them. */
  lemma CleanRequestsKeepCleanNames(cfg: Config, events: seq<Event>)
    requires forall i :: 0 <= i < |events| && events[i].Serve? ==> CleanRequest(events[i].request)
    ensures
      var w := ServeAll(cfg, Net(map[], 0, []), events);
      CleanNames(w.db, w.now)
  {
    RequestsKeepWritten(cfg, Net(map[], 0, []), events, true);
    var w := ServeAll(cfg, Net(map[], 0, []), events);
    WrittenCleanNames(w.db, w.now);
  }

  /** Every schedule, with any names, leaves a database the program's own: all its
      keys have their third part. */
  lemma {:induction false} ScheduleKeepsWritten(cfg: Config, r: RedisState, acts: seq<Action>)
    requires Written(r.db, false)
    ensures Written(RedisExec(cfg, r, acts).db, false)
    ensures forall key :: key in RedisExec(cfg, r, acts).db ==> |Split(key)| > 2
    decreases |acts|
  {
    if acts == [] {
      forall key | key in r.db ensures |Split(key)| > 2 {
        WrittenKeyHasThreeParts(r.db, key, false);
      }
    } else {
      var a := acts[0];
      if a.Run? && CanRun(r.threads, a.tid) {
        CallKeepsWritten(r.db, r.now, NextCall(r.threads[a.tid]), false);
      }
      ScheduleKeepsWritten(cfg, RedisStep(cfg, r, a), acts[1..]);
    }
  }
}
