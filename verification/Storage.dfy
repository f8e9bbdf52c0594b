/** The storage interface as calls and replies, and its specification: a store
    that forgets nothing, in which the current value is the newest one. */
module Storage {
  import opened Encoding

  datatype UserId = UserId(app: string, user: string)

  /** Holds the serialized OPRF key created for a registration. */
  datatype UserRequest = UserRequest(key: Bytes)

  datatype UserEnvelope = UserEnvelope(pubU: Bytes, envU: Bytes, envUNonce: Bytes, rwdUSalt: Bytes, key: Bytes)

  datatype Session = Session(token: string, expires: nat)

  /** One command sent to the database; time is in milliseconds. */
  datatype Call =
    | HasRequest(id: UserId)
    | PutRequest(id: UserId, request: UserRequest)
    | GetRequest(id: UserId)
    | PutEnvelope(id: UserId, envelope: UserEnvelope)
    | GetEnvelope(id: UserId)
    | PushNonce(id: UserId, nonce: Bytes)
    | TrimNonces(id: UserId)
    | ListNonces(id: UserId)
    | PutSession(id: UserId, token: string, ttl: nat)
    | GetSession(id: UserId)
    | PutSecret(app: string, secret: string)
    | GetSecret(app: string)

  datatype Reply =
    | Failed                         // the connection failed, nothing was done
    | Missing                        // no such key
    | Corrupt                        // a value of another type
    | Done
    | Flag(flag: bool)
    | RequestIs(request: UserRequest)
    | EnvelopeIs(envelope: UserEnvelope)
    | EntriesAre(entries: seq<string>)
    | TextIs(text: string)

  const MAX_NONCES := 20

  /** Redis ranges include both ends. */
  function InclusiveRange<T>(s: seq<T>, lo: nat, hi: nat): seq<T> {
    if lo > hi || lo >= |s| then [] else if hi + 1 <= |s| then s[lo..hi + 1] else s[lo..]
  }

  /** The entries kept and read: one more than the constant says. */
  function Window<T>(s: seq<T>): seq<T> {
    InclusiveRange(s, 0, MAX_NONCES)
  }

  lemma WindowIsTwentyOne<T>(s: seq<T>)
    ensures Window(s) <= s
    ensures |Window(s)| == if |s| < 21 then |s| else 21
  {
  }

  // ------------------------------------------------------------------- histories

  datatype Histories = Histories(
    requests: map<UserId, seq<UserRequest>>,
    envelopes: map<UserId, seq<UserEnvelope>>,
    nonces: map<UserId, seq<Bytes>>,
    sessions: map<UserId, seq<Session>>,
    secrets: map<string, seq<string>>
  )

  const EMPTY := Histories(map[], map[], map[], map[], map[])

  function Of<K, T>(m: map<K, seq<T>>, id: K): seq<T> {
    if id in m then m[id] else []
  }

  function Add<K, T>(m: map<K, seq<T>>, id: K, x: T): map<K, seq<T>> {
    m[id := [x] + Of(m, id)]
  }

  function CurrentSession(st: Histories, now: nat, id: UserId): Option<string> {
    var h := Of(st.sessions, id);
    if h != [] && now < h[0].expires then Some(h[0].token) else None
  }

  /** The specification of one command. Trimming is invisible: reading shows
      the newest window of everything ever pushed. */
  function HistoryDo(st: Histories, now: nat, call: Call): (Histories, Reply) {
    match call
    case HasRequest(id) => (st, Flag(Of(st.requests, id) != []))
    case PutRequest(id, request) => (st.(requests := Add(st.requests, id, request)), Done)
    case GetRequest(id) =>
      var h := Of(st.requests, id);
      (st, if h == [] then Missing else RequestIs(h[0]))
    case PutEnvelope(id, envelope) => (st.(envelopes := Add(st.envelopes, id, envelope)), Done)
    case GetEnvelope(id) =>
      var h := Of(st.envelopes, id);
      (st, if h == [] then Missing else EnvelopeIs(h[0]))
    case PushNonce(id, nonce) => (st.(nonces := Add(st.nonces, id, nonce)), Done)
    case TrimNonces(id) => (st, Done)
    case ListNonces(id) => (st, EntriesAre(HexAll(Window(Of(st.nonces, id)))))
    case PutSession(id, token, ttl) => (st.(sessions := Add(st.sessions, id, Session(token, now + ttl))), Done)
    case GetSession(id) =>
      (st, match CurrentSession(st, now, id) case None => Missing case Some(token) => TextIs(token))
    case PutSecret(app, secret) => (st.(secrets := Add(st.secrets, app, secret)), Done)
    case GetSecret(app) =>
      var h := Of(st.secrets, app);
      (st, if h == [] then Missing else TextIs(h[0]))
  }

  // ------------------------------------------------- histories only ever grow

  ghost predicate IsSuffix<T>(old': seq<T>, new': seq<T>) {
    |old'| <= |new'| && new' == new'[..|new'| - |old'|] + old'
  }

  ghost predicate GrowsFor(st: Histories, st': Histories, id: UserId) {
    && IsSuffix(Of(st.requests, id), Of(st'.requests, id))
    && IsSuffix(Of(st.envelopes, id), Of(st'.envelopes, id))
    && IsSuffix(Of(st.nonces, id), Of(st'.nonces, id))
    && IsSuffix(Of(st.sessions, id), Of(st'.sessions, id))
    && IsSuffix(Of(st.secrets, id.app), Of(st'.secrets, id.app))
  }

  ghost predicate Grows(st: Histories, st': Histories) {
    forall id: UserId :: GrowsFor(st, st', id)
  }

  lemma AddGrows<K, T>(m: map<K, seq<T>>, id: K, x: T, k: K)
    ensures IsSuffix(Of(m, k), Of(Add(m, id, x), k))
  {
    if k == id {
      assert ([x] + Of(m, k))[..1] == [x];
    } else {
      SuffixReflexive(Of(m, k));
    }
  }

  lemma SuffixReflexive<T>(a: seq<T>)
    ensures IsSuffix(a, a)
  {
    assert a[..0] + a == a;
  }

  lemma CallGrowsFor(st: Histories, now: nat, call: Call, id: UserId)
    ensures GrowsFor(st, HistoryDo(st, now, call).0, id)
  {
    SuffixReflexive(Of(st.requests, id));
    SuffixReflexive(Of(st.envelopes, id));
    SuffixReflexive(Of(st.nonces, id));
    SuffixReflexive(Of(st.sessions, id));
    SuffixReflexive(Of(st.secrets, id.app));
    match call {
      case PutRequest(id', request) => AddGrows(st.requests, id', request, id);
      case PutEnvelope(id', envelope) => AddGrows(st.envelopes, id', envelope, id);
      case PushNonce(id', nonce) => AddGrows(st.nonces, id', nonce, id);
      case PutSession(id', token, ttl) => AddGrows(st.sessions, id', Session(token, now + ttl), id);
      case PutSecret(app, secret) => AddGrows(st.secrets, app, secret, id.app);
      case _ =>
    }
  }

  lemma CallGrows(st: Histories, now: nat, call: Call)
    ensures Grows(st, HistoryDo(st, now, call).0)
  {
    forall id: UserId ensures GrowsFor(st, HistoryDo(st, now, call).0, id) {
      CallGrowsFor(st, now, call, id);
    }
  }

  lemma SuffixTransitive<T>(a: seq<T>, b: seq<T>, c: seq<T>)
    requires IsSuffix(a, b) && IsSuffix(b, c)
    ensures IsSuffix(a, c)
  {
    var p, q := c[..|c| - |b|], b[..|b| - |a|];
    assert c == (p + q) + a;
    assert c[..|c| - |a|] == p + q;
  }

  lemma GrowsForTransitive(a: Histories, b: Histories, c: Histories, id: UserId)
    requires GrowsFor(a, b, id) && GrowsFor(b, c, id)
    ensures GrowsFor(a, c, id)
  {
    SuffixTransitive(Of(a.requests, id), Of(b.requests, id), Of(c.requests, id));
    SuffixTransitive(Of(a.envelopes, id), Of(b.envelopes, id), Of(c.envelopes, id));
    SuffixTransitive(Of(a.nonces, id), Of(b.nonces, id), Of(c.nonces, id));
    SuffixTransitive(Of(a.sessions, id), Of(b.sessions, id), Of(c.sessions, id));
    SuffixTransitive(Of(a.secrets, id.app), Of(b.secrets, id.app), Of(c.secrets, id.app));
  }

  lemma GrowsTransitive(a: Histories, b: Histories, c: Histories)
    requires Grows(a, b) && Grows(b, c)
    ensures Grows(a, c)
  {
    forall id: UserId ensures GrowsFor(a, c, id) {
      assert GrowsFor(a, b, id) && GrowsFor(b, c, id);
      GrowsForTransitive(a, b, c, id);
    }
  }

  // ------------------------------------------------------------ the nonce check

  /** The comparison made on what was read back: a malformed entry is logged
      and its decoded part is compared all the same. */
  predicate Listed(entries: seq<string>, nonce: Bytes) {
    exists i :: 0 <= i < |entries| && HexDecode(entries[i]).bytes == nonce
  }

  lemma ListedIsMembership(nonces: seq<Bytes>, nonce: Bytes)
    ensures Listed(HexAll(nonces), nonce) <==> nonce in nonces
  {
    forall i | 0 <= i < |nonces|
      ensures HexDecode(HexAll(nonces)[i]).bytes == nonces[i]
    {
      HexRoundTrip(nonces[i]);
    }
    if i :| 0 <= i < |nonces| && nonces[i] == nonce {
      assert HexDecode(HexAll(nonces)[i]).bytes == nonce;
    }
  }
}
