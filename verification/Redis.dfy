/** The flat, string-keyed database and its refinement of the typed store. */
module Redis {
  import opened Encoding
  import opened Storage

  datatype Value =
    | Text(text: string)
    | Request(request: UserRequest)
    | Envelope(envelope: UserEnvelope)
    | List(entries: seq<string>)

  datatype Entry = Entry(value: Value, expires: Option<nat>)

  type Db = map<string, Entry>

  /** A key is there until its time to live has run out. */
  function Lookup(db: Db, now: nat, key: string): Option<Value> {
    if key in db && (db[key].expires.None? || now < db[key].expires.value) then Some(db[key].value) else None
  }

  function Put(db: Db, key: string, value: Value): Db {
    db[key := Entry(value, None)]
  }

  // ------------------------------------------------------------------------ keys

  datatype Slot =
    | RequestOf(id: UserId)
    | EnvelopeOf(id: UserId)
    | NoncesOf(id: UserId)
    | SessionOf(id: UserId)
    | SecretOf(app: string)

  function Key(slot: Slot): string {
    match slot
    case RequestOf(id) => "reg:" + Joined(id) + ":request"
    case EnvelopeOf(id) => "reg:" + Joined(id) + ":envelope"
    case NoncesOf(id) => "auth:" + Joined(id) + ":requests"
    case SessionOf(id) => "tokens:" + Joined(id) + ":token"
    case SecretOf(app) => "app_secrets:" + app + ":secret"
  }

  function Joined(id: UserId): string {
    id.app + ":" + id.user
  }

  predicate Plain(s: string) {
    ':' !in s
  }

  function AppOf(slot: Slot): string {
    match slot
    case SecretOf(app) => app
    case _ => slot.id.app
  }

  /** What stands between the prefix and the suffix of a key. */
  function Middle(slot: Slot): string {
    match slot
    case SecretOf(app) => app
    case _ => Joined(slot.id)
  }

  predicate SameFamily(a: Slot, b: Slot) {
    match a
    case RequestOf(_) => b.RequestOf?
    case EnvelopeOf(_) => b.EnvelopeOf?
    case NoncesOf(_) => b.NoncesOf?
    case SessionOf(_) => b.SessionOf?
    case SecretOf(_) => b.SecretOf?
  }

  lemma AffixInjective(pre: string, a: string, b: string, suf: string)
    requires pre + a + suf == pre + b + suf
    ensures a == b
  {
    assert |a| == |b|;
    assert (pre + a + suf)[|pre|..|pre| + |a|] == a;
    assert (pre + b + suf)[|pre|..|pre| + |b|] == b;
  }

  /** The five families never meet, whatever the names contain. */
  lemma FamiliesDisjoint(a: Slot, b: Slot)
    requires !SameFamily(a, b)
    ensures Key(a) != Key(b)
  {
    var ka, kb := Key(a), Key(b);
    assert ka[0] == kb[0] && ka[1] == kb[1] ==> a.RequestOf? || a.EnvelopeOf?;
    assert a.RequestOf? && b.EnvelopeOf? ==> ka[|ka| - 1] == 't' && kb[|kb| - 1] == 'e';
    assert b.RequestOf? && a.EnvelopeOf? ==> kb[|kb| - 1] == 't' && ka[|ka| - 1] == 'e';
  }

  /** Exactly when two keys are one: same family and same joined name. */
  lemma KeysCollideExactly(a: Slot, b: Slot)
    ensures Key(a) == Key(b) <==> SameFamily(a, b) && Middle(a) == Middle(b)
  {
    if !SameFamily(a, b) {
      FamiliesDisjoint(a, b);
    } else if Key(a) == Key(b) {
      match a {
        case RequestOf(_) => AffixInjective("reg:", Middle(a), Middle(b), ":request");
        case EnvelopeOf(_) => AffixInjective("reg:", Middle(a), Middle(b), ":envelope");
        case NoncesOf(_) => AffixInjective("auth:", Middle(a), Middle(b), ":requests");
        case SessionOf(_) => AffixInjective("tokens:", Middle(a), Middle(b), ":token");
        case SecretOf(_) => AffixInjective("app_secrets:", Middle(a), Middle(b), ":secret");
      }
    }
  }

  /** With ':' in an app token two different users do share keys. */
  lemma ColonsCollide()
    ensures UserId("a:b", "c") != UserId("a", "b:c")
    ensures Key(EnvelopeOf(UserId("a:b", "c"))) == Key(EnvelopeOf(UserId("a", "b:c")))
  {
    assert Joined(UserId("a:b", "c")) == "a:b:c" == Joined(UserId("a", "b:c"));
  }

  function UpToColon(s: string): (r: string)
    ensures r <= s
  {
    if s == "" || s[0] == ':' then "" else [s[0]] + UpToColon(s[1..])
  }

  lemma {:induction false} UpToColonOf(name: string, rest: string)
    requires Plain(name)
    ensures UpToColon(name + ":" + rest) == name
  {
    var s := name + ":" + rest;
    if name != "" {
      UpToColonOf(name[1..], rest);
      assert s[1..] == name[1..] + ":" + rest;
      assert name == [name[0]] + name[1..];
    }
  }

  lemma JoinedInjective(a: UserId, b: UserId)
    requires Plain(a.app) && Plain(b.app) && Joined(a) == Joined(b)
    ensures a == b
  {
    UpToColonOf(a.app, a.user);
    UpToColonOf(b.app, b.user);
    assert Joined(a)[|a.app| + 1..] == a.user;
    assert Joined(b)[|b.app| + 1..] == b.user;
  }

  // Users whose joined names differ never share a key, colons or not.

  ghost predicate DistinctNames(ids: iset<UserId>) {
    forall a, b :: a in ids && b in ids && Joined(a) == Joined(b) ==> a == b
  }

  ghost predicate Within(slot: Slot, ids: iset<UserId>) {
    slot.SecretOf? || slot.id in ids
  }

  /** On such users the key builders are injective. */
  lemma KeyInjectiveWithin(a: Slot, b: Slot, ids: iset<UserId>)
    requires DistinctNames(ids) && Within(a, ids) && Within(b, ids) && Key(a) == Key(b)
    ensures a == b
  {
    KeysCollideExactly(a, b);
  }

  ghost function PlainIds(): iset<UserId> {
    iset id: UserId | Plain(id.app)
  }

  lemma PlainNamesDiffer()
    ensures DistinctNames(PlainIds())
  {
    forall a, b | a in PlainIds() && b in PlainIds() && Joined(a) == Joined(b) ensures a == b {
      JoinedInjective(a, b);
    }
  }

  /** For app tokens without ':' the key builders are injective. */
  lemma KeyInjective(a: Slot, b: Slot)
    requires Plain(AppOf(a)) && Plain(AppOf(b)) && Key(a) == Key(b)
    ensures a == b
  {
    KeysCollideExactly(a, b);
    if !a.SecretOf? {
      JoinedInjective(a.id, b.id);
    }
  }

  // -------------------------------------------------------------------- commands

  function SlotOf(call: Call): Slot {
    match call
    case HasRequest(id) => RequestOf(id)
    case PutRequest(id, _) => RequestOf(id)
    case GetRequest(id) => RequestOf(id)
    case PutEnvelope(id, _) => EnvelopeOf(id)
    case GetEnvelope(id) => EnvelopeOf(id)
    case PushNonce(id, _) => NoncesOf(id)
    case TrimNonces(id) => NoncesOf(id)
    case ListNonces(id) => NoncesOf(id)
    case PutSession(id, _, _) => SessionOf(id)
    case GetSession(id) => SessionOf(id)
    case PutSecret(app, _) => SecretOf(app)
    case GetSecret(app) => SecretOf(app)
  }

  function TextReply(v: Option<Value>): Reply {
    match v
    case None => Missing
    case Some(Text(s)) => TextIs(s)
    case _ => Corrupt
  }

  /** LTRIM of a list to the empty range deletes the key. */
  function Trimmed(db: Db, key: string, entries: seq<string>): Db {
    if entries == [] then db - {key} else Put(db, key, List(entries))
  }

  /** What the database does for one call. */
  function RedisDo(db: Db, now: nat, call: Call): (Db, Reply) {
    var key := Key(SlotOf(call));
    var found := Lookup(db, now, key);
    match call
    case HasRequest(_) => (db, Flag(found.Some?))
    case PutRequest(_, request) => (Put(db, key, Request(request)), Done)
    case GetRequest(_) =>
      (db, match found case None => Missing case Some(Request(r)) => RequestIs(r) case _ => Corrupt)
    case PutEnvelope(_, envelope) => (Put(db, key, Envelope(envelope)), Done)
    case GetEnvelope(_) =>
      (db, match found case None => Missing case Some(Envelope(e)) => EnvelopeIs(e) case _ => Corrupt)
    case PushNonce(_, nonce) =>
      (match found
       case None => (Put(db, key, List([HexEncode(nonce)])), Done)
       case Some(List(l)) => (Put(db, key, List([HexEncode(nonce)] + l)), Done)
       case _ => (db, Corrupt))
    case TrimNonces(_) =>
      (match found
       case None => (db, Done)
       case Some(List(l)) => (Trimmed(db, key, Window(l)), Done)
       case _ => (db, Corrupt))
    case ListNonces(_) =>
      (db, match found case None => EntriesAre([]) case Some(List(l)) => EntriesAre(Window(l)) case _ => Corrupt)
    case PutSession(_, token, ttl) => (db[key := Entry(Text(token), Some(now + ttl))], Done)
    case GetSession(_) => (db, TextReply(found))
    case PutSecret(_, secret) => (Put(db, key, Text(secret)), Done)
    case GetSecret(_) => (db, TextReply(found))
  }

  // ------------------------------------------------------------- what trimming does

  /** The nonces that are really stored for a user, visible or not. */
  function StoredNonces(db: Db, now: nat, id: UserId): seq<string> {
    match Lookup(db, now, Key(NoncesOf(id)))
    case Some(List(l)) => l
    case _ => []
  }

  /** A trim leaves the newest twenty-one and nothing more. */
  lemma TrimShortens(db: Db, now: nat, id: UserId)
    requires var found := Lookup(db, now, Key(NoncesOf(id))); found.Some? ==> found.value.List?
    ensures
      var l, l' := StoredNonces(db, now, id), StoredNonces(RedisDo(db, now, TrimNonces(id)).0, now, id);
      l' == if |l| <= 21 then l else l[..21]
  {
    WindowIsTwentyOne(StoredNonces(db, now, id));
  }

  /** A push puts the nonce first and keeps all the others. */
  lemma PushLengthens(db: Db, now: nat, id: UserId, nonce: Bytes)
    requires var found := Lookup(db, now, Key(NoncesOf(id))); found.Some? ==> found.value.List?
    ensures
      var l, l' := StoredNonces(db, now, id), StoredNonces(RedisDo(db, now, PushNonce(id, nonce)).0, now, id);
      l' == [HexEncode(nonce)] + l
  {
    assert [HexEncode(nonce)] + [] == [HexEncode(nonce)];
  }

  /** No other command makes the stored list longer. */
  lemma OthersKeepList(db: Db, now: nat, call: Call, id: UserId)
    requires Plain(id.app) && Plain(AppOf(SlotOf(call)))
    ensures
      var n, n' := |StoredNonces(db, now, id)|, |StoredNonces(RedisDo(db, now, call).0, now, id)|;
      n' <= if call == TrimNonces(id) then 21 else if call.PushNonce? && call.id == id then n + 1 else n
  {
    var key := Key(NoncesOf(id));
    if SlotOf(call) != NoncesOf(id) {
      if Key(SlotOf(call)) == key {
        KeyInjective(SlotOf(call), NoncesOf(id));
      }
      OnlyOwnKey(db, now, call, key);
    } else {
      OwnCallsOnList(db, now, call, id);
    }
  }

  lemma OwnCallsOnList(db: Db, now: nat, call: Call, id: UserId)
    requires SlotOf(call) == NoncesOf(id)
    ensures
      var n, n' := |StoredNonces(db, now, id)|, |StoredNonces(RedisDo(db, now, call).0, now, id)|;
      n' <= if call.TrimNonces? then 21 else if call.PushNonce? then n + 1 else n
  {
    var found := Lookup(db, now, Key(NoncesOf(id)));
    if found.Some? && !found.value.List? {
      assert RedisDo(db, now, call).0 == db;
    } else if call.TrimNonces? {
      TrimShortens(db, now, id);
    } else if call.PushNonce? {
      PushLengthens(db, now, id, call.nonce);
    }
  }

  // ------------------------------------------------------------------ refinement

  function Raw(db: Db, key: string): Option<Entry> {
    if key in db then Some(db[key]) else None
  }

  function Newest<T>(h: seq<T>, wrap: T -> Entry): Option<Entry> {
    if h == [] then None else Some(wrap(h[0]))
  }

  /** A stored list is some prefix of the history that covers the window. */
  predicate ListCovers(l: seq<string>, h: seq<Bytes>) {
    && |Window(h)| <= |l| <= |h|
    && forall i :: 0 <= i < |l| ==> l[i] == HexEncode(h[i])
  }

  lemma CoversPush(l: seq<string>, h: seq<Bytes>, nonce: Bytes)
    requires ListCovers(l, h)
    ensures ListCovers([HexEncode(nonce)] + l, [nonce] + h)
  {
    WindowIsTwentyOne(h);
    WindowIsTwentyOne([nonce] + h);
  }

  /** However many pushes have come between, a trim never hides a nonce. */
  lemma CoversTrim(l: seq<string>, h: seq<Bytes>)
    requires ListCovers(l, h)
    ensures ListCovers(Window(l), h)
  {
    WindowIsTwentyOne(h);
    WindowIsTwentyOne(l);
  }

  lemma CoversRead(l: seq<string>, h: seq<Bytes>)
    requires ListCovers(l, h)
    ensures Window(l) == HexAll(Window(h))
  {
    WindowIsTwentyOne(h);
    WindowIsTwentyOne(l);
  }

  predicate Agrees(db: Db, st: Histories, slot: Slot) {
    var e := Raw(db, Key(slot));
    match slot
    case RequestOf(id) => e == Newest(Of(st.requests, id), r => Entry(Request(r), None))
    case EnvelopeOf(id) => e == Newest(Of(st.envelopes, id), r => Entry(Envelope(r), None))
    case SessionOf(id) => e == Newest(Of(st.sessions, id), (s: Session) => Entry(Text(s.token), Some(s.expires)))
    case SecretOf(app) => e == Newest(Of(st.secrets, app), s => Entry(Text(s), None))
    case NoncesOf(id) =>
      var h := Of(st.nonces, id);
      if h == [] then e == None
      else e.Some? && e.value.expires == None && e.value.value.List? && ListCovers(e.value.value.entries, h)
  }

  /** The flat database stands for the typed store, on every slot of these users. */
  ghost predicate RepresentsWithin(db: Db, st: Histories, ids: iset<UserId>) {
    forall slot: Slot :: Within(slot, ids) ==> Agrees(db, st, slot)
  }

  /** It does so on every slot of every app token without ':'. */
  ghost predicate Represents(db: Db, st: Histories) {
    RepresentsWithin(db, st, PlainIds())
  }

  lemma EmptyRepresents(ids: iset<UserId>)
    ensures RepresentsWithin(map[], EMPTY, ids)
  {
  }

  /** A command touches no key but its own. */
  lemma OnlyOwnKey(db: Db, now: nat, call: Call, key: string)
    requires key != Key(SlotOf(call))
    ensures Raw(RedisDo(db, now, call).0, key) == Raw(db, key)
  {
  }

  /** Hence it leaves every other slot alone: other users, other families. */
  lemma OtherSlotsUnchanged(db: Db, now: nat, call: Call, slot: Slot)
    requires Plain(AppOf(slot)) && Plain(AppOf(SlotOf(call))) && slot != SlotOf(call)
    ensures Raw(RedisDo(db, now, call).0, Key(slot)) == Raw(db, Key(slot))
  {
    if Key(slot) == Key(SlotOf(call)) {
      KeyInjective(slot, SlotOf(call));
    }
  }

  lemma OwnSlotAgrees(db: Db, st: Histories, now: nat, call: Call)
    requires Agrees(db, st, SlotOf(call))
    ensures RedisDo(db, now, call).1 == HistoryDo(st, now, call).1
    ensures Agrees(RedisDo(db, now, call).0, HistoryDo(st, now, call).0, SlotOf(call))
  {
    if call.ListNonces? || call.PushNonce? || call.TrimNonces? {
      NonceListAgrees(db, st, now, call);
    }
  }

  lemma NonceListAgrees(db: Db, st: Histories, now: nat, call: Call)
    requires call.ListNonces? || call.PushNonce? || call.TrimNonces?
    requires Agrees(db, st, SlotOf(call))
    ensures RedisDo(db, now, call).1 == HistoryDo(st, now, call).1
    ensures Agrees(RedisDo(db, now, call).0, HistoryDo(st, now, call).0, SlotOf(call))
  {
    match call {
      case ListNonces(_) => ReadAgrees(db, st, now, call);
      case PushNonce(_, _) => PushAgrees(db, st, now, call);
      case TrimNonces(_) => TrimAgrees(db, st, now, call);
    }
  }

  lemma ReadAgrees(db: Db, st: Histories, now: nat, call: Call)
    requires call.ListNonces? && Agrees(db, st, SlotOf(call))
    ensures RedisDo(db, now, call).1 == HistoryDo(st, now, call).1
  {
    var h := Of(st.nonces, call.id);
    if h == [] {
      assert HexAll(Window(h)) == [];
    } else {
      CoversRead(db[Key(SlotOf(call))].value.entries, h);
    }
  }

  lemma PushAgrees(db: Db, st: Histories, now: nat, call: Call)
    requires call.PushNonce? && Agrees(db, st, SlotOf(call))
    ensures RedisDo(db, now, call).1 == HistoryDo(st, now, call).1
    ensures Agrees(RedisDo(db, now, call).0, HistoryDo(st, now, call).0, SlotOf(call))
  {
    var h := Of(st.nonces, call.id);
    if h != [] {
      CoversPush(db[Key(SlotOf(call))].value.entries, h, call.nonce);
    }
  }

  lemma TrimAgrees(db: Db, st: Histories, now: nat, call: Call)
    requires call.TrimNonces? && Agrees(db, st, SlotOf(call))
    ensures RedisDo(db, now, call).1 == HistoryDo(st, now, call).1
    ensures Agrees(RedisDo(db, now, call).0, HistoryDo(st, now, call).0, SlotOf(call))
  {
    var h := Of(st.nonces, call.id);
    if h != [] {
      CoversTrim(db[Key(SlotOf(call))].value.entries, h);
    }
  }

  /** One step of the simulation: the flat database gives the specified reply
      and goes on representing the typed store. */
  lemma CallRefinesWithin(db: Db, st: Histories, now: nat, call: Call, ids: iset<UserId>)
    requires DistinctNames(ids) && RepresentsWithin(db, st, ids) && Within(SlotOf(call), ids)
    ensures RedisDo(db, now, call).1 == HistoryDo(st, now, call).1
    ensures RepresentsWithin(RedisDo(db, now, call).0, HistoryDo(st, now, call).0, ids)
  {
    var db', st' := RedisDo(db, now, call).0, HistoryDo(st, now, call).0;
    OwnSlotAgrees(db, st, now, call);
    forall slot: Slot | Within(slot, ids)
      ensures Agrees(db', st', slot)
    {
      if slot != SlotOf(call) {
        if Key(slot) == Key(SlotOf(call)) {
          KeyInjectiveWithin(slot, SlotOf(call), ids);
        }
        OnlyOwnKey(db, now, call, Key(slot));
        OtherSlotStays(st, now, call, slot);
        assert Agrees(db, st, slot);
      }
    }
  }

  /** What the typed store says of another slot. */
  lemma OtherSlotStays(st: Histories, now: nat, call: Call, slot: Slot)
    requires slot != SlotOf(call)
    ensures
      var st' := HistoryDo(st, now, call).0;
      match slot
      case RequestOf(id) => Of(st'.requests, id) == Of(st.requests, id)
      case EnvelopeOf(id) => Of(st'.envelopes, id) == Of(st.envelopes, id)
      case SessionOf(id) => Of(st'.sessions, id) == Of(st.sessions, id)
      case SecretOf(app) => Of(st'.secrets, app) == Of(st.secrets, app)
      case NoncesOf(id) => Of(st'.nonces, id) == Of(st.nonces, id)
  {
  }

  /** In particular for app tokens without ':'. */
  lemma CallRefines(db: Db, st: Histories, now: nat, call: Call)
    requires Represents(db, st) && Plain(AppOf(SlotOf(call)))
    ensures RedisDo(db, now, call).1 == HistoryDo(st, now, call).1
    ensures Represents(RedisDo(db, now, call).0, HistoryDo(st, now, call).0)
  {
    PlainNamesDiffer();
    CallRefinesWithin(db, st, now, call, PlainIds());
  }
}
