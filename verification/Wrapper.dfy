/** The Redis client and the wrapper around it, as objects over one database. */
module Wrapper {
  import opened Encoding
  import opened Suite
  import opened Storage
  import opened Redis
  import opened Handlers
  import opened Enumeration

  /** The database, the clock and what the connection is going to do. */
  datatype Net = Net(db: Db, now: nat, faults: seq<bool>)

  datatype Exchange = Exchange(net: Net, reply: Reply)

  /** What sending one call does and brings back. */
  function Send(w: Net, call: Call): Exchange {
    var rest := TailFaults(w.faults);
    if HeadFault(w.faults) then Exchange(w.(faults := rest), Failed)
    else
      var (db', reply) := RedisDo(w.db, w.now, call);
      Exchange(Net(db', w.now, rest), reply)
  }

  function SameText(reply: Reply, text: string): Result<bool> {
    if reply.TextIs? then Ok(reply.text == text) else Err(StorageFailed)
  }

  /** Exactly the live keys that match. */
  ghost predicate Found(db: Db, now: nat, pattern: string, keys: seq<string>) {
    forall key :: key in keys <==> Lookup(db, now, key).Some? && GlobMatch(pattern, key)
  }

  /** What a push and a trim that both go through leave in the list. */
  lemma PushAndTrim(w: Net, id: UserId, nonce: Bytes)
    ensures
      var push := Send(w, PushNonce(id, nonce));
      var trim := Send(push.net, TrimNonces(id));
      var l := [HexEncode(nonce)] + StoredNonces(w.db, w.now, id);
      && (push.reply.Done? ==> StoredNonces(push.net.db, w.now, id) == l)
      && (push.reply.Done? && trim.reply.Done? ==>
            StoredNonces(trim.net.db, w.now, id) == if |l| <= 21 then l else l[..21])
  {
    var push := Send(w, PushNonce(id, nonce));
    if push.reply.Done? {
      PushLengthens(w.db, w.now, id, nonce);
      if Send(push.net, TrimNonces(id)).reply.Done? {
        TrimShortens(push.net.db, w.now, id);
      }
    }
  }

  class RedisClient {
    var db: Db
    var now: nat
    var faults: seq<bool>

    constructor ()
      ensures State() == Net(map[], 0, [])
    {
      db, now, faults := map[], 0, [];
    }

    ghost function State(): Net
      reads this
    {
      Net(db, now, faults)
    }

    method Reach() returns (up: bool)
      modifies this`faults
      ensures up == !HeadFault(old(faults)) && faults == TailFaults(old(faults))
    {
      up := !HeadFault(faults);
      faults := TailFaults(faults);
    }

    method Get(key: string) returns (up: bool, v: Option<Value>)
      modifies this`faults
      ensures up == !HeadFault(old(faults)) && faults == TailFaults(old(faults))
      ensures up ==> v == Lookup(db, now, key)
    {
      up := Reach();
      v := Lookup(db, now, key);
    }

    method Exists(key: string) returns (up: bool, n: nat)
      modifies this`faults
      ensures up == !HeadFault(old(faults)) && faults == TailFaults(old(faults))
      ensures up ==> n == if Lookup(db, now, key).Some? then 1 else 0
    {
      up := Reach();
      n := if Lookup(db, now, key).Some? then 1 else 0;
    }

    /** A time to live of zero means none. */
    method Set(key: string, value: Value, ttl: nat) returns (up: bool)
      modifies this`faults, this`db
      ensures up == !HeadFault(old(faults)) && faults == TailFaults(old(faults))
      ensures db == if !up then old(db) else old(db)[key := Entry(value, if ttl == 0 then None else Some(now + ttl))]
    {
      up := Reach();
      if up {
        db := db[key := Entry(value, if ttl == 0 then None else Some(now + ttl))];
      }
    }

    /** Fails also on a value that is no list. */
    method LPush(key: string, entry: string) returns (ok: bool)
      modifies this`faults, this`db
      ensures faults == TailFaults(old(faults))
      ensures
        var found := Lookup(old(db), now, key);
        && ok == (!HeadFault(old(faults)) && (found.Some? ==> found.value.List?))
        && db == if !ok then old(db)
                 else Put(old(db), key, List([entry] + if found.Some? then found.value.entries else []))
    {
      var up := Reach();
      var found := Lookup(db, now, key);
      ok := up && (found.Some? ==> found.value.List?);
      if ok {
        db := Put(db, key, List([entry] + if found.Some? then found.value.entries else []));
      }
    }

    /** The ends are both included; an emptied list is no longer there. */
    method LTrim(key: string, lo: nat, hi: nat) returns (ok: bool)
      modifies this`faults, this`db
      ensures faults == TailFaults(old(faults))
      ensures
        var found := Lookup(old(db), now, key);
        && ok == (!HeadFault(old(faults)) && (found.Some? ==> found.value.List?))
        && db == if !ok || found.None? then old(db)
                 else Trimmed(old(db), key, InclusiveRange(found.value.entries, lo, hi))
    {
      var up := Reach();
      var found := Lookup(db, now, key);
      ok := up && (found.Some? ==> found.value.List?);
      if ok && found.Some? {
        db := Trimmed(db, key, InclusiveRange(found.value.entries, lo, hi));
      }
    }

    method LRange(key: string, lo: nat, hi: nat) returns (ok: bool, entries: seq<string>)
      modifies this`faults
      ensures faults == TailFaults(old(faults))
      ensures
        var found := Lookup(db, now, key);
        && ok == (!HeadFault(old(faults)) && (found.Some? ==> found.value.List?))
        && (ok ==> entries == if found.Some? then InclusiveRange(found.value.entries, lo, hi) else [])
    {
      var up := Reach();
      var found := Lookup(db, now, key);
      ok := up && (found.Some? ==> found.value.List?);
      entries := if ok && found.Some? then InclusiveRange(found.value.entries, lo, hi) else [];
    }

    /** The matching keys, each once, in any order. With a bracket or a backslash
        in the pattern it is not said which. */
    method Keys(pattern: string) returns (up: bool, keys: seq<string>)
      modifies this`faults
      ensures up == !HeadFault(old(faults)) && faults == TailFaults(old(faults))
      ensures NoDuplicates(keys) && forall key :: key in keys ==> Lookup(db, now, key).Some?
      ensures OnlyStars(pattern) ==> Found(db, now, pattern, keys)
    {
      up := Reach();
      var rest := set key | key in db && Lookup(db, now, key).Some? && GlobMatch(pattern, key);
      keys := [];
      while rest != {}
        invariant NoDuplicates(keys)
        invariant forall key :: key in keys ==> key !in rest
        invariant forall key :: Lookup(db, now, key).Some? && GlobMatch(pattern, key) <==> key in rest || key in keys
        decreases |rest|
      {
        var key :| key in rest;
        keys := keys + [key];
        rest := rest - {key};
      }
    }
  }

  class RedisWrapper {
    const client: RedisClient

    constructor (client: RedisClient)
      ensures this.client == client
    {
      this.client := client;
    }

    method StoreUserRequest(id: UserId, request: UserRequest) returns (ok: bool)
      modifies client
      ensures
        var x := Send(old(client.State()), PutRequest(id, request));
        client.State() == x.net && ok == x.reply.Done?
    {
      ok := client.Set(Key(RequestOf(id)), Request(request), 0);
    }

    method LoadUserRequest(id: UserId) returns (r: Result<UserRequest>)
      modifies client`faults
      ensures
        var x := Send(old(client.State()), GetRequest(id));
        client.State() == x.net && r == if x.reply.RequestIs? then Ok(x.reply.request) else Err(StorageFailed)
    {
      var up, v := client.Get(Key(RequestOf(id)));
      if !up || v.None? || !v.value.Request? {
        return Err(StorageFailed);
      }
      return Ok(v.value.request);
    }

    method HasUserRequest(id: UserId) returns (r: Result<bool>)
      modifies client`faults
      ensures
        var x := Send(old(client.State()), HasRequest(id));
        client.State() == x.net && r == if x.reply.Flag? then Ok(x.reply.flag) else Err(StorageFailed)
    {
      var up, n := client.Exists(Key(RequestOf(id)));
      return if up then Ok(n != 0) else Err(StorageFailed);
    }

    method StoreUserEnvelope(id: UserId, envelope: UserEnvelope) returns (ok: bool)
      modifies client
      ensures
        var x := Send(old(client.State()), PutEnvelope(id, envelope));
        client.State() == x.net && ok == x.reply.Done?
    {
      ok := client.Set(Key(EnvelopeOf(id)), Envelope(envelope), 0);
    }

    method LoadUserEnvelope(id: UserId) returns (r: Result<UserEnvelope>)
      modifies client`faults
      ensures
        var x := Send(old(client.State()), GetEnvelope(id));
        client.State() == x.net && r == if x.reply.EnvelopeIs? then Ok(x.reply.envelope) else Err(StorageFailed)
    {
      var up, v := client.Get(Key(EnvelopeOf(id)));
      if !up || v.None? || !v.value.Envelope? {
        return Err(StorageFailed);
      }
      return Ok(v.value.envelope);
    }

    /** With no time to live the token would be stored for good. */
    method StoreSessionToken(id: UserId, token: string, ttl: nat) returns (ok: bool)
      modifies client
      ensures
        var x := Send(old(client.State()), PutSession(id, token, ttl));
        && ok == x.reply.Done?
        && client.State() ==
             if ok && ttl == 0 then x.net.(db := Put(old(client.db), Key(SessionOf(id)), Text(token))) else x.net
    {
      ok := client.Set(Key(SessionOf(id)), Text(token), ttl);
    }

    method HasSessionToken(id: UserId, token: string) returns (r: Result<bool>)
      modifies client`faults
      ensures
        var x := Send(old(client.State()), GetSession(id));
        client.State() == x.net && r == SameText(x.reply, token)
    {
      var up, v := client.Get(Key(SessionOf(id)));
      if !up || v.None? || !v.value.Text? {
        return Err(StorageFailed);
      }
      return Ok(v.value.text == token);
    }

    method StoreAppSecret(app: string, secret: string) returns (ok: bool)
      modifies client
      ensures
        var x := Send(old(client.State()), PutSecret(app, secret));
        client.State() == x.net && ok == x.reply.Done?
    {
      ok := client.Set(Key(SecretOf(app)), Text(secret), 0);
    }

    method HasAppSecret(app: string, secret: string) returns (r: Result<bool>)
      modifies client`faults
      ensures
        var x := Send(old(client.State()), GetSecret(app));
        client.State() == x.net && r == SameText(x.reply, secret)
    {
      var up, v := client.Get(Key(SecretOf(app)));
      if !up || v.None? || !v.value.Text? {
        return Err(StorageFailed);
      }
      return Ok(v.value.text == secret);
    }

    /** One push, and a trim when the coin says so. */
    method StoreAuthNonce(id: UserId, nonce: Bytes, coin: nat) returns (ok: bool)
      modifies client
      ensures
        var push := Send(old(client.State()), PushNonce(id, nonce));
        var trim := Send(push.net, TrimNonces(id));
        if !push.reply.Done? || coin != 0 then client.State() == push.net && ok == push.reply.Done?
        else client.State() == trim.net && ok == trim.reply.Done?
      ensures ok ==>
        var l := [HexEncode(nonce)] + StoredNonces(old(client.db), client.now, id);
        StoredNonces(client.db, client.now, id) == if coin != 0 || |l| <= 21 then l else l[..21]
    {
      PushAndTrim(client.State(), id, nonce);
      assert [HexEncode(nonce)] + [] == [HexEncode(nonce)];
      ok := client.LPush(Key(NoncesOf(id)), HexEncode(nonce));
      if !ok {
        return false;
      }
      if coin == 0 {
        ok := client.LTrim(Key(NoncesOf(id)), 0, MAX_NONCES);
      }
    }

    method HasAuthNonce(id: UserId, nonce: Bytes) returns (r: Result<bool>)
      modifies client`faults
      ensures
        var x := Send(old(client.State()), ListNonces(id));
        && client.State() == x.net
        && r == if x.reply.EntriesAre? then Ok(Listed(x.reply.entries, nonce)) else Err(StorageFailed)
    {
      var ok, entries := client.LRange(Key(NoncesOf(id)), 0, MAX_NONCES);
      if !ok {
        return Err(StorageFailed);
      }
      for i := 0 to |entries|
        invariant forall j :: 0 <= j < i ==> HexDecode(entries[j]).bytes != nonce
      {
        if HexDecode(entries[i]).bytes == nonce {
          return Ok(true);
        }
      }
      return Ok(false);
    }

    /** `apps` are the names whose secrets are there; what comes out is the part
        of each up to its first colon. The second part always exists. */
    method GetAllAppTokens() returns (r: Result<seq<string>>, ghost apps: seq<string>)
      modifies client`faults
      ensures client.faults == TailFaults(old(client.faults))
      ensures r == if HeadFault(old(client.faults)) then Err(StorageFailed) else Ok(FirstParts(apps))
      ensures r.Ok? ==> AllApps(client.db, client.now, apps)
    {
      apps := [];
      SecretPatternOnlyStars();
      var up, keys := client.Keys(SecretPattern());
      if !up {
        return Err(StorageFailed), apps;
      }
      apps := SecretNames(client.db, client.now, keys);
      var tokens := [];
      for i := 0 to |keys|
        invariant client.faults == TailFaults(old(client.faults))
        invariant tokens == FirstParts(apps[..i])
      {
        SecretPart(keys, apps, i);
        var arr := Split(keys[i]);
        tokens := tokens + [arr[1]];
      }
      assert apps[..|keys|] == apps;
      return Ok(tokens), apps;
    }

    /** `keys` are the keys found; what comes out is the third part of each. For a
        clean app token these are the names `users` that have an envelope. Only a
        key that some other program wrote can be short of a third part. */
    method GetAllUsernamesFromEnvelopes(app: string)
      returns (r: Result<seq<string>>, ghost keys: seq<string>, ghost users: seq<string>)
      modifies client`faults
      ensures client.faults == TailFaults(old(client.faults))
      ensures HeadFault(old(client.faults)) ==> r == Err(StorageFailed)
      ensures r.Err? && !HeadFault(old(client.faults)) ==>
        r.error == Panicked && exists key :: key in keys && key in client.db && |Split(key)| <= 2
      ensures OnlyStars(app) || Written(client.db, false) ==> (r.Err? <==> HeadFault(old(client.faults)))
      ensures r.Ok? ==> NoDuplicates(keys) && ThirdParts(keys, r.value)
      ensures r.Ok? && OnlyStars(app) ==> Found(client.db, client.now, EnvelopePattern(app), keys)
      ensures Plain(app) && GlobFree(app) && r.Ok? ==>
        r.value == FirstParts(users) && AllUsers(client.db, client.now, app, users)
    {
      users := [];
      var up, found := client.Keys(EnvelopePattern(app));
      keys := found;
      if !up {
        return Err(StorageFailed), keys, users;
      }
      if OnlyStars(app) {
        EnvelopePatternOnlyStars(app);
      }
      var usernames := [];
      for i := 0 to |found|
        invariant client.faults == TailFaults(old(client.faults))
        invariant ThirdParts(keys[..i], usernames)
        invariant Plain(app) && GlobFree(app) ==> |users| == i && usernames == FirstParts(users)
        invariant Plain(app) && GlobFree(app) ==>
          forall j :: 0 <= j < i ==> keys[j] == Key(EnvelopeOf(UserId(app, users[j])))
      {
        var arr := Split(found[i]);
        assert found[i] in found;
        if OnlyStars(app) {
          ThirdPartExists(app, found[i]);
        } else if Written(client.db, false) {
          WrittenKeyHasThreeParts(client.db, found[i], false);
        }
        if |arr| <= 2 {
          return Err(Panicked), keys, users;
        }
        ThirdPartsPush(keys, i, usernames);
        usernames := usernames + [arr[2]];
        if Plain(app) && GlobFree(app) {
          ghost var user := EnvelopeKeyNamed(app, found[i]);
          FirstPartsPush(users, user);
          users := users + [user];
        }
      }
      assert keys[..|keys|] == keys;
      if Plain(app) && GlobFree(app) {
        EnvelopeNames(client.db, client.now, app, keys, users);
      }
      return Ok(usernames), keys, users;
    }
  }

  /** Each name is the third part of its key. */
  ghost predicate ThirdParts(keys: seq<string>, names: seq<string>) {
    |names| == |keys| && forall j :: 0 <= j < |keys| ==> |Split(keys[j])| > 2 && names[j] == Split(keys[j])[2]
  }

  lemma ThirdPartsPush(keys: seq<string>, i: nat, names: seq<string>)
    requires i < |keys| && ThirdParts(keys[..i], names) && |Split(keys[i])| > 2
    ensures ThirdParts(keys[..i + 1], names + [Split(keys[i])[2]])
  {
  }

  ghost predicate HasSecret(db: Db, now: nat, app: string) {
    Lookup(db, now, Key(SecretOf(app))).Some?
  }

  /** All app tokens that have a secret, each once. */
  ghost predicate AllApps(db: Db, now: nat, apps: seq<string>) {
    NoDuplicates(apps) && forall app: string :: app in apps <==> HasSecret(db, now, app)
  }

  /** All that have an envelope under the app token, each once. */
  ghost predicate AllUsers(db: Db, now: nat, app: string, users: seq<string>) {
    && NoDuplicates(users)
    && forall user: string :: user in users <==> Lookup(db, now, Key(EnvelopeOf(UserId(app, user)))).Some?
  }

  ghost predicate SecretKeysOf(keys: seq<string>, apps: seq<string>) {
    |apps| == |keys| && forall j :: 0 <= j < |keys| ==> keys[j] == Key(SecretOf(apps[j]))
  }

  lemma {:induction false} SecretKeysNamed(keys: seq<string>) returns (apps: seq<string>)
    requires forall key :: key in keys ==> GlobMatch(SecretPattern(), key)
    ensures SecretKeysOf(keys, apps)
  {
    if keys == [] {
      apps := [];
    } else {
      var rest := SecretKeysNamed(keys[1..]);
      assert keys[0] in keys;
      SecretKeys(keys[0]);
      var app :| keys[0] == Key(SecretOf(app));
      apps := [app] + rest;
    }
  }

  lemma SecretNames(db: Db, now: nat, keys: seq<string>) returns (apps: seq<string>)
    requires NoDuplicates(keys)
    requires Found(db, now, SecretPattern(), keys)
    ensures SecretKeysOf(keys, apps)
    ensures AllApps(db, now, apps)
  {
    apps := SecretKeysNamed(keys);
    forall app: string ensures app in apps <==> HasSecret(db, now, app) {
      var key := Key(SecretOf(app));
      SecretKeys(key);
      if key in keys {
        var j :| 0 <= j < |keys| && keys[j] == key;
        KeysCollideExactly(SecretOf(app), SecretOf(apps[j]));
      }
    }
  }

  lemma SecretPart(keys: seq<string>, apps: seq<string>, i: nat)
    requires SecretKeysOf(keys, apps) && i < |keys|
    ensures |Split(keys[i])| > 1
    ensures FirstParts(apps[..i + 1]) == FirstParts(apps[..i]) + [Split(keys[i])[1]]
  {
    var app := apps[i];
    FirstPartsNext(apps, i);
    SecretSegment(app);
  }

  lemma EnvelopeNames(db: Db, now: nat, app: string, keys: seq<string>, users: seq<string>)
    requires GlobFree(app) && NoDuplicates(keys) && |users| == |keys|
    requires Found(db, now, EnvelopePattern(app), keys)
    requires forall j :: 0 <= j < |keys| ==> keys[j] == Key(EnvelopeOf(UserId(app, users[j])))
    ensures AllUsers(db, now, app, users)
  {
    forall user ensures user in users <==> Lookup(db, now, Key(EnvelopeOf(UserId(app, user)))).Some? {
      var key := Key(EnvelopeOf(UserId(app, user)));
      EnvelopeKeys(app, key);
      if key in keys {
        var j :| 0 <= j < |keys| && keys[j] == key;
        KeysCollideExactly(EnvelopeOf(UserId(app, user)), EnvelopeOf(UserId(app, users[j])));
        AffixInjective(app + ":", user, users[j], "");
      }
    }
  }
}
