/** What the index page shows: exactly which envelopes, how often, and when the
    page comes up at all. */
module IndexPage {
  import opened Encoding
  import opened Storage
  import opened Redis
  import opened Handlers
  import opened Enumeration
  import opened Wrapper

  /** What is shown of one envelope. */
  datatype Row = Row(id: UserId, envelope: UserEnvelope)

  ghost predicate Stored(db: Db, now: nat, row: Row) {
    Lookup(db, now, Key(EnvelopeOf(row.id))) == Some(Envelope(row.envelope))
  }

  ghost predicate AllStored(db: Db, now: nat, rows: seq<Row>) {
    forall row: Row :: row in rows ==> Stored(db, now, row)
  }

  ghost predicate HasEnvelope(db: Db, now: nat, id: UserId) {
    Lookup(db, now, Key(EnvelopeOf(id))).Some?
  }

  ghost predicate CanLoad(db: Db, now: nat, id: UserId) {
    exists row: Row :: row.id == id && Stored(db, now, row)
  }

  /** The page looks under what stands before the first colon of an app token. */
  ghost predicate Looked(db: Db, now: nat, token: string) {
    exists app :: HasSecret(db, now, app) && UpToColon(app) == token
  }

  /** None of these has a pattern character in it. */
  ghost predicate PatternFree(db: Db, now: nat) {
    forall app: string :: HasSecret(db, now, app) ==> GlobFree(UpToColon(app))
  }

  /** Exactly the stored envelopes of these tokens whose usernames have no ':'. */
  ghost predicate Listing(db: Db, now: nat, rows: seq<Row>, tokens: seq<string>) {
    forall row: Row :: row in rows <==> row.id.app in tokens && Plain(row.id.user) && Stored(db, now, row)
  }

  ghost predicate LoadsAll(db: Db, now: nat, tokens: seq<string>) {
    forall token, user: string :: token in tokens && HasEnvelope(db, now, UserId(token, user)) ==>
      CanLoad(db, now, UserId(token, UpToColon(user)))
  }

  /** Cut off at its colon every username still names an envelope. */
  ghost predicate PageComplete(db: Db, now: nat) {
    forall app, user: string :: HasSecret(db, now, app) && HasEnvelope(db, now, UserId(UpToColon(app), user)) ==>
      CanLoad(db, now, UserId(UpToColon(app), UpToColon(user)))
  }

  /** Just the stored envelopes under a token looked at, without a colon in the username. */
  ghost predicate ShowsPlain(db: Db, now: nat, rows: seq<Row>) {
    forall row: Row :: row in rows <==> Looked(db, now, row.id.app) && Plain(row.id.user) && Stored(db, now, row)
  }

  /** Just the stored envelopes whose app token has a secret. */
  ghost predicate ShowsAll(db: Db, now: nat, rows: seq<Row>) {
    forall row: Row :: row in rows <==> HasSecret(db, now, row.id.app) && Stored(db, now, row)
  }

  /** No app token with a secret has a ':' or a pattern character in it, no
      username under one has a ':', and what is stored for it is an envelope. */
  ghost predicate CleanNames(db: Db, now: nat) {
    forall app: string :: HasSecret(db, now, app) ==> Plain(app) && GlobFree(app) && CleanUsernames(db, now, app)
  }

  ghost predicate CleanUsernames(db: Db, now: nat, app: string) {
    forall user: string :: HasEnvelope(db, now, UserId(app, user)) ==>
      Plain(user) && CanLoad(db, now, UserId(app, user))
  }

  // ------------------------------------------------------------- the two enumerations

  /** What the enumerations gave: the names are cut off at their first colons. */
  ghost predicate Enumerated(db: Db, now: nat, apps: seq<string>, tokens: seq<string>, t: nat, users: seq<string>,
                             names: seq<string>)
  {
    && AllApps(db, now, apps) && tokens == FirstParts(apps) && t < |tokens|
    && (PatternFree(db, now) ==> names == FirstParts(users) && AllUsers(db, now, tokens[t], users))
  }

  lemma TokenIsPlain(db: Db, now: nat, apps: seq<string>, tokens: seq<string>, t: nat)
    requires AllApps(db, now, apps) && tokens == FirstParts(apps) && t < |tokens|
    ensures Plain(tokens[t]) && (PatternFree(db, now) ==> GlobFree(tokens[t]) && OnlyStars(tokens[t]))
  {
    UpToColonStops(apps[t]);
    assert apps[t] in apps;
  }

  lemma TokensAreLooked(db: Db, now: nat, apps: seq<string>, tokens: seq<string>, token: string)
    requires AllApps(db, now, apps) && tokens == FirstParts(apps)
    ensures token in tokens <==> Looked(db, now, token)
  {
    if token in tokens {
      var t :| 0 <= t < |tokens| && tokens[t] == token;
      assert apps[t] in apps;
    }
    if Looked(db, now, token) {
      var app :| HasSecret(db, now, app) && UpToColon(app) == token;
      var t :| 0 <= t < |apps| && apps[t] == app;
      assert tokens[t] == token;
    }
  }

  /** Among the names are just the usernames without a colon, for what is stored. */
  lemma NamesAreUsers(db: Db, now: nat, token: string, users: seq<string>, row: Row)
    requires AllUsers(db, now, token, users) && row.id.app == token && Stored(db, now, row)
    ensures row.id.user in FirstParts(users) <==> Plain(row.id.user)
  {
    var names := FirstParts(users);
    assert row.id == UserId(token, row.id.user);
    if row.id.user in names {
      var u :| 0 <= u < |names| && names[u] == row.id.user;
      UpToColonStops(users[u]);
    }
    if Plain(row.id.user) {
      var u :| 0 <= u < |users| && users[u] == row.id.user;
      UpToColonStops(users[u]);
      assert names[u] == row.id.user;
    }
  }

  // ------------------------------------------------------ the invariants of the loops

  ghost predicate Outer(db: Db, now: nat, rows: seq<Row>, tokens: seq<string>) {
    && AllStored(db, now, rows)
    && (PatternFree(db, now) ==> Listing(db, now, rows, tokens) && LoadsAll(db, now, tokens))
    && (CleanNames(db, now) ==> NoDuplicates(rows))
  }

  ghost predicate Extended(db: Db, now: nat, before: seq<Row>, rows: seq<Row>, token: string, names: seq<string>) {
    && (forall row: Row :: row in rows <==>
         row in before || (row.id.app == token && row.id.user in names && Stored(db, now, row)))
    && (forall name :: name in names ==> CanLoad(db, now, UserId(token, name)))
  }

  ghost predicate Inner(db: Db, now: nat, before: seq<Row>, rows: seq<Row>, token: string, names: seq<string>) {
    && AllStored(db, now, rows)
    && (PatternFree(db, now) ==> Extended(db, now, before, rows, token, names))
    && (CleanNames(db, now) ==> NoDuplicates(rows))
  }

  lemma CleanIsPatternFree(db: Db, now: nat)
    requires CleanNames(db, now)
    ensures PatternFree(db, now) && PageComplete(db, now)
  {
    forall app: string | HasSecret(db, now, app)
      ensures UpToColon(app) == app && GlobFree(app)
    {
      UpToColonStops(app);
    }
    forall app, user: string | HasSecret(db, now, app) && HasEnvelope(db, now, UserId(UpToColon(app), user))
      ensures CanLoad(db, now, UserId(UpToColon(app), UpToColon(user)))
    {
      UpToColonStops(app);
      UpToColonStops(user);
    }
  }

  /** With clean names nothing is cut off, and so nothing comes twice. */
  lemma CleanNamesDiffer(db: Db, now: nat, apps: seq<string>, tokens: seq<string>, t: nat, users: seq<string>,
                         names: seq<string>)
    requires Enumerated(db, now, apps, tokens, t, users, names) && CleanNames(db, now)
    ensures NoDuplicates(tokens) && NoDuplicates(names)
  {
    CleanIsPatternFree(db, now);
    forall i | 0 <= i < |apps| ensures tokens[i] == apps[i] {
      assert HasSecret(db, now, apps[i]);
      UpToColonStops(apps[i]);
    }
    forall j | 0 <= j < |users| ensures names[j] == users[j] {
      assert apps[t] in apps && users[j] in users;
      UpToColonStops(users[j]);
    }
  }

  lemma InnerStarts(db: Db, now: nat, rows: seq<Row>, tokens: seq<string>, t: nat, names: seq<string>)
    requires t < |tokens| && Outer(db, now, rows, tokens[..t])
    ensures Inner(db, now, rows, rows, tokens[t], names[..0])
  {
  }

  lemma ExtendByRow(db: Db, now: nat, before: seq<Row>, rows: seq<Row>, names: seq<string>, u: nat, row: Row)
    requires u < |names| && row.id.user == names[u] && Stored(db, now, row)
    requires Extended(db, now, before, rows, row.id.app, names[..u])
    ensures Extended(db, now, before, rows + [row], row.id.app, names[..u + 1])
  {
    assert names[..u + 1] == names[..u] + [names[u]];
    forall r: Row
      ensures r in rows + [row] <==>
        r in before || (r.id.app == row.id.app && r.id.user in names[..u + 1] && Stored(db, now, r))
    {
      if r.id == row.id && Stored(db, now, r) {
        assert r == row;
      }
    }
    assert row.id == UserId(row.id.app, names[u]);
  }

  lemma NewRow(db: Db, now: nat, before: seq<Row>, rows: seq<Row>, tokens: seq<string>, t: nat, names: seq<string>,
               u: nat, row: Row)
    requires t < |tokens| && u < |names| && NoDuplicates(tokens) && NoDuplicates(names)
    requires Listing(db, now, before, tokens[..t]) && Extended(db, now, before, rows, tokens[t], names[..u])
    requires row.id == UserId(tokens[t], names[u])
    ensures row !in rows
  {
    assert tokens[t] !in tokens[..t] && names[u] !in names[..u];
  }

  lemma InnerPush(db: Db, now: nat, before: seq<Row>, rows: seq<Row>, apps: seq<string>, tokens: seq<string>, t: nat,
                  users: seq<string>, names: seq<string>, u: nat, row: Row)
    requires Enumerated(db, now, apps, tokens, t, users, names) && Outer(db, now, before, tokens[..t])
    requires u < |names| && Inner(db, now, before, rows, tokens[t], names[..u])
    requires row.id == UserId(tokens[t], names[u]) && Stored(db, now, row)
    ensures Inner(db, now, before, rows + [row], tokens[t], names[..u + 1])
  {
    if PatternFree(db, now) {
      ExtendByRow(db, now, before, rows, names, u, row);
    }
    if CleanNames(db, now) {
      CleanIsPatternFree(db, now);
      CleanNamesDiffer(db, now, apps, tokens, t, users, names);
      NewRow(db, now, before, rows, tokens, t, names, u, row);
    }
  }

  lemma ListingExtended(db: Db, now: nat, before: seq<Row>, rows: seq<Row>, tokens: seq<string>, t: nat,
                        users: seq<string>, names: seq<string>)
    requires t < |tokens| && Listing(db, now, before, tokens[..t]) && LoadsAll(db, now, tokens[..t])
    requires Extended(db, now, before, rows, tokens[t], names)
    requires names == FirstParts(users) && AllUsers(db, now, tokens[t], users)
    ensures Listing(db, now, rows, tokens[..t + 1]) && LoadsAll(db, now, tokens[..t + 1])
  {
    assert tokens[..t + 1] == tokens[..t] + [tokens[t]];
    forall row: Row
      ensures row in rows <==> row.id.app in tokens[..t + 1] && Plain(row.id.user) && Stored(db, now, row)
    {
      if row.id.app == tokens[t] && Stored(db, now, row) {
        NamesAreUsers(db, now, tokens[t], users, row);
      }
    }
    forall user: string | HasEnvelope(db, now, UserId(tokens[t], user))
      ensures CanLoad(db, now, UserId(tokens[t], UpToColon(user)))
    {
      var u :| 0 <= u < |users| && users[u] == user;
      assert names[u] in names;
    }
  }

  lemma InnerEnds(db: Db, now: nat, before: seq<Row>, rows: seq<Row>, apps: seq<string>, tokens: seq<string>, t: nat,
                  users: seq<string>, names: seq<string>)
    requires Enumerated(db, now, apps, tokens, t, users, names) && Outer(db, now, before, tokens[..t])
    requires Inner(db, now, before, rows, tokens[t], names[..|names|])
    ensures Outer(db, now, rows, tokens[..t + 1])
  {
    assert names[..|names|] == names;
    if PatternFree(db, now) {
      ListingExtended(db, now, before, rows, tokens, t, users, names);
    }
  }

  // ---------------------------------------------------------------- the two outcomes

  /** The page came up: it has exactly the envelopes without a colon in their
      usernames, and all cut-off names have one. */
  lemma PageShown(db: Db, now: nat, rows: seq<Row>, apps: seq<string>, tokens: seq<string>)
    requires AllApps(db, now, apps) && tokens == FirstParts(apps) && Outer(db, now, rows, tokens)
    ensures PatternFree(db, now) ==> PageComplete(db, now)
    ensures PatternFree(db, now) ==> ShowsPlain(db, now, rows)
    ensures CleanNames(db, now) ==> ShowsAll(db, now, rows) && NoDuplicates(rows)
  {
    if CleanNames(db, now) {
      CleanIsPatternFree(db, now);
    }
    if PatternFree(db, now) {
      forall app, user: string | HasSecret(db, now, app) && HasEnvelope(db, now, UserId(UpToColon(app), user))
        ensures CanLoad(db, now, UserId(UpToColon(app), UpToColon(user)))
      {
        TokensAreLooked(db, now, apps, tokens, UpToColon(app));
      }
      forall row: Row
        ensures row in rows <==> Looked(db, now, row.id.app) && Plain(row.id.user) && Stored(db, now, row)
      {
        TokensAreLooked(db, now, apps, tokens, row.id.app);
      }
    }
    if CleanNames(db, now) {
      CleanPageIsWhole(db, now, rows);
    }
  }

  /** Loading fails without a fault only for a cut-off name that has none. */
  lemma LoadTells(w: Net, apps: seq<string>, tokens: seq<string>, t: nat, users: seq<string>, names: seq<string>,
                  u: nat)
    requires Enumerated(w.db, w.now, apps, tokens, t, users, names) && u < |names|
    ensures
      var id := UserId(tokens[t], names[u]);
      var x := Send(w, GetEnvelope(id));
      && x.net == w.(faults := TailFaults(w.faults))
      && (x.reply.EnvelopeIs? ==> Stored(w.db, w.now, Row(id, x.reply.envelope)))
      && (PatternFree(w.db, w.now) && PageComplete(w.db, w.now) && w.faults == [] ==> x.reply.EnvelopeIs?)
  {
    var id := UserId(tokens[t], names[u]);
    if PatternFree(w.db, w.now) && PageComplete(w.db, w.now) {
      assert apps[t] in apps && users[u] in users;
      assert HasEnvelope(w.db, w.now, UserId(UpToColon(apps[t]), users[u]));
      assert CanLoad(w.db, w.now, id);
    }
  }

  lemma CleanPage(db: Db, now: nat, row: Row)
    requires CleanNames(db, now) && Stored(db, now, row)
    ensures Looked(db, now, row.id.app) && Plain(row.id.user) <==> HasSecret(db, now, row.id.app)
  {
    if Looked(db, now, row.id.app) {
      var app :| HasSecret(db, now, app) && UpToColon(app) == row.id.app;
      UpToColonStops(app);
    }
    if HasSecret(db, now, row.id.app) {
      UpToColonStops(row.id.app);
      assert row.id == UserId(row.id.app, row.id.user);
    }
  }

  /** With clean names that is everything whose app token has a secret. */
  lemma CleanPageIsWhole(db: Db, now: nat, rows: seq<Row>)
    requires CleanNames(db, now) && ShowsPlain(db, now, rows)
    ensures ShowsAll(db, now, rows)
  {
    forall row: Row | Stored(db, now, row)
      ensures row in rows <==> HasSecret(db, now, row.id.app)
    {
      CleanPage(db, now, row);
    }
  }

  // --------------------------------------------------------- what the program writes

  lemma WrittenCleanNames(db: Db, now: nat)
    requires Written(db, true)
    ensures CleanNames(db, now)
  {
    forall app: string | HasSecret(db, now, app)
      ensures Plain(app) && GlobFree(app) && CleanUsernames(db, now, app)
    {
      var key := Key(SecretOf(app));
      assert WrittenEntry(key, db[key], true);
      var slot: Slot :| CleanSlot(slot) && key == Key(slot);
      KeysCollideExactly(SecretOf(app), slot);
      WrittenCleanUsernames(db, now, app);
    }
  }

  lemma WrittenCleanUsernames(db: Db, now: nat, app: string)
    requires Written(db, true) && Plain(app)
    ensures CleanUsernames(db, now, app)
  {
    forall user: string | HasEnvelope(db, now, UserId(app, user))
      ensures Plain(user) && CanLoad(db, now, UserId(app, user))
    {
      var key := Key(EnvelopeOf(UserId(app, user)));
      assert WrittenEntry(key, db[key], true);
      var slot: Slot :| CleanSlot(slot) && key == Key(slot);
      KeyInjective(EnvelopeOf(UserId(app, user)), slot);
      WrittenCanLoad(db, now, UserId(app, user), true);
    }
  }

  /** In a database that the program wrote, what has an envelope can be loaded. */
  lemma WrittenCanLoad(db: Db, now: nat, id: UserId, clean: bool)
    requires Written(db, clean) && HasEnvelope(db, now, id)
    ensures CanLoad(db, now, id)
  {
    WrittenEnvelope(db, id, clean);
    assert Stored(db, now, Row(id, db[Key(EnvelopeOf(id))].value.envelope));
  }
}
