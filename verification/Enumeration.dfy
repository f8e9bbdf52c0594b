/** Getting names back from the keys that were built from them. */
module Enumeration {
  import opened Storage
  import opened Redis

  // --------------------------------------------------------------------- splitting

  /** The parts between the colons; there is always at least one. */
  function Split(s: string): (parts: seq<string>)
    ensures |parts| >= 1
    decreases |s|
  {
    var head := UpToColon(s);
    if |head| == |s| then [s] else [head] + Split(s[|head| + 1..])
  }

  lemma {:induction false} UpToColonStops(s: string)
    ensures Plain(UpToColon(s))
    ensures |UpToColon(s)| < |s| ==> s[|UpToColon(s)|] == ':'
    ensures Plain(s) ==> UpToColon(s) == s
  {
    if s != "" && s[0] != ':' {
      UpToColonStops(s[1..]);
    }
  }

  lemma SplitHead(name: string, rest: string)
    requires Plain(name)
    ensures Split(name + ":" + rest) == [name] + Split(rest)
  {
    UpToColonOf(name, rest);
    assert (name + ":" + rest)[|name| + 1..] == rest;
  }

  lemma {:induction false} UpToColonIgnoresTail(s: string, rest: string)
    ensures UpToColon(s + ":" + rest) == UpToColon(s)
  {
    var t := s + ":" + rest;
    if s != "" && s[0] != ':' {
      UpToColonIgnoresTail(s[1..], rest);
      assert t[1..] == s[1..] + ":" + rest;
    }
  }

  lemma SplitFirst(s: string, rest: string)
    ensures Split(s + ":" + rest)[0] == UpToColon(s)
  {
    UpToColonIgnoresTail(s, rest);
  }

  // ------------------------------------------------------------------ glob matching

  /** KEYS patterns with '*' and '?'. */
  predicate GlobMatch(p: string, s: string)
    decreases |p| + |s|
  {
    if p == "" then s == ""
    else if p[0] == '*' then GlobMatch(p[1..], s) || (s != "" && GlobMatch(p, s[1..]))
    else s != "" && (p[0] == '?' || p[0] == s[0]) && GlobMatch(p[1..], s[1..])
  }

  /** Nothing in the name means anything to a pattern. */
  predicate GlobFree(s: string) {
    '*' !in s && '?' !in s && '[' !in s && ']' !in s && '\\' !in s
  }

  /** No character class and no escape. */
  predicate OnlyStars(p: string) {
    '[' !in p && ']' !in p && '\\' !in p
  }

  lemma {:induction false} GlobLiteral(p: string, s: string)
    requires GlobFree(p)
    ensures GlobMatch(p, s) <==> s == p
    decreases |p|
  {
    if p != "" && s != "" {
      GlobLiteral(p[1..], s[1..]);
      assert p == [p[0]] + p[1..] && s == [s[0]] + s[1..];
    }
  }

  /** A question mark stands for just one character. */
  lemma {:induction false} QuestionMarks(n: nat, s: string)
    ensures GlobMatch(seq(n, _ => '?'), s) <==> |s| == n
    decreases n
  {
    var p := seq(n, _ => '?');
    if n > 0 && s != "" {
      QuestionMarks(n - 1, s[1..]);
      assert p[1..] == seq(n - 1, _ => '?');
    }
  }

  predicate EndsWith(s: string, suf: string) {
    |s| >= |suf| && s[|s| - |suf|..] == suf
  }

  lemma {:induction false} GlobStar(suf: string, s: string)
    requires GlobFree(suf)
    ensures GlobMatch("*" + suf, s) <==> EndsWith(s, suf)
    decreases |s|
  {
    assert ("*" + suf)[1..] == suf;
    GlobLiteral(suf, s);
    if s != "" {
      GlobStar(suf, s[1..]);
    }
  }

  /** A pattern with one star matches exactly what the star can be filled in to. */
  lemma {:induction false} GlobAffix(pre: string, suf: string, s: string)
    requires GlobFree(pre) && GlobFree(suf)
    ensures GlobMatch(pre + "*" + suf, s) <==> pre <= s && EndsWith(s[|pre|..], suf)
    decreases |pre|
  {
    var p := pre + "*" + suf;
    if pre == "" {
      assert p == "*" + suf && s[0..] == s;
      GlobStar(suf, s);
    } else if s != "" {
      GlobAffix(pre[1..], suf, s[1..]);
      assert p[1..] == pre[1..] + "*" + suf;
      assert pre == [pre[0]] + pre[1..] && s == [s[0]] + s[1..];
      assert pre <= s ==> s[1..][|pre| - 1..] == s[|pre|..];
      assert pre <= s <==> pre[0] == s[0] && pre[1..] <= s[1..];
    }
  }

  lemma AffixFilled(pre: string, suf: string, s: string) returns (m: string)
    requires pre <= s && EndsWith(s[|pre|..], suf)
    ensures s == pre + m + suf
  {
    var t := s[|pre|..];
    m := t[..|t| - |suf|];
    assert s == pre + t && t == m + suf;
  }

  function Colons(s: string): nat {
    if s == "" then 0 else (if s[0] == ':' then 1 else 0) + Colons(s[1..])
  }

  lemma {:induction false} GlobKeepsColons(p: string, s: string)
    requires GlobMatch(p, s)
    ensures Colons(s) >= Colons(p)
    decreases |p| + |s|
  {
    if p != "" {
      if p[0] == '*' {
        if GlobMatch(p[1..], s) {
          GlobKeepsColons(p[1..], s);
        } else {
          GlobKeepsColons(p, s[1..]);
        }
      } else {
        GlobKeepsColons(p[1..], s[1..]);
      }
    }
  }

  lemma {:induction false} ColonsAppend(a: string, b: string)
    ensures Colons(a + b) == Colons(a) + Colons(b)
  {
    if a == "" {
      assert a + b == b;
    } else {
      ColonsAppend(a[1..], b);
      assert (a + b)[1..] == a[1..] + b;
    }
  }

  lemma {:induction false} PlainHasNoColons(s: string)
    requires Plain(s)
    ensures Colons(s) == 0
  {
    if s != "" {
      PlainHasNoColons(s[1..]);
    }
  }

  lemma {:induction false} SplitLength(s: string)
    ensures |Split(s)| == Colons(s) + 1
    decreases |s|
  {
    var head := UpToColon(s);
    UpToColonStops(s);
    if |head| == |s| {
      PlainHasNoColons(s);
    } else {
      var rest := s[|head| + 1..];
      SplitLength(rest);
      assert s == head + (":" + rest);
      ColonsAppend(head, ":" + rest);
      PlainHasNoColons(head);
      assert (":" + rest)[1..] == rest;
    }
  }

  // ------------------------------------------------------------------ enumerated names

  function SecretPattern(): string {
    Key(SecretOf("*"))
  }

  function EnvelopePattern(app: string): string {
    Key(EnvelopeOf(UserId(app, "*")))
  }

  lemma JoinedColons(a: string, b: string)
    ensures Colons(a + ":" + b) == Colons(a) + 1 + Colons(b)
  {
    ColonsAppend(a + ":", b);
    ColonsAppend(a, ":");
    assert Colons(":") == 1 + Colons("");
  }

  lemma ShapedColons(pre: string, middle: string, suf: string)
    ensures Colons((pre + ":") + middle + (":" + suf)) == Colons(pre) + 1 + Colons(middle) + 1 + Colons(suf)
  {
    Regroup(pre, middle, suf);
    JoinedColons(pre, middle + ":" + suf);
    JoinedColons(middle, suf);
  }

  lemma EnvelopePatternColons(app: string)
    ensures Colons(EnvelopePattern(app)) >= 3
  {
    var pre, suf := "reg", "envelope";
    assert pre + ":" == "reg:" && ":" + suf == ":envelope";
    ShapedColons(pre, app + ":" + "*", suf);
    JoinedColons(app, "*");
  }

  lemma SecretPatternOnlyStars()
    ensures OnlyStars(SecretPattern())
  {
  }

  lemma EnvelopePatternOnlyStars(app: string)
    requires OnlyStars(app)
    ensures OnlyStars(EnvelopePattern(app))
  {
    EnvelopeKeyShape(app, "*");
  }

  /** A found key has its third part, whatever the app token, unless that one
      has brackets or backslashes in it. */
  lemma ThirdPartExists(app: string, key: string)
    requires GlobMatch(EnvelopePattern(app), key)
    ensures |Split(key)| > 2
  {
    EnvelopePatternColons(app);
    GlobKeepsColons(EnvelopePattern(app), key);
    SplitLength(key);
  }

  lemma SecondPart(pre: string, name: string, suf: string)
    requires Plain(pre)
    ensures |Split((pre + ":") + name + (":" + suf))| > 1
    ensures Split((pre + ":") + name + (":" + suf))[1] == UpToColon(name)
  {
    Regroup(pre, name, suf);
    SplitHead(pre, name + ":" + suf);
    SplitFirst(name, suf);
  }

  lemma Regroup(pre: string, name: string, suf: string)
    ensures (pre + ":") + name + (":" + suf) == pre + ":" + (name + ":" + suf)
  {
  }

  lemma ThirdPart(pre: string, app: string, name: string, suf: string)
    requires Plain(pre) && Plain(app)
    ensures |Split((pre + ":") + (app + ":" + name) + (":" + suf))| > 2
    ensures Split((pre + ":") + (app + ":" + name) + (":" + suf))[2] == UpToColon(name)
  {
    var rest := (app + ":") + name + (":" + suf);
    SplitHead(pre, rest);
    SecondPart(app, name, suf);
    assert (pre + ":") + (app + ":" + name) + (":" + suf) == pre + ":" + rest;
  }

  lemma SecretSegment(app: string)
    ensures |Split(Key(SecretOf(app)))| > 1 && Split(Key(SecretOf(app)))[1] == UpToColon(app)
  {
    var pre, suf := "app_secrets", "secret";
    assert pre + ":" == "app_secrets:" && ":" + suf == ":secret";
    SecondPart(pre, app, suf);
  }

  lemma EnvelopeSegment(app: string, user: string)
    requires Plain(app)
    ensures |Split(Key(EnvelopeOf(UserId(app, user))))| > 2
    ensures Split(Key(EnvelopeOf(UserId(app, user))))[2] == UpToColon(user)
  {
    var pre, suf := "reg", "envelope";
    assert pre + ":" == "reg:" && ":" + suf == ":envelope";
    ThirdPart(pre, app, user, suf);
  }

  /** The keys a pattern finds are those built from some name in its place. */
  lemma SecretKeys(key: string)
    ensures GlobMatch(SecretPattern(), key) <==> exists app :: key == Key(SecretOf(app))
  {
    var pre, suf := "app_secrets:", ":secret";
    assert SecretPattern() == pre + "*" + suf;
    GlobAffix(pre, suf, key);
    if GlobMatch(SecretPattern(), key) {
      var app := AffixFilled(pre, suf, key);
      assert key == Key(SecretOf(app));
    }
    forall app | key == Key(SecretOf(app)) ensures GlobMatch(SecretPattern(), key) {
      assert key[|pre|..] == app + suf;
    }
  }

  lemma EnvelopeKeys(app: string, key: string)
    requires GlobFree(app)
    ensures GlobMatch(EnvelopePattern(app), key) <==> exists user :: key == Key(EnvelopeOf(UserId(app, user)))
  {
    var pre, suf := "reg:" + (app + ":"), ":envelope";
    EnvelopeKeyShape(app, "*");
    GlobAffix(pre, suf, key);
    if GlobMatch(EnvelopePattern(app), key) {
      var user := AffixFilled(pre, suf, key);
      EnvelopeKeyShape(app, user);
    }
    forall user | key == Key(EnvelopeOf(UserId(app, user))) ensures GlobMatch(EnvelopePattern(app), key) {
      EnvelopeKeyShape(app, user);
      AffixMatches(pre, user, suf);
    }
  }

  lemma EnvelopeKeyNamed(app: string, key: string) returns (user: string)
    requires Plain(app) && GlobFree(app) && GlobMatch(EnvelopePattern(app), key)
    ensures key == Key(EnvelopeOf(UserId(app, user)))
    ensures |Split(key)| > 2 && Split(key)[2] == UpToColon(user)
  {
    EnvelopeKeys(app, key);
    user :| key == Key(EnvelopeOf(UserId(app, user)));
    EnvelopeSegment(app, user);
  }

  lemma EnvelopeKeyShape(app: string, user: string)
    ensures Key(EnvelopeOf(UserId(app, user))) == "reg:" + (app + ":") + user + ":envelope"
  {
    var pre, suf := "reg:", ":envelope";
    assert pre + (app + ":" + user) + suf == pre + (app + ":") + user + suf;
  }

  lemma AffixMatches(pre: string, m: string, suf: string)
    ensures pre <= pre + m + suf && EndsWith((pre + m + suf)[|pre|..], suf)
  {
    assert (pre + m + suf)[|pre|..] == m + suf;
  }

  ghost predicate NoDuplicates<T>(s: seq<T>) {
    forall i, j :: 0 <= i < j < |s| ==> s[i] != s[j]
  }

  function FirstParts(names: seq<string>): (r: seq<string>)
    ensures |r| == |names|
  {
    seq(|names|, i requires 0 <= i < |names| => UpToColon(names[i]))
  }

  lemma FirstPartsPush(names: seq<string>, name: string)
    ensures FirstParts(names + [name]) == FirstParts(names) + [UpToColon(name)]
  {
  }

  lemma FirstPartsNext(names: seq<string>, i: nat)
    requires i < |names|
    ensures FirstParts(names[..i + 1]) == FirstParts(names[..i]) + [UpToColon(names[i])]
  {
    assert names[..i + 1] == names[..i] + [names[i]];
  }

  /** Exactly when reading the names back off the keys is right: the names that
      come out are all different and are all there if and only if none of the
      names that went in has a ':' in it. */
  lemma ListingExact(names: seq<string>)
    requires NoDuplicates(names)
    ensures NoDuplicates(FirstParts(names)) && (forall n :: n in FirstParts(names) ==> n in names)
       <==> forall n :: n in names ==> Plain(n)
  {
    var parts := FirstParts(names);
    if forall n :: n in names ==> Plain(n) {
      forall i | 0 <= i < |names| ensures parts[i] == names[i] {
        UpToColonStops(names[i]);
      }
      assert parts == names;
    } else {
      var i :| 0 <= i < |names| && !Plain(names[i]);
      UpToColonStops(names[i]);
      if parts[i] in names {
        var j :| 0 <= j < |names| && names[j] == parts[i];
        UpToColonStops(names[j]);
        assert parts[j] == parts[i];
      } else {
        assert parts[i] in parts;
      }
    }
  }

  lemma SplitPlain(name: string)
    requires Plain(name)
    ensures Split(name) == [name]
  {
    UpToColonStops(name);
  }

  lemma ThreeParts(pre: string, name: string, suf: string)
    requires Plain(pre) && Plain(name) && Plain(suf)
    ensures Split((pre + ":") + name + (":" + suf)) == [pre, name, suf]
  {
    Regroup(pre, name, suf);
    SplitHead(pre, name + ":" + suf);
    SplitHead(name, suf);
    SplitPlain(suf);
  }

  lemma RegroupTail(app: string, user: string, suf: string)
    ensures app + ":" + user + ":" + suf == (app + ":") + user + (":" + suf)
  {
  }

  lemma FourParts(pre: string, app: string, user: string, suf: string)
    requires Plain(pre) && Plain(app) && Plain(user) && Plain(suf)
    ensures Split((pre + ":") + (app + ":" + user) + (":" + suf)) == [pre, app, user, suf]
  {
    Regroup(pre, app + ":" + user, suf);
    RegroupTail(app, user, suf);
    SplitHead(pre, (app + ":") + user + (":" + suf));
    ThreeParts(app, user, suf);
  }

  /** What the keys of plain names are made of. */
  lemma UserKeyParts(id: UserId)
    requires Plain(id.app) && Plain(id.user)
    ensures Split(Key(RequestOf(id))) == ["reg", id.app, id.user, "request"]
    ensures Split(Key(EnvelopeOf(id))) == ["reg", id.app, id.user, "envelope"]
    ensures Split(Key(NoncesOf(id))) == ["auth", id.app, id.user, "requests"]
    ensures Split(Key(SessionOf(id))) == ["tokens", id.app, id.user, "token"]
  {
    assert "reg" + ":" == "reg:" && "auth" + ":" == "auth:" && "tokens" + ":" == "tokens:";
    assert ":" + "request" == ":request" && ":" + "envelope" == ":envelope";
    assert ":" + "requests" == ":requests" && ":" + "token" == ":token";
    FourParts("reg", id.app, id.user, "request");
    FourParts("reg", id.app, id.user, "envelope");
    FourParts("auth", id.app, id.user, "requests");
    FourParts("tokens", id.app, id.user, "token");
  }

  lemma SecretKeyParts(app: string)
    requires Plain(app)
    ensures Split(Key(SecretOf(app))) == ["app_secrets", app, "secret"]
  {
    assert "app_secrets" + ":" == "app_secrets:" && ":" + "secret" == ":secret";
    ThreeParts("app_secrets", app, "secret");
  }

  // ------------------------------------------------------ what the program writes

  /** Names without anything that means something to a key or a pattern. */
  predicate CleanSlot(slot: Slot) {
    Plain(AppOf(slot)) && GlobFree(AppOf(slot)) && (!slot.SecretOf? ==> Plain(slot.id.user))
  }

  /** The key was built by a key builder, from clean names if so said, and an
      envelope's key has an envelope. */
  ghost predicate WrittenEntry(key: string, entry: Entry, clean: bool) {
    exists slot: Slot ::
      (clean ==> CleanSlot(slot)) && key == Key(slot) && (slot.EnvelopeOf? ==> entry.value.Envelope?)
  }

  /** A database in which only this program has written. */
  ghost predicate Written(db: Db, clean: bool) {
    forall key: string :: key in db ==> WrittenEntry(key, db[key], clean)
  }

  lemma CallKeepsWritten(db: Db, now: nat, call: Call, clean: bool)
    requires Written(db, clean) && (clean ==> CleanSlot(SlotOf(call)))
    ensures Written(RedisDo(db, now, call).0, clean)
  {
    var db' := RedisDo(db, now, call).0;
    var slot := SlotOf(call);
    forall key: string | key in db'
      ensures WrittenEntry(key, db'[key], clean)
    {
      if key != Key(slot) {
        OnlyOwnKey(db, now, call, key);
        assert WrittenEntry(key, db[key], clean);
      } else if call.GetEnvelope? {
        assert WrittenEntry(key, db[key], clean);
      }
    }
  }

  lemma MoreColons(pre: string, middle: string, suf: string)
    ensures |Split((pre + ":") + middle + (":" + suf))| > 2
  {
    ShapedColons(pre, middle, suf);
    SplitLength((pre + ":") + middle + (":" + suf));
  }

  /** Every key that is ever built has three parts, whatever the names contain. */
  lemma KeyHasThreeParts(slot: Slot)
    ensures |Split(Key(slot))| > 2
  {
    match slot {
      case RequestOf(id) =>
        assert "reg" + ":" == "reg:" && ":" + "request" == ":request";
        MoreColons("reg", Joined(id), "request");
      case EnvelopeOf(id) =>
        assert "reg" + ":" == "reg:" && ":" + "envelope" == ":envelope";
        MoreColons("reg", Joined(id), "envelope");
      case NoncesOf(id) =>
        assert "auth" + ":" == "auth:" && ":" + "requests" == ":requests";
        MoreColons("auth", Joined(id), "requests");
      case SessionOf(id) =>
        assert "tokens" + ":" == "tokens:" && ":" + "token" == ":token";
        MoreColons("tokens", Joined(id), "token");
      case SecretOf(app) =>
        assert "app_secrets" + ":" == "app_secrets:" && ":" + "secret" == ":secret";
        MoreColons("app_secrets", app, "secret");
    }
  }

  /** So a key of a database that the program wrote always has its third part,
      whatever pattern it was found with. */
  lemma WrittenKeyHasThreeParts(db: Db, key: string, clean: bool)
    requires Written(db, clean) && key in db
    ensures |Split(key)| > 2
  {
    assert WrittenEntry(key, db[key], clean);
    var slot: Slot :| key == Key(slot);
    KeyHasThreeParts(slot);
  }

  lemma WrittenEnvelope(db: Db, id: UserId, clean: bool)
    requires Written(db, clean) && Key(EnvelopeOf(id)) in db
    ensures db[Key(EnvelopeOf(id))].value.Envelope?
  {
    var key := Key(EnvelopeOf(id));
    assert WrittenEntry(key, db[key], clean);
    var slot: Slot :| key == Key(slot) && (slot.EnvelopeOf? ==> db[key].value.Envelope?);
    KeysCollideExactly(EnvelopeOf(id), slot);
  }
}
