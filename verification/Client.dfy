/** The client half of the protocol: the OPRF request, the sealed envelope made
    at registration and the session token derived at login. */
module Client {
  import opened Encoding
  import opened Groups
  import opened Suite

  const PASSWORD_TAG := "QUUX-V01-CS02-with-P256_XMD:SHA-256_SSWU_RO_"

  const NONCE_LENGTH := 12
  const TOKEN_LENGTH := 44

  /** The password, hashed to an element and written out: the OPRF input. */
  function PasswordInput(c: Suite, password: Bytes): Bytes {
    MarshalElement(c.hashToGroup(password, Ascii(PASSWORD_TAG)))
  }

  /** The tag of the test vectors of section J.1 of RFC 9380: a fixed beginning and
      the name of the suite. */
  lemma TagIsOfTestVectors()
    ensures PASSWORD_TAG == "QUUX-V01-CS02-with-" + "P256_XMD:SHA-256_SSWU_RO_"
  {
  }

  function MakeOprfRequest(c: Suite, password: Bytes, blind: nat): Result<FinalizeData> {
    DeterministicBlind(c, [PasswordInput(c, password)], [blind])
  }

  /** The one output the protocol uses; indexing an empty list would panic. */
  function FirstOutput(c: Suite, fin: FinalizeData, eval: seq<nat>): Result<Bytes> {
    match Finalize(c, fin, eval)
    case Err(e) => Err(e)
    case Ok(outputs) => if outputs == [] then Err(Panicked) else Ok(outputs[0])
  }

  function Hardened(c: Suite, x: Bytes, precomputed: Option<Bytes>, draw: Block): (Block, Bytes) {
    var salt := if precomputed.Some? then precomputed.value else draw;
    (c.argon2(x, salt), salt)
  }

  function AesKey(c: Suite, rwdU: Bytes): (k: Bytes)
    ensures |k| == 16
  {
    Hkdf(c, rwdU, None, 16)
  }

  /** The random choices of one registration. */
  datatype Fresh = Fresh(salt: Block, privU: Block, nonce: Bytes)

  predicate GoodFresh(f: Fresh) {
    |f.nonce| == NONCE_LENGTH
  }

  datatype Registration = Registration(envU: Bytes, envUNonce: Bytes, pubU: Bytes, salt: Bytes)

  function RegistrationOf(c: Suite, fin: FinalizeData, eval: seq<nat>, pubS: Block, f: Fresh): Result<Registration> {
    match FirstOutput(c, fin, eval)
    case Err(e) => Err(e)
    case Ok(x) =>
      var (rwdU, salt) := Hardened(c, x, None, f.salt);
      Ok(Registration(c.seal(AesKey(c, rwdU), f.nonce, f.privU + pubS), f.nonce, KeyGen(c, f.privU), salt))
  }

  /** AES-GCM panics on a nonce of the wrong length and slicing panics on a
      plaintext shorter than one key. */
  function Opened(c: Suite, envU: Bytes, envUNonce: Bytes, rwdU: Bytes): Result<(Block, Block)> {
    if |envUNonce| != NONCE_LENGTH then Err(Panicked)
    else
      match c.open(AesKey(c, rwdU), envUNonce, envU)
      case None => Err(AuthenticationFailed)
      case Some(plain) =>
        if |plain| < 32 then Err(Panicked) else Ok((Fit32(plain[..32]), Fit32(plain[32..])))
  }

  function TokenOf(c: Suite, fin: FinalizeData, eval: seq<nat>, envU: Bytes, envUNonce: Bytes,
                   rwdUSalt: Option<Bytes>, authNonce: Bytes, draw: Block): Result<Bytes>
  {
    match FirstOutput(c, fin, eval)
    case Err(e) => Err(e)
    case Ok(x) =>
      var (rwdU, _) := Hardened(c, x, rwdUSalt, draw);
      match Opened(c, envU, envUNonce, rwdU)
      case Err(e) => Err(e)
      case Ok((privU, pubS)) =>
        match SharedKey(c, privU, pubS)
        case None => Err(NoSharedKey)
        case Some(shared) => Ok(authNonce + Hkdf(c, shared, Some(authNonce), 32))
  }

  /** What the server recomputes from the public key it stored. */
  function ServerKey(c: Suite, privS: Block, pubU: Bytes, authNonce: Bytes): (r: Option<Bytes>)
    ensures r.Some? ==> |r.value| == 32
  {
    match SharedKey(c, privS, Fit32(pubU))
    case None => None
    case Some(shared) => Some(Hkdf(c, shared, Some(authNonce), 32))
  }

  // --------------------------------------------------- the buffer-filling methods

  /** `copy` into a zeroed key array. */
  method CopyKey(src: Bytes) returns (dst: array<byte>)
    ensures fresh(dst) && dst.Length == 32
    ensures dst[..] == Fit32(src)
  {
    dst := new byte[32](_ => 0);
    var n := if |src| < 32 then |src| else 32;
    for i := 0 to n
      invariant forall j :: 0 <= j < 32 ==> dst[j] == if j < i then src[j] else 0
    {
      dst[i] := src[i];
    }
    assert forall j :: 0 <= j < 32 ==> dst[..][j] == Fit32(src)[j];
  }

  method DecryptEnvU(c: Suite, envU: Bytes, envUNonce: Bytes, rwdU: Bytes) returns (r: Result<(Block, Block)>)
    ensures r == Opened(c, envU, envUNonce, rwdU)
  {
    var aesKey := Hkdf(c, rwdU, None, 16);
    if |envUNonce| != NONCE_LENGTH {
      return Err(Panicked);
    }
    var encoded := c.open(aesKey, envUNonce, envU);
    if encoded.None? {
      return Err(AuthenticationFailed);
    }
    if |encoded.value| < 32 {
      return Err(Panicked);
    }
    var privU := CopyKey(encoded.value[..32]);
    var pubS := CopyKey(encoded.value[32..]);
    return Ok((privU[..], pubS[..]));
  }

  method MakeEnvU(c: Suite, fin: FinalizeData, eval: seq<nat>, pubS: Block, f: Fresh) returns (r: Result<Registration>)
    ensures r == RegistrationOf(c, fin, eval, pubS, f)
  {
    var oprfRet := FirstOutput(c, fin, eval);
    if oprfRet.Err? {
      return Err(oprfRet.error);
    }
    var (rwdU, salt) := Hardened(c, oprfRet.value, None, f.salt);
    var pubU := KeyGen(c, f.privU);
    var encoded: Bytes := [];
    encoded := encoded + f.privU;
    encoded := encoded + pubS;
    assert encoded == f.privU + pubS;
    var aesKey := Hkdf(c, rwdU, None, 16);
    return Ok(Registration(c.seal(aesKey, f.nonce, encoded), f.nonce, pubU, salt));
  }

  method DeriveSessionToken(c: Suite, fin: FinalizeData, eval: seq<nat>, envU: Bytes, envUNonce: Bytes,
                            rwdUSalt: Option<Bytes>, authNonce: Bytes, draw: Block) returns (r: Result<Bytes>)
    ensures r == TokenOf(c, fin, eval, envU, envUNonce, rwdUSalt, authNonce, draw)
  {
    var oprfRet := FirstOutput(c, fin, eval);
    if oprfRet.Err? {
      return Err(oprfRet.error);
    }
    var (rwdU, _) := Hardened(c, oprfRet.value, rwdUSalt, draw);
    var keys := DecryptEnvU(c, envU, envUNonce, rwdU);
    if keys.Err? {
      return Err(keys.error);
    }
    var shared := SharedKey(c, keys.value.0, keys.value.1);
    if shared.None? {
      return Err(NoSharedKey);
    }
    var b := Hkdf(c, shared.value, Some(authNonce), 32);
    var st: Bytes := [];
    st := st + authNonce;
    st := st + b;
    assert st == authNonce + b;
    return Ok(st);
  }

  // -------------------------------------------------------------- what they mean

  /** The key an envelope is sealed under, as a function of the password. */
  function EnvelopeKey(c: Suite, k: nat, password: Bytes, salt: Bytes): (key: Bytes)
    ensures |key| == 16
  {
    AesKey(c, c.argon2(Prf(c, k, PasswordInput(c, password)), salt))
  }

  /** The envelope opens under its password to a private key that matches its
      public key, next to the server's public key. */
  ghost predicate OpensTo(c: Suite, pubS: Block, k: nat, reg: Registration, password: Bytes, privU: Block) {
    && |reg.envUNonce| == NONCE_LENGTH
    && reg.pubU == KeyGen(c, privU)
    && c.open(EnvelopeKey(c, k, password, reg.salt), reg.envUNonce, reg.envU) == Some(privU + pubS)
  }

  ghost predicate Coherent(c: Suite, pubS: Block, k: nat, reg: Registration, password: Bytes) {
    exists privU: Block :: OpensTo(c, pubS, k, reg, password, privU)
  }

  /** Of an honest run with any number of inputs the protocol uses the output for
      the first one. */
  lemma FirstOutputIsOfFirst(c: Suite, k: nat, inputs: seq<Bytes>, blinds: seq<nat>)
    requires c.Lawful() && NonZeroScalars(c, blinds) && DeterministicBlind(c, inputs, blinds).Ok?
    ensures
      var fin := DeterministicBlind(c, inputs, blinds).value;
      FirstOutput(c, fin, Evaluate(c, k, fin.evalReq)) == Ok(Prf(c, k, inputs[0]))
  {
    ObliviousRunComputesPrf(c, k, inputs, blinds);
  }

  /** What a client sends depends on its password just as far as the hash of the
      written-out element does: with one blind two passwords give the same request
      if and only if that hash is the same. */
  lemma RequestTellsPasswords(c: Suite, password: Bytes, other: Bytes, blind: nat)
    requires c.Lawful() && 0 < blind < c.oprf.q
    requires MakeOprfRequest(c, password, blind).Ok? && MakeOprfRequest(c, other, blind).Ok?
    ensures
      MakeOprfRequest(c, password, blind).value.evalReq == MakeOprfRequest(c, other, blind).value.evalReq <==>
        c.hashToGroup(PasswordInput(c, password), c.oprfTag) == c.hashToGroup(PasswordInput(c, other), c.oprfTag)
  {
    OneRequestTells(c, PasswordInput(c, password), PasswordInput(c, other), blind);
  }

  /** The written-out element tells passwords that hash to different elements. */
  lemma InputTellsPasswords(c: Suite, password: Bytes, other: Bytes)
    requires c.Lawful()
    ensures PasswordInput(c, password) == PasswordInput(c, other) <==>
      c.hashToGroup(password, Ascii(PASSWORD_TAG)) == c.hashToGroup(other, Ascii(PASSWORD_TAG))
  {
    LongElementRoundTrip(c, c.hashToGroup(password, Ascii(PASSWORD_TAG)));
    LongElementRoundTrip(c, c.hashToGroup(other, Ascii(PASSWORD_TAG)));
  }

  /** Whatever was sealed under the key of a hardened output, by whomever, opens to
      its first 32 bytes and what follows, fitted to a key; only a nonce of another
      length or too little content is a panic. */
  lemma OpensWhatWasSealed(c: Suite, rwdU: Bytes, nonce: Bytes, plain: Bytes)
    requires c.Lawful()
    ensures
      Opened(c, c.seal(AesKey(c, rwdU), nonce, plain), nonce, rwdU)
        == if |nonce| != 12 || |plain| < 32 then Err(Panicked) else Ok((plain[..32], Fit32(plain[32..])))
  {
  }

  /** What was not sealed under that key is refused. */
  lemma OpensNothingElse(c: Suite, envU: Bytes, nonce: Bytes, rwdU: Bytes)
    requires |nonce| == 12
    ensures Opened(c, envU, nonce, rwdU) == Err(AuthenticationFailed) <==> c.open(AesKey(c, rwdU), nonce, envU).None?
  {
  }

  /** The key the server recomputes tells both the shared key and the nonce. */
  lemma ServerKeyTells(c: Suite, privS: Block, pubU: Bytes, nonce: Bytes, pubU': Bytes, nonce': Bytes)
    requires SharedKey(c, privS, Fit32(pubU)).Some? && SharedKey(c, privS, Fit32(pubU')).Some?
    requires
      NoKeyCollision(c, SharedKey(c, privS, Fit32(pubU)).value, nonce, SharedKey(c, privS, Fit32(pubU')).value, nonce')
    ensures ServerKey(c, privS, pubU, nonce) == ServerKey(c, privS, pubU', nonce') <==>
      SharedKey(c, privS, Fit32(pubU)) == SharedKey(c, privS, Fit32(pubU')) && nonce == nonce'
  {
    DerivedKeysTell(c, SharedKey(c, privS, Fit32(pubU)).value, nonce, SharedKey(c, privS, Fit32(pubU')).value, nonce');
  }

  /** So a key part belongs to one nonce. */
  lemma ServerKeyBindsNonce(c: Suite, privS: Block, pubU: Bytes, nonce: Bytes, nonce': Bytes)
    requires SharedKey(c, privS, Fit32(pubU)).Some?
    requires var s := SharedKey(c, privS, Fit32(pubU)).value; NoKeyCollision(c, s, nonce, s, nonce')
    ensures ServerKey(c, privS, pubU, nonce) == ServerKey(c, privS, pubU, nonce') <==> nonce == nonce'
  {
    ServerKeyTells(c, privS, pubU, nonce, pubU, nonce');
  }

  /** And to one public key. */
  lemma ServerKeyBindsUser(c: Suite, privS: Block, x: nat, y: nat, nonce: Bytes)
    requires c.Lawful() && c.dh.Has(x) && c.dh.Has(y) && x != 1 && y != 1 && Clamp(privS) % c.dh.q != 0
    requires
      var s, s' := SharedKey(c, privS, ToLittleEndian(x, 32)), SharedKey(c, privS, ToLittleEndian(y, 32));
      s.Some? && s'.Some? ==> NoKeyCollision(c, s.value, nonce, s'.value, nonce)
    ensures ServerKey(c, privS, ToLittleEndian(x, 32), nonce) == ServerKey(c, privS, ToLittleEndian(y, 32), nonce) <==>
      x == y
  {
    RefusedExactly(c, privS, x);
    RefusedExactly(c, privS, y);
    SharedKeysTellPoints(c, privS, x, y);
    ServerKeyTells(c, privS, ToLittleEndian(x, 32), nonce, ToLittleEndian(y, 32), nonce);
  }

  lemma HonestOutput(c: Suite, k: nat, password: Bytes, blind: nat)
    requires c.Lawful() && 0 < blind < c.oprf.q
    requires MakeOprfRequest(c, password, blind).Ok?
    ensures
      var fin := MakeOprfRequest(c, password, blind).value;
      FirstOutput(c, fin, Evaluate(c, k, fin.evalReq)) == Ok(Prf(c, k, PasswordInput(c, password)))
  {
    ObliviousRunComputesPrf(c, k, [PasswordInput(c, password)], [blind]);
  }

  /** Registration against an honest evaluation makes a coherent envelope. */
  lemma RegistrationIsCoherent(c: Suite, pubS: Block, k: nat, password: Bytes, blind: nat, f: Fresh)
    requires c.Lawful() && 0 < blind < c.oprf.q && GoodFresh(f)
    requires MakeOprfRequest(c, password, blind).Ok?
    ensures
      var fin := MakeOprfRequest(c, password, blind).value;
      var reg := RegistrationOf(c, fin, Evaluate(c, k, fin.evalReq), pubS, f);
      reg.Ok? && Coherent(c, pubS, k, reg.value, password)
    ensures
      var fin := MakeOprfRequest(c, password, blind).value;
      var reg := RegistrationOf(c, fin, Evaluate(c, k, fin.evalReq), pubS, f).value;
      OpensTo(c, pubS, k, reg, password, f.privU) && reg.salt == f.salt && reg.envUNonce == f.nonce
  {
    HonestOutput(c, k, password, blind);
    var fin := MakeOprfRequest(c, password, blind).value;
    var reg := RegistrationOf(c, fin, Evaluate(c, k, fin.evalReq), pubS, f).value;
    assert OpensTo(c, pubS, k, reg, password, f.privU);
  }

  /** The token an honest client derives from a stored envelope. */
  function LoginToken(c: Suite, k: nat, reg: Registration, password: Bytes, blind: nat,
                      authNonce: Bytes, draw: Block): Result<Bytes>
  {
    match MakeOprfRequest(c, password, blind)
    case Err(e) => Err(e)
    case Ok(fin) =>
      TokenOf(c, fin, Evaluate(c, k, fin.evalReq), reg.envU, reg.envUNonce, Some(reg.salt), authNonce, draw)
  }

  /** Key agreement: on a coherent envelope, whatever the blind, the client
      derives exactly the nonce followed by the key the server recomputes, and
      neither side has a key when the shared point is refused. */
  lemma ClientAndServerAgree(c: Suite, privS: Block, k: nat, reg: Registration, password: Bytes, blind: nat,
                             authNonce: Bytes, draw: Block)
    requires c.Lawful() && 0 < blind < c.oprf.q
    requires MakeOprfRequest(c, password, blind).Ok?
    requires Coherent(c, KeyGen(c, privS), k, reg, password)
    ensures LoginToken(c, k, reg, password, blind, authNonce, draw)
         == match ServerKey(c, privS, reg.pubU, authNonce)
            case None => Err(NoSharedKey)
            case Some(key) => Ok(authNonce + key)
  {
    HonestOutput(c, k, password, blind);
    var pubS := KeyGen(c, privS);
    var privU: Block :| OpensTo(c, pubS, k, reg, password, privU);
    assert (privU + pubS)[..32] == privU && (privU + pubS)[32..] == pubS;
    DiffieHellmanAgrees(c, privU, privS);
  }

  /** Which logins succeed: exactly those whose password hardens, under the key
      the server now evaluates with, to the key the envelope was sealed under.
      `k` is the key of the registration, `k'` the one stored next to it. */
  lemma LoginSucceedsExactly(c: Suite, privS: Block, k: nat, reg: Registration, password: Bytes,
                             k': nat, other: Bytes, blind: nat, authNonce: Bytes, draw: Block)
    requires c.Lawful() && c.Committing() && 0 < blind < c.oprf.q
    requires MakeOprfRequest(c, other, blind).Ok?
    requires Coherent(c, KeyGen(c, privS), k, reg, password)
    ensures LoginToken(c, k', reg, other, blind, authNonce, draw).Ok?
       <==> && EnvelopeKey(c, k', other, reg.salt) == EnvelopeKey(c, k, password, reg.salt)
            && ServerKey(c, privS, reg.pubU, authNonce).Some?
  {
    HonestOutput(c, k', other, blind);
    var pubS := KeyGen(c, privS);
    var privU: Block :| OpensTo(c, pubS, k, reg, password, privU);
    if EnvelopeKey(c, k', other, reg.salt) == EnvelopeKey(c, k, password, reg.salt) {
      assert OpensTo(c, pubS, k', reg, other, privU);
      ClientAndServerAgree(c, privS, k', reg, other, blind, authNonce, draw);
    }
  }

  /** Neither the hash nor the hardening collides on the two inputs at hand. */
  ghost predicate NoCollision(c: Suite, f: Bytes, f': Bytes, salt: Bytes) {
    && (c.outputHash(f) == c.outputHash(f') ==> f == f')
    && (AesKey(c, c.argon2(c.outputHash(f), salt)) == AesKey(c, c.argon2(c.outputHash(f'), salt)) ==>
          c.outputHash(f) == c.outputHash(f'))
  }

  function PasswordFrame(c: Suite, k: nat, password: Bytes): Bytes {
    var input := PasswordInput(c, password);
    HashFrame(input, MarshalCompress(c.oprf.Mul(HashInput(c, input), k)))
  }

  /** Password discrimination: with no collision on the two frames, a login
      gets a token if and only if its password hashes to the registered element. */
  lemma PasswordDiscrimination(c: Suite, privS: Block, k: nat, reg: Registration, password: Bytes,
                               other: Bytes, blind: nat, authNonce: Bytes, draw: Block)
    requires c.Lawful() && c.Committing() && 0 < blind < c.oprf.q
    requires MakeOprfRequest(c, other, blind).Ok?
    requires Coherent(c, KeyGen(c, privS), k, reg, password)
    requires ServerKey(c, privS, reg.pubU, authNonce).Some?
    requires NoCollision(c, PasswordFrame(c, k, other), PasswordFrame(c, k, password), reg.salt)
    ensures LoginToken(c, k, reg, other, blind, authNonce, draw).Ok?
       <==> c.hashToGroup(other, Ascii(PASSWORD_TAG)) == c.hashToGroup(password, Ascii(PASSWORD_TAG))
  {
    LoginSucceedsExactly(c, privS, k, reg, password, k, other, blind, authNonce, draw);
    var e, e' := c.hashToGroup(other, Ascii(PASSWORD_TAG)), c.hashToGroup(password, Ascii(PASSWORD_TAG));
    LongElementRoundTrip(c, e);
    LongElementRoundTrip(c, e');
    var i, i' := PasswordInput(c, other), PasswordInput(c, password);
    if EnvelopeKey(c, k, other, reg.salt) == EnvelopeKey(c, k, password, reg.salt) {
      FitsMonotone(65, 255, 1, 2);
      FitsMonotone(33, 255, 1, 2);
      FitsMonotone(1, 255, 1, 2);
      HashFrameInjective(i, MarshalCompress(c.oprf.Mul(HashInput(c, i), k)),
                         i', MarshalCompress(c.oprf.Mul(HashInput(c, i'), k)));
    }
  }

  /** Key discrimination: with no collision on the two frames, the registered
      password logs in under the key the server evaluates with if and only if
      that is the key of the registration. */
  lemma KeyDiscrimination(c: Suite, privS: Block, k: nat, reg: Registration, password: Bytes,
                          k': nat, blind: nat, authNonce: Bytes, draw: Block)
    requires c.Lawful() && c.Committing() && 0 < blind < c.oprf.q && k < c.oprf.q && k' < c.oprf.q
    requires MakeOprfRequest(c, password, blind).Ok?
    requires Coherent(c, KeyGen(c, privS), k, reg, password)
    requires ServerKey(c, privS, reg.pubU, authNonce).Some?
    requires NoCollision(c, PasswordFrame(c, k', password), PasswordFrame(c, k, password), reg.salt)
    ensures LoginToken(c, k', reg, password, blind, authNonce, draw).Ok? <==> k == k'
  {
    LoginSucceedsExactly(c, privS, k, reg, password, k', password, blind, authNonce, draw);
    if EnvelopeKey(c, k', password, reg.salt) == EnvelopeKey(c, k, password, reg.salt) {
      FramesSeparateKeys(c, password, k, k');
    }
  }

  /** The frames of one password under two keys are the same only for the same key. */
  lemma FramesSeparateKeys(c: Suite, password: Bytes, k: nat, k': nat)
    requires c.Lawful() && k < c.oprf.q && k' < c.oprf.q && HashInput(c, PasswordInput(c, password)) != 1
    ensures PasswordFrame(c, k, password) == PasswordFrame(c, k', password) <==> k == k'
  {
    var input := PasswordInput(c, password);
    var x := HashInput(c, input);
    var y, y' := c.oprf.Mul(x, k), c.oprf.Mul(x, k');
    if PasswordFrame(c, k, password) == PasswordFrame(c, k', password) {
      FitsMonotone(65, 255, 1, 2);
      FitsMonotone(33, 255, 1, 2);
      FitsMonotone(1, 255, 1, 2);
      HashFrameInjective(input, MarshalCompress(y), input, MarshalCompress(y'));
      MulStaysInGroup(c.oprf, x, k);
      MulStaysInGroup(c.oprf, x, k');
      CompressInjective(c, y, y');
      MulSeparates(c.oprf, x, k, k');
    }
  }
}
