/** The functions the JavaScript SDK calls: the client steps with their
    arguments and results as messages. Every error ends in a panic. */
module Bindings {
  import opened Encoding
  import opened Groups
  import opened Suite
  import opened Client
  import opened Wire
  import opened Handlers

  const NO_REQUEST := OprfRequestFields("", "", [], None, None)
  const NO_LOGIN := LoginFields([], [], [], [], [])

  function RequestFields(c: Suite, appToken: string, username: string, password: Bytes,
                         fin: FinalizeData): OprfRequestFields {
    OprfRequestFields(username, appToken, [PasswordInput(c, password)], Some(fin), Some(fin.evalReq))
  }

  function FieldsOf(username: string, appToken: string, reg: Registration): RegistrationFields {
    RegistrationFields(username, appToken, reg.envU, reg.envUNonce, reg.pubU, reg.salt)
  }

  /** make_oprf_request */
  function MakeOprfRequestJson(c: Suite, appToken: string, username: string, password: Bytes,
                               blind: nat): Result<OprfRequestJson> {
    if username == "" || password == [] then Err(Panicked)
    else
      match MakeOprfRequest(c, password, blind)
      case Err(_) => Err(Panicked)
      case Ok(fin) => OprfRequestToJson(RequestFields(c, appToken, username, password, fin))
  }

  function RegistrationAnswer(c: Suite, appToken: string, username: string, request: OprfRequestJson,
                              evaluation: EvaluationJson, serverKey: string, f: Fresh): Result<RegistrationJson>
  {
    var (fields, requestError) := OprfRequestFromJson(c, NO_REQUEST, request);
    var (eval, evalError) := EvaluationFromJson(c, evaluation);
    if !HexDecode(serverKey).ok || requestError.Some? || evalError.Some? || fields.finData.None? then Err(Panicked)
    else
      match RegistrationOf(c, fields.finData.value, eval, Fit32(HexDecode(serverKey).bytes), f)
      case Err(_) => Err(Panicked)
      case Ok(reg) => Ok(RegistrationToJson(FieldsOf(username, appToken, reg)))
  }

  function LoginAnswer(c: Suite, request: OprfRequestJson, response: LoginJson, serverKey: string,
                       draw: Block): Result<string> {
    var (fields, requestError) := OprfRequestFromJson(c, NO_REQUEST, request);
    var (login, loginError) := LoginFromJson(c, NO_LOGIN, response);
    if !HexDecode(serverKey).ok || requestError.Some? || loginError.Some? || fields.finData.None? then Err(Panicked)
    else
      match TokenOf(c, fields.finData.value, login.eval, login.envU, login.envUNonce, Some(login.rwdUSalt),
                    login.authNonce, draw)
      case Err(_) => Err(Panicked)
      case Ok(token) => Ok(HexEncode(token))
  }

  /** finalize_password_registration */
  method FinalizePasswordRegistration(c: Suite, appToken: string, username: string, oprfReqJson: OprfRequestJson,
                                      evalJson: EvaluationJson, hexServerKey: string, f: Fresh)
    returns (r: Result<RegistrationJson>)
    ensures r == RegistrationAnswer(c, appToken, username, oprfReqJson, evalJson, hexServerKey, f)
  {
    var b := HexDecode(hexServerKey);
    if !b.ok {
      return Err(Panicked);
    }
    var serverPubKey := CopyKey(b.bytes);
    var oprfReq := new OprfRequestResults(NO_REQUEST);
    var err := oprfReq.UnmarshalJSON(c, oprfReqJson);
    if err.Some? {
      return Err(Panicked);
    }
    var serverEval := new OprfServerEvaluation([]);
    err := serverEval.UnmarshalJSON(c, evalJson);
    if err.Some? || oprfReq.finData.None? {
      return Err(Panicked);
    }
    var made := MakeEnvU(c, oprfReq.finData.value, serverEval.eval, serverPubKey[..], f);
    if made.Err? {
      return Err(Panicked);
    }
    var data := new PasswordRegistrationData(FieldsOf(username, appToken, made.value));
    var json := data.MarshalJSON();
    return Ok(json);
  }

  /** finalize_password_authentication; the server key is decoded but not used. */
  method FinalizePasswordAuthentication(c: Suite, oprfReqJson: OprfRequestJson, startJson: LoginJson,
                                        hexServerKey: string,
                                        draw: Block) returns (r: Result<string>)
    ensures r == LoginAnswer(c, oprfReqJson, startJson, hexServerKey, draw)
  {
    var b := HexDecode(hexServerKey);
    if !b.ok {
      return Err(Panicked);
    }
    var oprfReq := new OprfRequestResults(NO_REQUEST);
    var err := oprfReq.UnmarshalJSON(c, oprfReqJson);
    if err.Some? {
      return Err(Panicked);
    }
    var start := new StartPasswordAuthServerResp(NO_LOGIN);
    err := start.UnmarshalJSON(c, startJson);
    if err.Some? || oprfReq.finData.None? {
      return Err(Panicked);
    }
    var token := DeriveSessionToken(c, oprfReq.finData.value, start.eval, start.envU, start.envUNonce,
      Some(start.rwdUSalt), start.authNonce, draw);
    if token.Err? {
      return Err(Panicked);
    }
    return Ok(HexEncode(token.value));
  }

  // -------------------------------------------------------------- what they mean

  /** There is a request just for a named user with a password that can be blinded;
      everything else is a panic. */
  lemma RequestIsMadeExactly(c: Suite, appToken: string, username: string, password: Bytes, blind: nat)
    ensures
      var json := MakeOprfRequestJson(c, appToken, username, password, blind);
      && (json.Ok? <==> username != "" && password != [] && MakeOprfRequest(c, password, blind).Ok?)
      && (json.Ok? || json == Err(Panicked))
      && (json.Ok? ==> json.value.username == username && json.value.appToken == appToken)
  {
  }

  /** The server evaluates exactly what the client blinded. */
  lemma ServerReadsClientRequest(c: Suite, appToken: string, username: string, password: Bytes, blind: nat,
                                 before: OprfRequestFields)
    requires c.Lawful() && blind < c.oprf.q && username != "" && password != []
    requires MakeOprfRequest(c, password, blind).Ok?
    ensures
      var fin := MakeOprfRequest(c, password, blind).value;
      var json := MakeOprfRequestJson(c, appToken, username, password, blind);
      var fields := RequestFields(c, appToken, username, password, fin);
      json.Ok? && OprfRequestFromJson(c, before, json.value) == (fields, None)
  {
    var fin := MakeOprfRequest(c, password, blind).value;
    OprfRequestRoundTrip(c, RequestFields(c, appToken, username, password, fin), before);
  }

  /** Passing the request and the answer through their messages changes nothing:
      the binding returns the lower-case hexadecimal text of the token that the
      client derives from the original values, the server's decoder recovers
      that token, and there is an error exactly when deriving has one. */
  lemma BindingsPreserveToken(c: Suite, f: OprfRequestFields, login: LoginFields, serverKey: string, draw: Block)
    requires c.Lawful() && Consistent(c, f) && InRange(c, f.finData.value.blinds) && InGroup(c, login.eval)
    requires HexDecode(serverKey).ok
    ensures
      var token := TokenOf(c, f.finData.value, login.eval, login.envU, login.envUNonce, Some(login.rwdUSalt),
                           login.authNonce, draw);
      var answer := LoginAnswer(c, OprfRequestToJson(f).value, LoginToJson(login), serverKey, draw);
      && (token.Ok? <==> answer.Ok?)
      && (token.Ok? ==> answer.value == HexEncode(token.value) && HexDecode(answer.value) == Decoded(token.value, true))
      && (token.Ok? && |login.authNonce| == NONCE_LENGTH ==> WellFormedToken(answer.value))
      && (token.Ok? && |login.authNonce| == NONCE_LENGTH ==> NonceOf(answer.value) == login.authNonce)
  {
    OprfRequestRoundTrip(c, f, NO_REQUEST);
    LoginRoundTrip(c, login, NO_LOGIN);
    var token := TokenOf(c, f.finData.value, login.eval, login.envU, login.envUNonce, Some(login.rwdUSalt),
                           login.authNonce, draw);
    if token.Ok? {
      HexRoundTrip(token.value);
      if |login.authNonce| == NONCE_LENGTH {
        TokenTextKeepsNonce(c, f.finData.value, login, draw);
      }
    }
  }

  /** The text of a token on a 12-byte nonce is well formed and has that nonce. */
  lemma TokenTextKeepsNonce(c: Suite, fin: FinalizeData, login: LoginFields, draw: Block)
    requires |login.authNonce| == NONCE_LENGTH
    requires
      TokenOf(c, fin, login.eval, login.envU, login.envUNonce, Some(login.rwdUSalt), login.authNonce, draw).Ok?
    ensures
      var token := TokenOf(c, fin, login.eval, login.envU, login.envUNonce, Some(login.rwdUSalt),
                           login.authNonce, draw);
      WellFormedToken(HexEncode(token.value)) && NonceOf(HexEncode(token.value)) == login.authNonce
  {
    var token := TokenOf(c, fin, login.eval, login.envU, login.envUNonce, Some(login.rwdUSalt), login.authNonce, draw);
    HexRoundTrip(token.value);
    assert |token.value| == TOKEN_LENGTH && token.value[..NONCE_LENGTH] == login.authNonce;
  }

  /** Likewise at registration: the server reads back the envelope, nonce,
      public key and salt that the client made from the original values. */
  lemma BindingsPreserveRegistration(c: Suite, f: OprfRequestFields, eval: seq<nat>, pubS: Block, appToken: string,
                                     username: string, fresh': Fresh, before: RegistrationFields)
    requires c.Lawful() && Consistent(c, f) && InRange(c, f.finData.value.blinds) && InGroup(c, eval)
    ensures
      var reg := RegistrationOf(c, f.finData.value, eval, pubS, fresh');
      var answer := RegistrationAnswer(c, appToken, username, OprfRequestToJson(f).value,
                                       EvaluationJson(HexAll(Compressed(eval))), HexEncode(pubS), fresh');
      && (reg.Ok? <==> answer.Ok?)
      && (reg.Ok? ==> RegistrationFromJson(before, answer.value) == (FieldsOf(username, appToken, reg.value), None))
  {
    OprfRequestRoundTrip(c, f, NO_REQUEST);
    EvaluationRoundTrip(c, eval);
    HexRoundTrip(pubS);
    var reg := RegistrationOf(c, f.finData.value, eval, pubS, fresh');
    if reg.Ok? {
      RegistrationRoundTrip(FieldsOf(username, appToken, reg.value), before);
    }
  }

  /** An honest evaluation of a client's request can be written and read back. */
  lemma EvaluationsStayInGroup(c: Suite, inputs: seq<Bytes>, blinds: seq<nat>, k: nat)
    requires c.Lawful() && DeterministicBlind(c, inputs, blinds).Ok?
    ensures
      var evalReq := DeterministicBlind(c, inputs, blinds).value.evalReq;
      InGroup(c, evalReq) && InGroup(c, Evaluate(c, k, evalReq))
  {
    var evalReq := DeterministicBlind(c, inputs, blinds).value.evalReq;
    forall i | 0 <= i < |evalReq|
      ensures c.oprf.Has(evalReq[i]) && c.oprf.Has(Evaluate(c, k, evalReq)[i])
    {
      MulStaysInGroup(c.oprf, HashInput(c, inputs[i]), blinds[i]);
      MulStaysInGroup(c.oprf, evalReq[i], k);
    }
  }
}
