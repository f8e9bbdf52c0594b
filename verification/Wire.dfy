/** The messages between client and server as JSON records, and the objects
    that are written to and read from them. JSON text itself is not modelled:
    a message is the record of its string fields. */
module Wire {
  import opened Encoding
  import opened Suite

  datatype OprfRequestJson = OprfRequestJson(
    username: string, appToken: string, inputs: seq<string>, blinds: seq<string>, evalReqElements: seq<string>)

  datatype EvaluationJson = EvaluationJson(elements: seq<string>)

  datatype RegistrationJson = RegistrationJson(
    username: string, appToken: string, envU: string, envUNonce: string, pubU: string, salt: string)

  datatype LoginJson = LoginJson(
    elements: seq<string>, envU: string, envUNonce: string, rwdUSalt: string, authNonce: string)

  // --------------------------------------------------------- elements and scalars

  function Scalars(ks: seq<nat>): (r: seq<Bytes>)
    ensures |r| == |ks|
  {
    seq(|ks|, i requires 0 <= i < |ks| => MarshalScalar(ks[i]))
  }

  /** What a decoding loop has appended when it ends, and why it ended early. */
  datatype Loop<T> = Loop(items: seq<T>, error: Option<Error>)

  function ElementOf(c: Suite, text: string): Result<nat> {
    if HexDecode(text).ok then UnmarshalElement(c, HexDecode(text).bytes) else Err(BadHex)
  }

  function ElementsOf(c: Suite, texts: seq<string>): Loop<nat> {
    if texts == [] then Loop([], None)
    else
      match ElementOf(c, texts[0])
      case Err(e) => Loop([], Some(e))
      case Ok(x) =>
        var rest := ElementsOf(c, texts[1..]);
        Loop([x] + rest.items, rest.error)
  }

  function ScalarOf(c: Suite, text: string): Result<nat> {
    if HexDecode(text).ok then UnmarshalScalar(c, HexDecode(text).bytes) else Err(BadHex)
  }

  function ScalarsOf(c: Suite, texts: seq<string>): Loop<nat> {
    if texts == [] then Loop([], None)
    else
      match ScalarOf(c, texts[0])
      case Err(e) => Loop([], Some(e))
      case Ok(x) =>
        var rest := ScalarsOf(c, texts[1..]);
        Loop([x] + rest.items, rest.error)
  }

  predicate InRange(c: Suite, ks: seq<nat>) {
    forall i :: 0 <= i < |ks| ==> ks[i] < c.oprf.q
  }

  lemma ElementsOfCons(c: Suite, text: string, rest: seq<string>, x: nat)
    requires ElementOf(c, text) == Ok(x)
    ensures ElementsOf(c, [text] + rest) == Loop([x] + ElementsOf(c, rest).items, ElementsOf(c, rest).error)
  {
    assert ([text] + rest)[1..] == rest;
  }

  lemma ElementTextRoundTrip(c: Suite, x: nat)
    requires c.Lawful() && c.oprf.Has(x)
    ensures ElementOf(c, HexEncode(MarshalCompress(x))) == Ok(x)
  {
    ElementRoundTrip(c, x);
    HexRoundTrip(MarshalCompress(x));
  }

  lemma ElementsTail(elements: seq<nat>)
    requires elements != []
    ensures HexAll(Compressed(elements))
         == [HexEncode(MarshalCompress(elements[0]))] + HexAll(Compressed(elements[1..]))
  {
    HexAllTail(Compressed(elements));
    assert Compressed(elements)[1..] == Compressed(elements[1..]);
  }

  lemma {:induction false} ElementsRoundTrip(c: Suite, elements: seq<nat>)
    requires c.Lawful() && InGroup(c, elements)
    ensures ElementsOf(c, HexAll(Compressed(elements))) == Loop(elements, None)
  {
    if elements != [] {
      var x, rest := elements[0], elements[1..];
      ElementTextRoundTrip(c, x);
      ElementsRoundTrip(c, rest);
      ElementsTail(elements);
      ElementsOfCons(c, HexEncode(MarshalCompress(x)), HexAll(Compressed(rest)), x);
    }
  }

  lemma ScalarsOfCons(c: Suite, text: string, rest: seq<string>, x: nat)
    requires ScalarOf(c, text) == Ok(x)
    ensures ScalarsOf(c, [text] + rest) == Loop([x] + ScalarsOf(c, rest).items, ScalarsOf(c, rest).error)
  {
    assert ([text] + rest)[1..] == rest;
  }

  lemma ScalarTextRoundTrip(c: Suite, k: nat)
    requires c.Lawful() && k < c.oprf.q
    ensures ScalarOf(c, HexEncode(MarshalScalar(k))) == Ok(k)
  {
    ScalarRoundTrip(c, k);
    HexRoundTrip(MarshalScalar(k));
  }

  lemma ScalarsTail(ks: seq<nat>)
    requires ks != []
    ensures HexAll(Scalars(ks)) == [HexEncode(MarshalScalar(ks[0]))] + HexAll(Scalars(ks[1..]))
  {
    HexAllTail(Scalars(ks));
    assert Scalars(ks)[1..] == Scalars(ks[1..]);
  }

  lemma {:induction false} ScalarsRoundTrip(c: Suite, ks: seq<nat>)
    requires c.Lawful() && InRange(c, ks)
    ensures ScalarsOf(c, HexAll(Scalars(ks))) == Loop(ks, None)
  {
    if ks != [] {
      var x, rest := ks[0], ks[1..];
      ScalarTextRoundTrip(c, x);
      ScalarsRoundTrip(c, rest);
      ScalarsTail(ks);
      ScalarsOfCons(c, HexEncode(MarshalScalar(x)), HexAll(Scalars(rest)), x);
    }
  }

  lemma {:induction false} ScalarsOfInRange(c: Suite, texts: seq<string>)
    ensures InRange(c, ScalarsOf(c, texts).items)
  {
    if texts != [] && ScalarOf(c, texts[0]).Ok? {
      ScalarsOfInRange(c, texts[1..]);
    }
  }

  lemma {:induction false} ElementsOfPush(c: Suite, texts: seq<string>, text: string)
    requires ElementsOf(c, texts).error == None
    ensures ElementsOf(c, texts + [text])
         == match ElementOf(c, text)
            case Err(e) => Loop(ElementsOf(c, texts).items, Some(e))
            case Ok(x) => Loop(ElementsOf(c, texts).items + [x], None)
  {
    if texts == [] {
      assert [text][1..] == [] && texts + [text] == [text];
    } else {
      assert (texts + [text])[1..] == texts[1..] + [text];
      ElementsOfPush(c, texts[1..], text);
    }
  }

  lemma ElementsOfStep(c: Suite, texts: seq<string>, n: nat)
    requires n < |texts| && ElementsOf(c, texts[..n]).error == None
    ensures ElementsOf(c, texts[..n + 1])
         == match ElementOf(c, texts[n])
            case Err(e) => Loop(ElementsOf(c, texts[..n]).items, Some(e))
            case Ok(x) => Loop(ElementsOf(c, texts[..n]).items + [x], None)
  {
    assert texts[..n + 1] == texts[..n] + [texts[n]];
    ElementsOfPush(c, texts[..n], texts[n]);
  }

  /** A loop that has failed on a prefix fails the same way on the whole list. */
  lemma {:induction false} ElementsOfStops(c: Suite, texts: seq<string>, n: nat)
    requires n <= |texts| && ElementsOf(c, texts[..n]).error.Some?
    ensures ElementsOf(c, texts) == ElementsOf(c, texts[..n])
  {
    if n > 0 && ElementOf(c, texts[0]).Ok? {
      assert texts[..n][1..] == texts[1..][..n - 1];
      ElementsOfStops(c, texts[1..], n - 1);
    }
  }

  lemma {:induction false} ScalarsOfPush(c: Suite, texts: seq<string>, text: string)
    requires ScalarsOf(c, texts).error == None
    ensures ScalarsOf(c, texts + [text])
         == match ScalarOf(c, text)
            case Err(e) => Loop(ScalarsOf(c, texts).items, Some(e))
            case Ok(x) => Loop(ScalarsOf(c, texts).items + [x], None)
  {
    if texts == [] {
      assert [text][1..] == [] && texts + [text] == [text];
    } else {
      assert (texts + [text])[1..] == texts[1..] + [text];
      ScalarsOfPush(c, texts[1..], text);
    }
  }

  lemma ScalarsOfStep(c: Suite, texts: seq<string>, n: nat)
    requires n < |texts| && ScalarsOf(c, texts[..n]).error == None
    ensures ScalarsOf(c, texts[..n + 1])
         == match ScalarOf(c, texts[n])
            case Err(e) => Loop(ScalarsOf(c, texts[..n]).items, Some(e))
            case Ok(x) => Loop(ScalarsOf(c, texts[..n]).items + [x], None)
  {
    assert texts[..n + 1] == texts[..n] + [texts[n]];
    ScalarsOfPush(c, texts[..n], texts[n]);
  }

  lemma {:induction false} ScalarsOfStops(c: Suite, texts: seq<string>, n: nat)
    requires n <= |texts| && ScalarsOf(c, texts[..n]).error.Some?
    ensures ScalarsOf(c, texts) == ScalarsOf(c, texts[..n])
  {
    if n > 0 && ScalarOf(c, texts[0]).Ok? {
      assert texts[..n][1..] == texts[1..][..n - 1];
      ScalarsOfStops(c, texts[1..], n - 1);
    }
  }

  lemma {:induction false} UnhexPush(texts: seq<string>, text: string)
    requires UnhexAll(texts).ok
    ensures UnhexAll(texts + [text])
         == if HexDecode(text).ok then HexList(UnhexAll(texts).items + [HexDecode(text).bytes], true)
            else HexList(UnhexAll(texts).items, false)
  {
    if texts == [] {
      assert [text][1..] == [] && texts + [text] == [text];
    } else {
      assert (texts + [text])[1..] == texts[1..] + [text];
      UnhexPush(texts[1..], text);
    }
  }

  lemma UnhexStep(texts: seq<string>, n: nat)
    requires n < |texts| && UnhexAll(texts[..n]).ok
    ensures UnhexAll(texts[..n + 1])
         == if HexDecode(texts[n]).ok then HexList(UnhexAll(texts[..n]).items + [HexDecode(texts[n]).bytes], true)
            else HexList(UnhexAll(texts[..n]).items, false)
  {
    assert texts[..n + 1] == texts[..n] + [texts[n]];
    UnhexPush(texts[..n], texts[n]);
  }

  lemma {:induction false} UnhexStops(texts: seq<string>, n: nat)
    requires n <= |texts| && !UnhexAll(texts[..n]).ok
    ensures UnhexAll(texts) == UnhexAll(texts[..n])
  {
    if n > 0 && HexDecode(texts[0]).ok {
      assert texts[..n][1..] == texts[1..][..n - 1];
      UnhexStops(texts[1..], n - 1);
    }
  }

  // ---------------------------------------------------------------------- the loops

  method MarshalElements(elements: seq<nat>) returns (texts: seq<string>)
    ensures texts == HexAll(Compressed(elements))
  {
    texts := [];
    for i := 0 to |elements|
      invariant |texts| == i
      invariant forall j :: 0 <= j < i ==> texts[j] == HexEncode(MarshalCompress(elements[j]))
    {
      texts := texts + [HexEncode(MarshalCompress(elements[i]))];
    }
  }

  method UnmarshalElements(c: Suite, texts: seq<string>) returns (r: Loop<nat>)
    ensures r == ElementsOf(c, texts)
  {
    r := Loop([], None);
    for i := 0 to |texts|
      invariant r.error == None && r == ElementsOf(c, texts[..i])
    {
      ElementsOfStep(c, texts, i);
      var decoded := HexDecode(texts[i]);
      if !decoded.ok {
        ElementsOfStops(c, texts, i + 1);
        return Loop(r.items, Some(BadHex));
      }
      var element := UnmarshalElement(c, decoded.bytes);
      if element.Err? {
        ElementsOfStops(c, texts, i + 1);
        return Loop(r.items, Some(element.error));
      }
      r := Loop(r.items + [element.value], None);
    }
    assert texts[..|texts|] == texts;
  }

  method UnmarshalScalars(c: Suite, texts: seq<string>) returns (r: Loop<nat>)
    ensures r == ScalarsOf(c, texts)
  {
    r := Loop([], None);
    for i := 0 to |texts|
      invariant r.error == None && r == ScalarsOf(c, texts[..i])
    {
      ScalarsOfStep(c, texts, i);
      var decoded := HexDecode(texts[i]);
      if !decoded.ok {
        ScalarsOfStops(c, texts, i + 1);
        return Loop(r.items, Some(BadHex));
      }
      var scalar := UnmarshalScalar(c, decoded.bytes);
      if scalar.Err? {
        ScalarsOfStops(c, texts, i + 1);
        return Loop(r.items, Some(scalar.error));
      }
      r := Loop(r.items + [scalar.value], None);
    }
    assert texts[..|texts|] == texts;
  }

  // ----------------------------------------------------------- the OPRF request

  datatype OprfRequestFields = OprfRequestFields(
    username: string, appToken: string, inputs: seq<Bytes>,
    finData: Option<FinalizeData>, evalReq: Option<seq<nat>>)

  function OprfRequestToJson(f: OprfRequestFields): Result<OprfRequestJson> {
    if f.finData.None? || f.evalReq.None? then Err(Panicked)
    else Ok(OprfRequestJson(f.username, f.appToken, HexAll(f.inputs), HexAll(Scalars(f.finData.value.blinds)),
                            HexAll(Compressed(f.evalReq.value))))
  }

  /** Decoding ignores the blinded elements of the message: it blinds the
      inputs again with the blinds it carries. */
  function OprfRequestFromJson(c: Suite, before: OprfRequestFields, di: OprfRequestJson): (OprfRequestFields,
                               Option<Error>) {
    var HexList(inputs, ok) := UnhexAll(di.inputs);
    var f := before.(username := di.username, appToken := di.appToken, inputs := inputs);
    if !ok then (f, Some(BadHex))
    else
      var blinds := ScalarsOf(c, di.blinds);
      if blinds.error.Some? then (f, blinds.error)
      else
        match DeterministicBlind(c, inputs, blinds.items)
        case Err(e) => (f.(finData := None, evalReq := None), Some(e))
        case Ok(fin) => (f.(finData := Some(fin), evalReq := Some(fin.evalReq)), None)
  }

  class OprfRequestResults {
    var username: string
    var appToken: string
    var inputs: seq<Bytes>
    var finData: Option<FinalizeData>
    var evalReq: Option<seq<nat>>

    function Fields(): OprfRequestFields
      reads this
    {
      OprfRequestFields(username, appToken, inputs, finData, evalReq)
    }

    constructor (f: OprfRequestFields)
      ensures Fields() == f
    {
      username, appToken, inputs, finData, evalReq := f.username, f.appToken, f.inputs, f.finData, f.evalReq;
    }

    /** Dereferencing a nil field would panic. */
    method MarshalJSON() returns (r: Result<OprfRequestJson>)
      ensures r == OprfRequestToJson(Fields())
    {
      if finData.None? || evalReq.None? {
        return Err(Panicked);
      }
      var ks := finData.value.blinds;
      var blinds: seq<string> := [];
      for i := 0 to |ks|
        invariant |blinds| == i && forall j :: 0 <= j < i ==> blinds[j] == HexEncode(MarshalScalar(ks[j]))
      {
        blinds := blinds + [HexEncode(MarshalScalar(ks[i]))];
      }
      var texts: seq<string> := [];
      for i := 0 to |inputs|
        invariant |texts| == i && forall j :: 0 <= j < i ==> texts[j] == HexEncode(inputs[j])
      {
        texts := texts + [HexEncode(inputs[i])];
      }
      var elements := MarshalElements(evalReq.value);
      assert blinds == HexAll(Scalars(ks)) && texts == HexAll(inputs);
      return Ok(OprfRequestJson(username, appToken, texts, blinds, elements));
    }

    method UnmarshalJSON(c: Suite, di: OprfRequestJson) returns (err: Option<Error>)
      modifies this
      ensures (Fields(), err) == OprfRequestFromJson(c, old(Fields()), di)
    {
      username, appToken := di.username, di.appToken;
      inputs := [];
      for i := 0 to |di.inputs|
        invariant UnhexAll(di.inputs[..i]) == HexList(inputs, true)
        invariant username == di.username && appToken == di.appToken
        invariant finData == old(finData) && evalReq == old(evalReq)
      {
        UnhexStep(di.inputs, i);
        var decoded := HexDecode(di.inputs[i]);
        if !decoded.ok {
          UnhexStops(di.inputs, i + 1);
          return Some(BadHex);
        }
        inputs := inputs + [decoded.bytes];
      }
      assert di.inputs[..|di.inputs|] == di.inputs;
      var blinds := UnmarshalScalars(c, di.blinds);
      if blinds.error.Some? {
        return blinds.error;
      }
      var fin := DeterministicBlind(c, inputs, blinds.items);
      if fin.Err? {
        finData, evalReq := None, None;
        return Some(fin.error);
      }
      finData, evalReq := Some(fin.value), Some(fin.value.evalReq);
      return None;
    }
  }

  /** The evaluation request is the blinding of the inputs by the blinds. */
  predicate Consistent(c: Suite, f: OprfRequestFields) {
    && f.finData.Some? && f.evalReq == Some(f.finData.value.evalReq)
    && DeterministicBlind(c, f.inputs, f.finData.value.blinds) == Ok(f.finData.value)
  }

  /** For lists of any length the round trip gives the object back if and only
      if its evaluation request is the blinding of its inputs. */
  lemma OprfRequestRoundTrip(c: Suite, f: OprfRequestFields, before: OprfRequestFields)
    requires c.Lawful() && OprfRequestToJson(f).Ok? && InRange(c, f.finData.value.blinds)
    ensures OprfRequestFromJson(c, before, OprfRequestToJson(f).value) == (f, None) <==> Consistent(c, f)
  {
    UnhexHexAll(f.inputs);
    ScalarsRoundTrip(c, f.finData.value.blinds);
  }

  /** The blinded elements are there for whoever reads them: they decode to the
      evaluation request of the object. */
  lemma RequestElementsReadBack(c: Suite, f: OprfRequestFields)
    requires c.Lawful() && OprfRequestToJson(f).Ok? && InGroup(c, f.evalReq.value)
    ensures ElementsOf(c, OprfRequestToJson(f).value.evalReqElements) == Loop(f.evalReq.value, None)
  {
    ElementsRoundTrip(c, f.evalReq.value);
  }

  /** The blinded elements of a message make no difference to its reader. */
  lemma ElementsIgnored(c: Suite, before: OprfRequestFields, di: OprfRequestJson, other: seq<string>)
    ensures OprfRequestFromJson(c, before, di) == OprfRequestFromJson(c, before, di.(evalReqElements := other))
  {
  }

  /** Whatever was decoded survives every further round trip unchanged, and
      its encoding is a fixed point. */
  lemma DecodedIsFixedPoint(c: Suite, before: OprfRequestFields, di: OprfRequestJson, again: OprfRequestFields)
    requires c.Lawful() && OprfRequestFromJson(c, before, di).1 == None
    ensures
      var f := OprfRequestFromJson(c, before, di).0;
      var json := OprfRequestToJson(f);
      json.Ok? && OprfRequestFromJson(c, again, json.value) == (f, None)
  {
    var f := OprfRequestFromJson(c, before, di).0;
    ScalarsOfInRange(c, di.blinds);
    OprfRequestRoundTrip(c, f, again);
  }

  // ------------------------------------------------------ the server's evaluation

  function EvaluationFromJson(c: Suite, di: EvaluationJson): (seq<nat>, Option<Error>) {
    var r := ElementsOf(c, di.elements);
    (r.items, r.error)
  }

  class OprfServerEvaluation {
    var eval: seq<nat>

    constructor (eval: seq<nat>)
      ensures this.eval == eval
    {
      this.eval := eval;
    }

    method MarshalJSON() returns (r: EvaluationJson)
      ensures r == EvaluationJson(HexAll(Compressed(eval)))
    {
      var arr := MarshalElements(eval);
      return EvaluationJson(arr);
    }

    method UnmarshalJSON(c: Suite, di: EvaluationJson) returns (err: Option<Error>)
      modifies this
      ensures (eval, err) == EvaluationFromJson(c, di)
    {
      var r := UnmarshalElements(c, di.elements);
      eval := r.items;
      return r.error;
    }
  }

  lemma EvaluationRoundTrip(c: Suite, eval: seq<nat>)
    requires c.Lawful() && InGroup(c, eval)
    ensures EvaluationFromJson(c, EvaluationJson(HexAll(Compressed(eval)))) == (eval, None)
  {
    ElementsRoundTrip(c, eval);
  }

  // --------------------------------------------------------- the registration data

  datatype RegistrationFields = RegistrationFields(
    username: string, appToken: string, envU: Bytes, envUNonce: Bytes, pubU: Bytes, salt: Bytes)

  function RegistrationToJson(f: RegistrationFields): RegistrationJson {
    RegistrationJson(f.username, f.appToken,
      HexEncode(f.envU), HexEncode(f.envUNonce), HexEncode(f.pubU), HexEncode(f.salt))
  }

  /** The fields are assigned one after the other, each even when it fails. */
  function RegistrationFromJson(before: RegistrationFields, di: RegistrationJson): (RegistrationFields, Option<Error>) {
    var envU, envUNonce := HexDecode(di.envU), HexDecode(di.envUNonce);
    var pubU, salt := HexDecode(di.pubU), HexDecode(di.salt);
    var f1 := before.(username := di.username, appToken := di.appToken, envU := envU.bytes);
    if !envU.ok then (f1, Some(BadHex))
    else
      var f2 := f1.(envUNonce := envUNonce.bytes);
      if !envUNonce.ok then (f2, Some(BadHex))
      else
        var f3 := f2.(pubU := pubU.bytes);
        if !pubU.ok then (f3, Some(BadHex))
        else (f3.(salt := salt.bytes), if salt.ok then None else Some(BadHex))
  }

  class PasswordRegistrationData {
    var username: string
    var appToken: string
    var envU: Bytes
    var envUNonce: Bytes
    var pubU: Bytes
    var salt: Bytes

    function Fields(): RegistrationFields
      reads this
    {
      RegistrationFields(username, appToken, envU, envUNonce, pubU, salt)
    }

    constructor (f: RegistrationFields)
      ensures Fields() == f
    {
      username, appToken, envU, envUNonce, pubU, salt := f.username, f.appToken, f.envU, f.envUNonce, f.pubU, f.salt;
    }

    method MarshalJSON() returns (r: RegistrationJson)
      ensures r == RegistrationToJson(Fields())
    {
      return RegistrationJson(username, appToken,
        HexEncode(envU), HexEncode(envUNonce), HexEncode(pubU), HexEncode(salt));
    }

    method UnmarshalJSON(di: RegistrationJson) returns (err: Option<Error>)
      modifies this
      ensures (Fields(), err) == RegistrationFromJson(old(Fields()), di)
    {
      username, appToken := di.username, di.appToken;
      var d := HexDecode(di.envU);
      envU := d.bytes;
      if !d.ok { return Some(BadHex); }
      d := HexDecode(di.envUNonce);
      envUNonce := d.bytes;
      if !d.ok { return Some(BadHex); }
      d := HexDecode(di.pubU);
      pubU := d.bytes;
      if !d.ok { return Some(BadHex); }
      d := HexDecode(di.salt);
      salt := d.bytes;
      if !d.ok { return Some(BadHex); }
      return None;
    }
  }

  lemma RegistrationRoundTrip(f: RegistrationFields, before: RegistrationFields)
    ensures RegistrationFromJson(before, RegistrationToJson(f)) == (f, None)
  {
    HexRoundTrip(f.envU);
    HexRoundTrip(f.envUNonce);
    HexRoundTrip(f.pubU);
    HexRoundTrip(f.salt);
  }

  // --------------------------------------------------------------- the login answer

  datatype LoginFields = LoginFields(eval: seq<nat>, envU: Bytes, envUNonce: Bytes, rwdUSalt: Bytes, authNonce: Bytes)

  function LoginToJson(f: LoginFields): LoginJson {
    LoginJson(HexAll(Compressed(f.eval)),
      HexEncode(f.envU), HexEncode(f.envUNonce), HexEncode(f.rwdUSalt), HexEncode(f.authNonce))
  }

  function LoginFromJson(c: Suite, before: LoginFields, di: LoginJson): (LoginFields, Option<Error>) {
    var elements := ElementsOf(c, di.elements);
    var f0 := before.(eval := elements.items);
    if elements.error.Some? then (f0, elements.error)
    else
      var envU, envUNonce := HexDecode(di.envU), HexDecode(di.envUNonce);
      var rwdUSalt, authNonce := HexDecode(di.rwdUSalt), HexDecode(di.authNonce);
      var f1 := f0.(envU := envU.bytes);
      if !envU.ok then (f1, Some(BadHex))
      else
        var f2 := f1.(envUNonce := envUNonce.bytes);
        if !envUNonce.ok then (f2, Some(BadHex))
        else
          var f3 := f2.(rwdUSalt := rwdUSalt.bytes);
          if !rwdUSalt.ok then (f3, Some(BadHex))
          else (f3.(authNonce := authNonce.bytes), if authNonce.ok then None else Some(BadHex))
  }

  class StartPasswordAuthServerResp {
    var eval: seq<nat>
    var envU: Bytes
    var envUNonce: Bytes
    var rwdUSalt: Bytes
    var authNonce: Bytes

    function Fields(): LoginFields
      reads this
    {
      LoginFields(eval, envU, envUNonce, rwdUSalt, authNonce)
    }

    constructor (f: LoginFields)
      ensures Fields() == f
    {
      eval, envU, envUNonce, rwdUSalt, authNonce := f.eval, f.envU, f.envUNonce, f.rwdUSalt, f.authNonce;
    }

    method MarshalJSON() returns (r: LoginJson)
      ensures r == LoginToJson(Fields())
    {
      var elements := MarshalElements(eval);
      return LoginJson(elements, HexEncode(envU), HexEncode(envUNonce), HexEncode(rwdUSalt), HexEncode(authNonce));
    }

    method UnmarshalJSON(c: Suite, di: LoginJson) returns (err: Option<Error>)
      modifies this
      ensures (Fields(), err) == LoginFromJson(c, old(Fields()), di)
    {
      var elements := UnmarshalElements(c, di.elements);
      eval := elements.items;
      if elements.error.Some? { return elements.error; }
      var d := HexDecode(di.envU);
      envU := d.bytes;
      if !d.ok { return Some(BadHex); }
      d := HexDecode(di.envUNonce);
      envUNonce := d.bytes;
      if !d.ok { return Some(BadHex); }
      d := HexDecode(di.rwdUSalt);
      rwdUSalt := d.bytes;
      if !d.ok { return Some(BadHex); }
      d := HexDecode(di.authNonce);
      authNonce := d.bytes;
      if !d.ok { return Some(BadHex); }
      return None;
    }
  }

  lemma LoginRoundTrip(c: Suite, f: LoginFields, before: LoginFields)
    requires c.Lawful() && InGroup(c, f.eval)
    ensures LoginFromJson(c, before, LoginToJson(f)) == (f, None)
  {
    ElementsRoundTrip(c, f.eval);
    HexRoundTrip(f.envU);
    HexRoundTrip(f.envUNonce);
    HexRoundTrip(f.rwdUSalt);
    HexRoundTrip(f.authNonce);
  }
}
