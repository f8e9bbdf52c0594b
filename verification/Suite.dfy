/** The cryptographic suite: the library primitives as parameters with their
    laws, and on top of them X25519, HKDF, the element and scalar encodings
    and the oblivious pseudorandom function. */
module Suite {
  import opened Encoding
  import opened Groups

  datatype Error =
    | InvalidInput        // the OPRF library refuses a list of inputs and blinds
    | LengthMismatch      // evaluation and request have different lengths
    | BadScalar           // bytes that are no scalar
    | BadElement          // bytes that are no group element
    | BadHex              // text that is no hexadecimal string
    | AuthenticationFailed // AES-GCM refuses to open
    | NoSharedKey         // X25519 refuses a low-order point
    | StorageFailed       // the database fails or has no such value
    | NotAuthenticated    // the session token is refused
    | Panicked            // the program would stop with a run-time panic

  datatype Result<+T> = Ok(value: T) | Err(error: Error)

  type Block = b: Bytes | |b| == 32 witness Zeros(32)

  /** `oprf` stands in for P-256 and `dh` for Curve25519; the functions are the
      libraries', known only through `Lawful`. */
  datatype Suite = Suite(
    oprf: Group,
    dh: Group,
    dhBase: nat,
    oprfTag: Bytes,
    hashToGroup: (Bytes, Bytes) -> nat,
    outputHash: Bytes -> Bytes,
    argon2: (Bytes, Bytes) -> Block,
    hmac: (Bytes, Bytes) -> Block,
    seal: (Bytes, Bytes, Bytes) -> Bytes,
    open: (Bytes, Bytes, Bytes) -> Option<Bytes>
  ) {

    /** What the protocol relies on: the groups are groups that fit their
        encodings, hashing lands in the group, and opening undoes sealing. */
    ghost predicate Lawful() {
      && oprf.Valid() && Fits(oprf.p, 32) && Fits(oprf.q, 32)
      && dh.Valid() && Fits(2 * dh.p, 32) && dh.Has(dhBase)
      && (forall m: Bytes, d: Bytes :: oprf.Has(hashToGroup(m, d)))
      && (forall k: Bytes, n: Bytes, m: Bytes :: open(k, n, seal(k, n, m)) == Some(m))
    }

    /** The symbolic reading of authenticated encryption, used only where a
        rejection is claimed: at most one key of a length opens a message. */
    ghost predicate Committing() {
      forall k: Bytes, k': Bytes, n: Bytes, s: Bytes ::
        |k'| == |k| && open(k, n, s).Some? && open(k', n, s).Some? ==> k' == k
    }
  }

  function Ascii(s: string): Bytes {
    seq(|s|, i requires 0 <= i < |s| => (s[i] as int) % 256)
  }

  // --------------------------------------------------------------------- X25519

  /** Section 5 of RFC 7748: clear the low three bits, clear the top bit and
      set the one below it. */
  function Clamp(priv: Block): nat {
    FromLittleEndian([priv[0] - priv[0] % 8] + priv[1..31] + [priv[31] % 64 + 64])
  }

  function DecodePoint(pub: Block): nat {
    FromLittleEndian(pub[..31] + [pub[31] % 128])
  }

  function KeyGen(c: Suite, priv: Block): Block {
    ToLittleEndian(c.dh.Mul(c.dhBase, Clamp(priv)), 32)
  }

  /** No shared key comes of a low-order point. */
  function SharedKey(c: Suite, priv: Block, pub: Block): Option<Block> {
    var point := c.dh.Mul(DecodePoint(pub), Clamp(priv));
    if point <= 1 then None else Some(ToLittleEndian(point, 32))
  }

  /** Clearing the top bit of a key does nothing to a small enough point. */
  lemma MaskedRoundTrip(point: nat)
    requires Fits(2 * point, 32)
    ensures DecodePoint(ToLittleEndian(point, 32)) == point
  {
    var pub := ToLittleEndian(point, 32);
    FitsMonotone(point, 2 * point, 32, 32);
    LittleEndianRoundTrip(point, 32);
    LittleEndianTopByte(point, 32);
    assert pub[31] % 128 == pub[31];
    assert pub[..31] + [pub[31]] == pub;
  }

  lemma PointRoundTrip(c: Suite, priv: Block)
    requires c.Lawful()
    ensures DecodePoint(KeyGen(c, priv)) == c.dh.Mul(c.dhBase, Clamp(priv))
  {
    var point := c.dh.Mul(c.dhBase, Clamp(priv));
    FitsMonotone(2 * point, 2 * c.dh.p, 32, 32);
    MaskedRoundTrip(point);
  }

  /** Section 6.1 of RFC 7748: each side gets the same key from its private key
      and the other's public key, or both get none. */
  lemma DiffieHellmanAgrees(c: Suite, a: Block, b: Block)
    requires c.Lawful()
    ensures SharedKey(c, a, KeyGen(c, b)) == SharedKey(c, b, KeyGen(c, a))
  {
    PointRoundTrip(c, a);
    PointRoundTrip(c, b);
    PowCommute(c.dhBase, Clamp(a), Clamp(b), c.dh.p);
  }

  /** The clamped key keeps all bits of the private key but the low three, the top
      one, which it clears, and the one below that, which it sets. */
  lemma ClampedBits(priv: Block)
    ensures
      var b := ToLittleEndian(Clamp(priv), 32);
      && b[0] % 8 == 0 && b[0] / 8 == priv[0] / 8
      && (forall i :: 1 <= i < 31 ==> b[i] == priv[i])
      && 64 <= b[31] < 128 && b[31] % 64 == priv[31] % 64
  {
    LittleEndianBack([priv[0] - priv[0] % 8] + priv[1..31] + [priv[31] % 64 + 64]);
  }

  /** A point is read with its top bit cleared and all others as they are. */
  lemma ReadPointBits(pub: Block)
    ensures
      var b := ToLittleEndian(DecodePoint(pub), 32);
      (forall i :: 0 <= i < 31 ==> b[i] == pub[i]) && b[31] < 128 && b[31] % 128 == pub[31] % 128
  {
    LittleEndianBack(pub[..31] + [pub[31] % 128]);
  }

  lemma PointIsRead(c: Suite, x: nat)
    requires c.Lawful() && c.dh.Has(x)
    ensures DecodePoint(ToLittleEndian(x, 32)) == x
  {
    FitsMonotone(2 * x, 2 * c.dh.p, 32, 32);
    MaskedRoundTrip(x);
  }

  /** Multiplying by an exponent is multiplying by its remainder. */
  lemma MulByRemainder(g: Group, x: int, n: nat)
    requires g.Valid() && g.Has(x)
    ensures g.Mul(x, n) == g.Mul(x, n % g.q)
  {
    OrderReduces(g, x, n % g.q, n / g.q);
    assert n == n % g.q + n / g.q * g.q;
  }

  lemma RefusedExactly(c: Suite, a: Block, x: nat)
    requires c.Lawful() && c.dh.Has(x)
    ensures SharedKey(c, a, ToLittleEndian(x, 32)).None? <==> x == 1 || Clamp(a) % c.dh.q == 0
  {
    PointIsRead(c, x);
    MulByRemainder(c.dh, x, Clamp(a));
    MulStaysInGroup(c.dh, x, Clamp(a));
    if x == 1 {
      PowOfOne(Clamp(a), c.dh.p);
    } else if Clamp(a) % c.dh.q != 0 {
      OnlyOrderVanishes(c.dh, x, Clamp(a) % c.dh.q);
    }
  }

  /** With one private key different public keys give different shared keys. */
  lemma SharedKeysTellPoints(c: Suite, a: Block, x: nat, y: nat)
    requires c.Lawful() && c.dh.Has(x) && c.dh.Has(y) && Clamp(a) % c.dh.q != 0
    ensures SharedKey(c, a, ToLittleEndian(x, 32)) == SharedKey(c, a, ToLittleEndian(y, 32)) <==> x == y
  {
    RefusedExactly(c, a, x);
    RefusedExactly(c, a, y);
    if SharedKey(c, a, ToLittleEndian(x, 32)) == SharedKey(c, a, ToLittleEndian(y, 32)) {
      if x != 1 {
        SharedPointsAreSame(c, a, x, y);
      }
    }
  }

  lemma SharedPointsAreSame(c: Suite, a: Block, x: nat, y: nat)
    requires c.Lawful() && c.dh.Has(x) && c.dh.Has(y) && Clamp(a) % c.dh.q != 0
    requires SharedKey(c, a, ToLittleEndian(x, 32)).Some?
    requires SharedKey(c, a, ToLittleEndian(x, 32)) == SharedKey(c, a, ToLittleEndian(y, 32))
    ensures x == y
  {
    PointIsRead(c, x);
    PointIsRead(c, y);
    MulStaysInGroup(c.dh, x, Clamp(a));
    MulStaysInGroup(c.dh, y, Clamp(a));
    PointIsRead(c, c.dh.Mul(x, Clamp(a)));
    PointIsRead(c, c.dh.Mul(y, Clamp(a)));
    MulByRemainder(c.dh, x, Clamp(a));
    MulByRemainder(c.dh, y, Clamp(a));
    MulInjective(c.dh, x, y, Clamp(a) % c.dh.q);
  }

  /** With one public key private keys give the same shared key if and only if
      they are the same modulo the order. */
  lemma SharedKeysTellKeys(c: Suite, a: Block, b: Block, x: nat)
    requires c.Lawful() && c.dh.Has(x) && x != 1
    ensures SharedKey(c, a, ToLittleEndian(x, 32)) == SharedKey(c, b, ToLittleEndian(x, 32)) <==>
      Clamp(a) % c.dh.q == Clamp(b) % c.dh.q
  {
    RefusedExactly(c, a, x);
    RefusedExactly(c, b, x);
    PointIsRead(c, x);
    MulStaysInGroup(c.dh, x, Clamp(a));
    MulStaysInGroup(c.dh, x, Clamp(b));
    PointIsRead(c, c.dh.Mul(x, Clamp(a)));
    PointIsRead(c, c.dh.Mul(x, Clamp(b)));
    MulByRemainder(c.dh, x, Clamp(a));
    MulByRemainder(c.dh, x, Clamp(b));
    MulSeparates(c.dh, x, Clamp(a) % c.dh.q, Clamp(b) % c.dh.q);
  }

  // ----------------------------------------------------------------------- HKDF

  /** Sections 2.2 and 2.3 of RFC 5869 with empty info and at most one block. */
  function Hkdf(c: Suite, secret: Bytes, salt: Option<Bytes>, n: nat): (okm: Bytes)
    requires n <= 32
    ensures |okm| == n
  {
    var prk := c.hmac(if salt.None? then Zeros(32) else salt.value, secret);
    c.hmac(prk, [1])[..n]
  }

  /** The two authentication codes at hand collide only for the same arguments. */
  ghost predicate NoMacCollision(c: Suite, k: Bytes, m: Bytes, k': Bytes, m': Bytes) {
    c.hmac(k, m) == c.hmac(k', m') ==> k == k' && m == m'
  }

  /** Neither do the extraction and the expansion of two derivations. */
  ghost predicate NoKeyCollision(c: Suite, secret: Bytes, salt: Bytes, secret': Bytes, salt': Bytes) {
    && NoMacCollision(c, salt, secret, salt', secret')
    && NoMacCollision(c, c.hmac(salt, secret), [1], c.hmac(salt', secret'), [1])
  }

  /** A derived key tells both its secret and its salt. */
  lemma DerivedKeysTell(c: Suite, secret: Bytes, salt: Bytes, secret': Bytes, salt': Bytes)
    requires NoKeyCollision(c, secret, salt, secret', salt')
    ensures Hkdf(c, secret, Some(salt), 32) == Hkdf(c, secret', Some(salt'), 32) <==> secret == secret' && salt == salt'
  {
    var prk, prk' := c.hmac(salt, secret), c.hmac(salt', secret');
    assert Hkdf(c, secret, Some(salt), 32) == c.hmac(prk, [1]);
    assert Hkdf(c, secret', Some(salt'), 32) == c.hmac(prk', [1]);
  }

  /** Without a salt it is that of 32 zeros, and a shorter key is the beginning of
      a longer one. */
  lemma DerivedKeyForms(c: Suite, secret: Bytes, salt: Option<Bytes>, n: nat)
    requires n <= 32
    ensures Hkdf(c, secret, None, n) == Hkdf(c, secret, Some(Zeros(32)), n)
    ensures Hkdf(c, secret, salt, n) <= Hkdf(c, secret, salt, 32)
  {
  }

  // --------------------------------------------------------- elements and scalars

  function MarshalScalar(k: nat): (b: Bytes)
    ensures |b| == 32
  {
    ToBigEndian(k, 32)
  }

  function UnmarshalScalar(c: Suite, b: Bytes): (r: Result<nat>)
    ensures r.Ok? ==> r.value < c.oprf.q
  {
    if |b| == 32 then Ok(FromBigEndian(b) % c.oprf.q) else Err(BadScalar)
  }

  lemma ScalarRoundTrip(c: Suite, k: nat)
    requires c.Lawful() && k < c.oprf.q
    ensures UnmarshalScalar(c, MarshalScalar(k)) == Ok(k)
  {
    FitsMonotone(k, c.oprf.q, 32, 32);
    BigEndianRoundTrip(k, 32);
    RemainderIs(k, 0, c.oprf.q, k);
  }

  function MarshalElement(x: nat): Bytes {
    if x == 1 then [0] else [4] + ToBigEndian(x, 64)
  }

  function MarshalCompress(x: nat): Bytes {
    if x == 1 then [0] else [2] + ToBigEndian(x, 32)
  }

  /** Either form is read; what is read must lie in the group. */
  function UnmarshalElement(c: Suite, b: Bytes): (r: Result<nat>)
    ensures r.Ok? ==> c.oprf.Has(r.value) || r.value == 1
  {
    if b == [0] then Ok(1)
    else if (|b| == 33 && b[0] == 2) || (|b| == 65 && b[0] == 4) then
      var x := FromBigEndian(b[1..]);
      if c.oprf.Has(x) then Ok(x) else Err(BadElement)
    else Err(BadElement)
  }

  lemma ElementRoundTrip(c: Suite, x: nat)
    requires c.Lawful() && c.oprf.Has(x)
    ensures UnmarshalElement(c, MarshalCompress(x)) == Ok(x)
  {
    if x != 1 {
      FitsMonotone(x, c.oprf.p, 32, 32);
      BigEndianRoundTrip(x, 32);
      assert MarshalCompress(x)[1..] == ToBigEndian(x, 32);
    }
  }

  lemma LongElementRoundTrip(c: Suite, x: nat)
    requires c.Lawful() && c.oprf.Has(x)
    ensures UnmarshalElement(c, MarshalElement(x)) == Ok(x)
  {
    if x != 1 {
      FitsMonotone(x, c.oprf.p, 32, 64);
      BigEndianRoundTrip(x, 64);
      assert MarshalElement(x)[1..] == ToBigEndian(x, 64);
    }
  }

  lemma CompressInjective(c: Suite, x: nat, y: nat)
    requires c.Lawful() && c.oprf.Has(x) && c.oprf.Has(y)
    requires MarshalCompress(x) == MarshalCompress(y)
    ensures x == y
  {
    ElementRoundTrip(c, x);
    ElementRoundTrip(c, y);
  }

  /** The written-out forms of a group element, in 32 or in 64 bytes. */
  ghost predicate IsFormOf(b: Bytes, x: nat) {
    b == [2] + ToBigEndian(x, 32) || b == [4] + ToBigEndian(x, 64)
  }

  /** What is read as an element: just the identity's own byte and the two forms of
      the elements of the group, as that element. */
  lemma ReadsElementsExactly(c: Suite, b: Bytes, x: nat)
    requires c.Lawful()
    ensures UnmarshalElement(c, b) == Ok(x) <==> (b == [0] && x == 1) || (c.oprf.Has(x) && IsFormOf(b, x))
  {
    if UnmarshalElement(c, b) == Ok(x) && b != [0] {
      BigEndianBack(b[1..]);
      assert b == [b[0]] + b[1..];
    }
    if c.oprf.Has(x) && IsFormOf(b, x) {
      FitsMonotone(x, c.oprf.p, 32, 32);
      FitsMonotone(x, c.oprf.p, 32, 64);
      BigEndianRoundTrip(x, |b| - 1);
      assert b[1..] == ToBigEndian(x, |b| - 1);
    }
  }

  /** Just 32 bytes are read as a scalar, up to a multiple of the order; below the
      order it is the one written. */
  lemma ReadScalarIsWritten(c: Suite, b: Bytes)
    ensures UnmarshalScalar(c, b).Ok? <==> |b| == 32
    ensures |b| == 32 ==> exists m: nat :: FromBigEndian(b) == UnmarshalScalar(c, b).value + m * c.oprf.q
    ensures |b| == 32 && FromBigEndian(b) < c.oprf.q ==> MarshalScalar(UnmarshalScalar(c, b).value) == b
  {
    if |b| == 32 {
      var m: nat := FromBigEndian(b) / c.oprf.q;
      assert FromBigEndian(b) == UnmarshalScalar(c, b).value + m * c.oprf.q;
    }
    if |b| == 32 && FromBigEndian(b) < c.oprf.q {
      BigEndianBack(b);
      RemainderIs(FromBigEndian(b), 0, c.oprf.q, FromBigEndian(b));
    }
  }

  // ------------------------------------------------------------------- the OPRF

  datatype FinalizeData = FinalizeData(inputs: seq<Bytes>, blinds: seq<nat>, evalReq: seq<nat>)

  function HashInput(c: Suite, input: Bytes): nat {
    c.hashToGroup(input, c.oprfTag)
  }

  /** Blind of section 3.3.1 of RFC 9497 on lists, with the blinds given. */
  function DeterministicBlind(c: Suite, inputs: seq<Bytes>, blinds: seq<nat>): (r: Result<FinalizeData>)
    ensures r.Ok? ==> r.value.inputs == inputs && r.value.blinds == blinds
    ensures r.Ok? ==> |inputs| == |blinds| == |r.value.evalReq| > 0
  {
    if |inputs| == 0 || |inputs| != |blinds| || exists i :: 0 <= i < |inputs| && HashInput(c, inputs[i]) == 1 then
      Err(InvalidInput)
    else
      Ok(FinalizeData(inputs, blinds,
        seq(|inputs|, i requires 0 <= i < |inputs| => c.oprf.Mul(HashInput(c, inputs[i]), blinds[i]))))
  }

  /** Which lists can be blinded, and to what: just those of one positive length none
      of whose inputs hashes to the identity. */
  lemma BlindsExactly(c: Suite, inputs: seq<Bytes>, blinds: seq<nat>)
    ensures DeterministicBlind(c, inputs, blinds).Ok? <==>
      0 < |inputs| == |blinds| && forall i :: 0 <= i < |inputs| ==> c.hashToGroup(inputs[i], c.oprfTag) != 1
    ensures DeterministicBlind(c, inputs, blinds).Ok? ==>
      forall i :: 0 <= i < |inputs| ==>
        DeterministicBlind(c, inputs, blinds).value.evalReq[i]
          == c.oprf.Mul(c.hashToGroup(inputs[i], c.oprfTag), blinds[i])
  {
    assert forall i :: 0 <= i < |inputs| ==> HashInput(c, inputs[i]) == c.hashToGroup(inputs[i], c.oprfTag);
  }

  ghost predicate SameElements(c: Suite, inputs: seq<Bytes>, inputs': seq<Bytes>)
    requires |inputs| == |inputs'|
  {
    forall i :: 0 <= i < |inputs| ==> c.hashToGroup(inputs[i], c.oprfTag) == c.hashToGroup(inputs'[i], c.oprfTag)
  }

  /** With the same blinds two requests are the same if and only if their inputs hash
      to the same elements. */
  lemma RequestsTellInputs(c: Suite, inputs: seq<Bytes>, inputs': seq<Bytes>, blinds: seq<nat>)
    requires c.Lawful() && NonZeroScalars(c, blinds)
    requires DeterministicBlind(c, inputs, blinds).Ok? && DeterministicBlind(c, inputs', blinds).Ok?
    ensures |inputs| == |inputs'|
    ensures
      DeterministicBlind(c, inputs, blinds).value.evalReq == DeterministicBlind(c, inputs', blinds).value.evalReq <==>
        SameElements(c, inputs, inputs')
  {
    var e := DeterministicBlind(c, inputs, blinds).value.evalReq;
    var e' := DeterministicBlind(c, inputs', blinds).value.evalReq;
    BlindsExactly(c, inputs, blinds);
    BlindsExactly(c, inputs', blinds);
    forall i | 0 <= i < |inputs|
      ensures e[i] == e'[i] <==> c.hashToGroup(inputs[i], c.oprfTag) == c.hashToGroup(inputs'[i], c.oprfTag)
    {
      MulInjective(c.oprf, c.hashToGroup(inputs[i], c.oprfTag), c.hashToGroup(inputs'[i], c.oprfTag), blinds[i]);
    }
  }

  lemma OneRequestTells(c: Suite, input: Bytes, input': Bytes, blind: nat)
    requires c.Lawful() && 0 < blind < c.oprf.q
    requires DeterministicBlind(c, [input], [blind]).Ok? && DeterministicBlind(c, [input'], [blind]).Ok?
    ensures
      var e := DeterministicBlind(c, [input], [blind]).value.evalReq;
      var e' := DeterministicBlind(c, [input'], [blind]).value.evalReq;
      e == e' <==> c.hashToGroup(input, c.oprfTag) == c.hashToGroup(input', c.oprfTag)
  {
    var a, b := [input], [input'];
    RequestsTellInputs(c, a, b, [blind]);
    assert SameElements(c, a, b) <==> c.hashToGroup(a[0], c.oprfTag) == c.hashToGroup(b[0], c.oprfTag);
  }

  /** BlindEvaluate of section 3.3.1 of RFC 9497. */
  function Evaluate(c: Suite, k: nat, elements: seq<nat>): (r: seq<nat>)
    ensures |r| == |elements|
  {
    seq(|elements|, i requires 0 <= i < |elements| => c.oprf.Mul(elements[i], k))
  }

  predicate InGroup(c: Suite, elements: seq<nat>) {
    forall i :: 0 <= i < |elements| ==> c.oprf.Has(elements[i])
  }

  function Compressed(elements: seq<nat>): (r: seq<Bytes>)
    ensures |r| == |elements|
  {
    seq(|elements|, i requires 0 <= i < |elements| => MarshalCompress(elements[i]))
  }

  /** Under a non-zero key the encoded evaluations of two requests are the same
      only when the requests are. */
  lemma EvaluationsDiscriminate(c: Suite, k: nat, xs: seq<nat>, ys: seq<nat>)
    requires c.Lawful() && 0 < k < c.oprf.q && InGroup(c, xs) && InGroup(c, ys)
    ensures Compressed(Evaluate(c, k, xs)) == Compressed(Evaluate(c, k, ys)) <==> xs == ys
  {
    var es, fs := Evaluate(c, k, xs), Evaluate(c, k, ys);
    if Compressed(es) == Compressed(fs) {
      assert |xs| == |Compressed(es)| == |ys|;
      forall i | 0 <= i < |xs| ensures xs[i] == ys[i] {
        assert Compressed(es)[i] == Compressed(fs)[i];
        MulStaysInGroup(c.oprf, xs[i], k);
        MulStaysInGroup(c.oprf, ys[i], k);
        CompressInjective(c, es[i], fs[i]);
        MulInjective(c.oprf, xs[i], ys[i], k);
      }
    }
  }

  function LengthPrefixed(b: Bytes): Bytes {
    ToBigEndian(|b|, 2) + b
  }

  /** The bytes hashed into an output. */
  function HashFrame(input: Bytes, element: Bytes): Bytes {
    LengthPrefixed(input) + (LengthPrefixed(element) + Ascii("Finalize"))
  }

  const FINALIZE_LABEL: Bytes := [70, 105, 110, 97, 108, 105, 122, 101]

  /** What a length-prefixed part followed by more is read as. */
  lemma PrefixParses(b: Bytes, rest: Bytes)
    requires Fits(|b|, 2)
    ensures
      var f := LengthPrefixed(b) + rest;
      |f| == 2 + |b| + |rest| && FromBigEndian(f[..2]) == |b| && f[2..2 + |b|] == b && f[2 + |b|..] == rest
  {
    BigEndianRoundTrip(|b|, 2);
    var f := LengthPrefixed(b) + rest;
    assert f[..2] == ToBigEndian(|b|, 2);
  }

  lemma LabelBytes()
    ensures Ascii("Finalize") == FINALIZE_LABEL
  {
  }

  /** How a frame is taken apart again: two length-prefixed parts and the label. */
  lemma FrameParses(input: Bytes, element: Bytes)
    requires Fits(|input|, 2) && Fits(|element|, 2)
    ensures
      var f := HashFrame(input, element);
      |f| >= 2 + |input| && FromBigEndian(f[..2]) == |input| && f[2..2 + |input|] == input
    ensures
      var g := HashFrame(input, element)[2 + |input|..];
      && |g| >= 2 + |element| && FromBigEndian(g[..2]) == |element|
      && g[2..2 + |element|] == element && g[2 + |element|..] == FINALIZE_LABEL
  {
    LabelBytes();
    PrefixParses(input, LengthPrefixed(element) + Ascii("Finalize"));
    PrefixParses(element, Ascii("Finalize"));
  }

  function OutputOf(c: Suite, input: Bytes, element: nat): Bytes {
    c.outputHash(HashFrame(input, MarshalCompress(element)))
  }

  /** Finalize of section 3.3.1 of RFC 9497. */
  function Finalize(c: Suite, fin: FinalizeData, eval: seq<nat>): Result<seq<Bytes>> {
    if |fin.inputs| != |fin.blinds| || |fin.evalReq| != |fin.blinds| || |eval| != |fin.blinds| then
      Err(LengthMismatch)
    else
      Ok(seq(|eval|, i requires 0 <= i < |eval| =>
        OutputOf(c, fin.inputs[i], c.oprf.Mul(eval[i], Inverse(fin.blinds[i], c.oprf.q)))))
  }

  /** Which evaluations can be finalized: just those of the length of everything else. */
  lemma FinalizesExactly(c: Suite, fin: FinalizeData, eval: seq<nat>)
    ensures Finalize(c, fin, eval).Ok? <==> |fin.inputs| == |fin.blinds| == |fin.evalReq| == |eval|
    ensures Finalize(c, fin, eval).Ok? ==> |Finalize(c, fin, eval).value| == |eval|
  {
  }

  /** The function the oblivious run computes, with no blinding in it. */
  function Prf(c: Suite, k: nat, input: Bytes): Bytes {
    OutputOf(c, input, c.oprf.Mul(HashInput(c, input), k))
  }

  predicate NonZeroScalars(c: Suite, ks: seq<nat>) {
    forall i :: 0 <= i < |ks| ==> 0 < ks[i] < c.oprf.q
  }

  /** The oblivious run computes the plain function for lists of any length,
      so no trace of the blinds is left in its outputs. */
  lemma ObliviousRunComputesPrf(c: Suite, k: nat, inputs: seq<Bytes>, blinds: seq<nat>)
    requires c.Lawful() && NonZeroScalars(c, blinds)
    requires DeterministicBlind(c, inputs, blinds).Ok?
    ensures
      var fin := DeterministicBlind(c, inputs, blinds).value;
      var r := Finalize(c, fin, Evaluate(c, k, fin.evalReq));
      r.Ok? && r.value == seq(|inputs|, i requires 0 <= i < |inputs| => Prf(c, k, inputs[i]))
  {
    var fin := DeterministicBlind(c, inputs, blinds).value;
    var r := Finalize(c, fin, Evaluate(c, k, fin.evalReq));
    forall i | 0 <= i < |inputs|
      ensures r.value[i] == Prf(c, k, inputs[i])
    {
      BlindingCancels(c.oprf, HashInput(c, inputs[i]), blinds[i], k);
    }
  }

  /** Registration and login blind with different scalars and yet agree. */
  lemma BlindingVanishes(c: Suite, k: nat, inputs: seq<Bytes>, blinds: seq<nat>, blinds': seq<nat>)
    requires c.Lawful() && NonZeroScalars(c, blinds) && NonZeroScalars(c, blinds')
    requires DeterministicBlind(c, inputs, blinds).Ok? && DeterministicBlind(c, inputs, blinds').Ok?
    ensures
      var fin := DeterministicBlind(c, inputs, blinds).value;
      var fin' := DeterministicBlind(c, inputs, blinds').value;
      Finalize(c, fin, Evaluate(c, k, fin.evalReq)) == Finalize(c, fin', Evaluate(c, k, fin'.evalReq))
  {
    ObliviousRunComputesPrf(c, k, inputs, blinds);
    ObliviousRunComputesPrf(c, k, inputs, blinds');
  }

  lemma LengthPrefixInjective(a: Bytes, x: Bytes, b: Bytes, y: Bytes)
    requires Fits(|a|, 2) && Fits(|b|, 2)
    requires LengthPrefixed(a) + x == LengthPrefixed(b) + y
    ensures a == b && x == y
  {
    var f, g := LengthPrefixed(a) + x, LengthPrefixed(b) + y;
    assert f[..2] == ToBigEndian(|a|, 2) && g[..2] == ToBigEndian(|b|, 2);
    BigEndianRoundTrip(|a|, 2);
    BigEndianRoundTrip(|b|, 2);
    assert f[2..2 + |a|] == a && g[2..2 + |b|] == b;
    assert f[2 + |a|..] == x && g[2 + |b|..] == y;
  }

  /** The framing loses nothing, up to the two-byte length limit. */
  lemma HashFrameInjective(i: Bytes, e: Bytes, i': Bytes, e': Bytes)
    requires Fits(|i|, 2) && Fits(|e|, 2) && Fits(|i'|, 2) && Fits(|e'|, 2)
    requires HashFrame(i, e) == HashFrame(i', e')
    ensures i == i' && e == e'
  {
    var t := Ascii("Finalize");
    LengthPrefixInjective(i, LengthPrefixed(e) + t, i', LengthPrefixed(e') + t);
    LengthPrefixInjective(e, t, e', t);
  }

  // ----------------------------------------------------- the laws are satisfiable

  /** A suite that keeps every law, so that nothing proved from them is empty:
      the order-3 subgroup modulo 7 and a cipher whose tag is its key. */
  /** Groups of order 3, hashing that goes by length, and outputs kept as they are. */
  ghost predicate Small(c: Suite) {
    && c.dh == Group(7, 3) && c.dhBase == 2 && c.oprf.q == 3
    && (forall m: Bytes, d: Bytes :: c.hashToGroup(m, d) == if |m| % 2 == 0 then 2 else 4)
    && (forall m: Bytes :: c.outputHash(m) == m)
    && (forall k: Bytes, m: Bytes :: c.hmac(k, m) == Fit32(m + k))
  }

  lemma LawfulSuiteExists() returns (c: Suite)
    ensures c.Lawful() && c.Committing() && Small(c)
  {
    var g := Group(7, 3);
    var zero: Block := Zeros(32);
    c := Suite(g, g, 2, [],
      (m: Bytes, d: Bytes) => if |m| % 2 == 0 then 2 else 4,
      (m: Bytes) => m,
      (x: Bytes, s: Bytes) => zero,
      (k: Bytes, m: Bytes) => Fit32(m + k),
      (k: Bytes, n: Bytes, m: Bytes) => m + k,
      (k: Bytes, n: Bytes, s: Bytes) =>
        if |s| >= |k| && s[|s| - |k|..] == k then Some(s[..|s| - |k|]) else None);
    assert Fits(14, 1) by { assert Fits(0, 0); }
    FitsMonotone(14, 14, 1, 32);
    FitsMonotone(7, 14, 1, 32);
    FitsMonotone(3, 14, 1, 32);
    SmallGroupValid();
    forall k: Bytes, n: Bytes, m: Bytes ensures c.open(k, n, c.seal(k, n, m)) == Some(m) {
      assert (m + k)[|m|..] == k && (m + k)[..|m|] == m;
    }
  }

  lemma SmallGroupValid()
    ensures Group(7, 3).Valid() && Group(7, 3).Has(2) && Group(7, 3).Has(4)
  {
    forall d | 1 < d < 7 ensures 7 % d != 0 {
      assert d == 2 || d == 3 || d == 4 || d == 5 || d == 6;
    }
    assert PowMod(2, 2, 7) == 4;
    assert PowMod(4, 1, 7) == 4 && PowMod(4, 2, 7) == 2;
  }
}
