/** A prime-order subgroup of the units modulo a prime, with exponentiation and
    exponent inverses: the stand-in for P-256 and Curve25519, in which the
    cancellation and commutation the protocol needs are proved, not assumed. */
module Groups {

  ghost predicate IsPrime(n: int) {
    n > 1 && forall d :: 1 < d < n ==> n % d != 0
  }

  // --------------------------------------------------------- modular arithmetic

  lemma RemainderIs(x: int, k: int, m: int, r: int)
    requires 0 <= r < m
    requires x == k * m + r
    ensures x % m == r
  {
    var d := k - x / m;
    assert x == (x / m) * m + x % m;
    assert d * m == x % m - r by {
      assert d * m == k * m - (x / m) * m;
    }
    assert d >= 1 ==> d * m >= m;
    assert d <= -1 ==> d * m <= -m;
  }

  lemma AddMultiple(x: int, k: int, m: int)
    requires m > 0
    ensures (x + k * m) % m == x % m
  {
    assert x + k * m == (x / m + k) * m + x % m;
    RemainderIs(x + k * m, x / m + k, m, x % m);
  }

  lemma MulModRight(a: int, b: int, m: int)
    requires m > 0
    ensures (a * (b % m)) % m == (a * b) % m
  {
    var k := b / m;
    assert b == k * m + b % m;
    assert a * b == a * (b % m) + (a * k) * m by {
      assert a * (k * m) == (a * k) * m;
      assert a * b == a * (k * m + b % m);
    }
    AddMultiple(a * (b % m), a * k, m);
  }

  lemma MulModLeft(a: int, b: int, m: int)
    requires m > 0
    ensures ((a % m) * b) % m == (a * b) % m
  {
    MulModRight(b, a, m);
    assert (a % m) * b == b * (a % m);
    assert a * b == b * a;
  }

  // ------------------------------------------------------------- exponentiation

  function PowMod(x: int, e: nat, m: int): (r: int)
    requires m > 1
    ensures 0 <= r < m
  {
    if e == 0 then 1 else (x * PowMod(x, e - 1, m)) % m
  }

  lemma MulModNested(x: int, a: int, b: int, m: int)
    requires m > 0
    ensures (x * ((a * b) % m)) % m == (((x * a) % m) * b) % m
  {
    MulModRight(x, a * b, m);
    MulModLeft(x * a, b, m);
    assert x * (a * b) == (x * a) * b;
  }

  lemma {:induction false} PowAdd(x: int, a: nat, b: nat, m: int)
    requires m > 1
    ensures PowMod(x, a + b, m) == (PowMod(x, a, m) * PowMod(x, b, m)) % m
  {
    var pb := PowMod(x, b, m);
    if a == 0 {
      RemainderIs(pb, 0, m, pb);
    } else {
      PowAdd(x, a - 1, b, m);
      MulModNested(x, PowMod(x, a - 1, m), pb, m);
      assert (a + b) - 1 == (a - 1) + b;
    }
  }

  lemma {:induction false} PowMul(x: int, a: nat, b: nat, m: int)
    requires m > 1
    ensures PowMod(PowMod(x, a, m), b, m) == PowMod(x, a * b, m)
  {
    if b == 0 {
      assert a * b == 0;
    } else {
      PowMul(x, a, b - 1, m);
      assert a * b == a + a * (b - 1);
      PowAdd(x, a, a * (b - 1), m);
    }
  }

  lemma {:induction false} PowOfOne(e: nat, m: int)
    requires m > 1
    ensures PowMod(1, e, m) == 1
  {
    if e > 0 {
      PowOfOne(e - 1, m);
      RemainderIs(1, 0, m, 1);
    }
  }

  lemma PowOfZero(e: nat, m: int)
    requires m > 1 && e > 0
    ensures PowMod(0, e, m) == 0
  {
    assert 0 * PowMod(0, e - 1, m) == 0;
  }

  lemma {:induction false} PowBase(x: int, e: nat, m: int)
    requires m > 1
    ensures PowMod(x % m, e, m) == PowMod(x, e, m)
  {
    if e > 0 {
      PowBase(x, e - 1, m);
      MulModLeft(x, PowMod(x, e - 1, m), m);
    }
  }

  /** Exponents commute: the heart of Diffie-Hellman. */
  lemma PowCommute(x: int, a: nat, b: nat, m: int)
    requires m > 1
    ensures PowMod(PowMod(x, a, m), b, m) == PowMod(PowMod(x, b, m), a, m)
  {
    PowMul(x, a, b, m);
    PowMul(x, b, a, m);
    assert a * b == b * a;
  }

  // ------------------------------------------------------------- scalar inverse

  datatype Bezout = Bezout(gcd: nat, s: int, t: int)

  /** Extended Euclid: the greatest common divisor as a combination. */
  function ExtendedGcd(a: nat, b: nat): (r: Bezout)
    requires a > 0
    ensures r.gcd == r.s * a + r.t * b
    ensures 0 < r.gcd && a % r.gcd == 0 && b % r.gcd == 0
    decreases b
  {
    if b == 0 then
      Bezout(a, 1, 0)
    else
      var r := ExtendedGcd(b, a % b);
      EuclidStep(a, b, r);
      Bezout(r.gcd, r.t, r.s - r.t * (a / b))
  }

  lemma EuclidStep(a: nat, b: nat, r: Bezout)
    requires b > 0 && r.gcd > 0
    requires r.gcd == r.s * b + r.t * (a % b)
    requires b % r.gcd == 0 && (a % b) % r.gcd == 0
    ensures r.gcd == r.t * a + (r.s - r.t * (a / b)) * b
    ensures a % r.gcd == 0
  {
    var q := a / b;
    assert a == q * b + a % b;
    assert r.t * a == r.t * (q * b) + r.t * (a % b);
    assert r.t * (q * b) == (r.t * q) * b;
    assert (r.s - r.t * q) * b == r.s * b - (r.t * q) * b;
    var g := r.gcd;
    var u, v := b / g, (a % b) / g;
    assert b == u * g && a % b == v * g;
    assert q * (u * g) == (q * u) * g;
    assert a == (q * u + v) * g;
    RemainderIs(a, q * u + v, g, 0);
  }

  /** The inverse of a scalar; the inverse of zero is read as zero. */
  function Inverse(a: nat, q: nat): (r: nat)
    requires q > 1
    ensures r < q
  {
    if a == 0 then 0 else ExtendedGcd(a, q).s % q
  }

  /** A divisor of both a prime and a smaller positive number is 1. */
  lemma CommonDivisorIsOne(a: nat, q: nat, d: nat)
    requires IsPrime(q) && 0 < a < q
    requires d > 0 && a % d == 0 && q % d == 0
    ensures d == 1
  {
    if d > a {
      RemainderIs(a, 0, d, a);
    }
  }

  lemma InverseCancels(a: nat, q: nat)
    requires IsPrime(q) && 0 < a < q
    ensures (a * Inverse(a, q)) % q == 1
  {
    var Bezout(g, s, t) := ExtendedGcd(a, q);
    CommonDivisorIsOne(a, q, g);
    MulModRight(a, s, q);
    assert a * s == 1 + (-t) * q;
    RemainderIs(a * s, -t, q, 1);
  }

  // ------------------------------------------------------------------ the group

  type Modulus = m: nat | m > 1 witness 2

  datatype Group = Group(p: Modulus, q: Modulus) {

    ghost predicate Valid() {
      IsPrime(p) && IsPrime(q) && (p - 1) % q == 0
    }

    /** The elements of order dividing `q`; 1 is the identity. */
    predicate Has(x: int) {
      0 < x < p && PowMod(x, q, p) == 1
    }

    function Mul(x: int, k: nat): int {
      PowMod(x, k, p)
    }
  }

  lemma MulStaysInGroup(g: Group, x: int, k: nat)
    requires g.Valid() && g.Has(x)
    ensures g.Has(g.Mul(x, k))
  {
    var y := g.Mul(x, k);
    PowCommute(x, k, g.q, g.p);
    PowOfOne(k, g.p);
    PowOfZero(g.q, g.p);
  }

  /** Exponents only matter modulo the group order. */
  lemma OrderReduces(g: Group, x: int, r: nat, k: nat)
    requires g.Valid() && g.Has(x)
    ensures g.Mul(x, r + k * g.q) == g.Mul(x, r)
  {
    assert k * g.q == g.q * k;
    PowAdd(x, r, k * g.q, g.p);
    PowMul(x, g.q, k, g.p);
    PowOfOne(k, g.p);
    assert PowMod(x, r, g.p) * 1 == PowMod(x, r, g.p);
    RemainderIs(PowMod(x, r, g.p), 0, g.p, PowMod(x, r, g.p));
  }

  lemma MulByOne(g: Group, x: int)
    requires g.Valid() && g.Has(x)
    ensures g.Mul(x, 1) == x
  {
    assert PowMod(x, 0, g.p) == 1;
    RemainderIs(x * 1, 0, g.p, x);
  }

  lemma QuotientOfOne(n: nat, q: nat) returns (k: nat)
    requires q > 1 && n % q == 1
    ensures n == 1 + k * q
  {
    k := n / q;
  }

  /** Raising to a scalar and then to its inverse is the identity. */
  lemma InverseUndoes(g: Group, x: int, b: nat)
    requires g.Valid() && g.Has(x) && 0 < b < g.q
    ensures g.Mul(g.Mul(x, b), Inverse(b, g.q)) == x
  {
    var i := Inverse(b, g.q);
    InverseCancels(b, g.q);
    PowMul(x, b, i, g.p);
    var k := QuotientOfOne(b * i, g.q);
    OrderReduces(g, x, 1, k);
    MulByOne(g, x);
  }

  /** Blinding vanishes: whatever non-zero blind `b` was used, unblinding the
      evaluation of the blinded element gives the evaluation of the element. */
  lemma BlindingCancels(g: Group, x: int, b: nat, k: nat)
    requires g.Valid() && g.Has(x) && 0 < b < g.q
    ensures g.Mul(g.Mul(g.Mul(x, b), k), Inverse(b, g.q)) == g.Mul(x, k)
  {
    PowCommute(x, b, k, g.p);
    MulStaysInGroup(g, x, k);
    InverseUndoes(g, g.Mul(x, k), b);
  }

  /** A non-zero key acts injectively on the group. */
  lemma MulInjective(g: Group, x: int, y: int, k: nat)
    requires g.Valid() && g.Has(x) && g.Has(y) && 0 < k < g.q
    ensures g.Mul(x, k) == g.Mul(y, k) <==> x == y
  {
    InverseUndoes(g, x, k);
    InverseUndoes(g, y, k);
  }

  /** Neither side loses by multiplying on: equal powers stay equal. */
  lemma PowShift(x: int, a: nat, b: nat, e: nat, m: int)
    requires m > 1 && PowMod(x, a, m) == PowMod(x, b, m)
    ensures PowMod(x, a + e, m) == PowMod(x, b + e, m)
  {
    PowAdd(x, a, e, m);
    PowAdd(x, b, e, m);
  }

  /** Only multiples of the order lead from another element to the identity. */
  lemma OnlyOrderVanishes(g: Group, x: int, d: nat)
    requires g.Valid() && g.Has(x) && x != 1 && 0 < d < g.q
    ensures g.Mul(x, d) != 1
  {
    if g.Mul(x, d) == 1 {
      InverseUndoes(g, x, d);
      PowOfOne(Inverse(d, g.q), g.p);
    }
  }

  /** Any element but the identity tells keys below the order apart. */
  lemma MulSeparates(g: Group, x: int, k: nat, k': nat)
    requires g.Valid() && g.Has(x) && x != 1 && k < g.q && k' < g.q
    ensures g.Mul(x, k) == g.Mul(x, k') <==> k == k'
  {
    if g.Mul(x, k) == g.Mul(x, k') && k != k' {
      var low, high := if k < k' then k else k', if k < k' then k' else k;
      PowShift(x, low, high, g.q - low, g.p);
      assert high + (g.q - low) == (high - low) + 1 * g.q;
      OrderReduces(g, x, high - low, 1);
      OnlyOrderVanishes(g, x, high - low);
    }
  }
}
