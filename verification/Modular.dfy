/**
  Arithmetic in the scalar field Z_p, p prime, without axioms.

  Scalars are integers; equality in the field is `Cong(p, a, b)`.  Canonical
  representatives lie in `0 <= x < p`.  Inverses come from the extended
  Euclidean algorithm.
 */
module Modular {
  import opened Common

  /** `k` witnesses that `p` divides `a - b`. */
  ghost predicate Multiple(k: int, p: int, a: int, b: int) {
    a - b == k * p
  }

  /** `a` and `b` are the same scalar. */
  ghost predicate Cong(p: int, a: int, b: int) {
    exists k :: Multiple(k, p, a, b)
  }

  ghost predicate Prime(p: int) {
    2 <= p && forall d :: 1 < d < p ==> p % d != 0
  }

  predicate Reduced(p: int, x: int) {
    0 <= x < p
  }

  lemma CongRefl(p: int, a: int)
    ensures Cong(p, a, a)
  {
    assert Multiple(0, p, a, a);
  }

  lemma CongSym(p: int, a: int, b: int)
    requires Cong(p, a, b)
    ensures Cong(p, b, a)
  {
    var k :| Multiple(k, p, a, b);
    assert (-k) * p == -(k * p);
    assert Multiple(-k, p, b, a);
  }

  lemma CongTrans(p: int, a: int, b: int, c: int)
    requires Cong(p, a, b) && Cong(p, b, c)
    ensures Cong(p, a, c)
  {
    var k :| Multiple(k, p, a, b);
    var m :| Multiple(m, p, b, c);
    assert (k + m) * p == k * p + m * p;
    assert Multiple(k + m, p, a, c);
  }

  lemma CongAdd(p: int, a: int, b: int, c: int, d: int)
    requires Cong(p, a, b) && Cong(p, c, d)
    ensures Cong(p, a + c, b + d)
  {
    var k :| Multiple(k, p, a, b);
    var m :| Multiple(m, p, c, d);
    assert (k + m) * p == k * p + m * p;
    assert Multiple(k + m, p, a + c, b + d);
  }

  lemma CongSub(p: int, a: int, b: int, c: int, d: int)
    requires Cong(p, a, b) && Cong(p, c, d)
    ensures Cong(p, a - c, b - d)
  {
    var k :| Multiple(k, p, a, b);
    var m :| Multiple(m, p, c, d);
    assert (k - m) * p == k * p - m * p;
    assert Multiple(k - m, p, a - c, b - d);
  }

  lemma CongScale(p: int, c: int, a: int, b: int)
    requires Cong(p, a, b)
    ensures Cong(p, c * a, c * b)
  {
    var k :| Multiple(k, p, a, b);
    calc {
      c * a - c * b;
      c * (a - b);
      c * (k * p);
      (c * k) * p;
    }
    assert Multiple(c * k, p, c * a, c * b);
  }

  lemma CongMul(p: int, a: int, b: int, c: int, d: int)
    requires Cong(p, a, b) && Cong(p, c, d)
    ensures Cong(p, a * c, b * d)
  {
    CongScale(p, c, a, b);
    CongScale(p, b, c, d);
    assert c * a == a * c && c * b == b * c;
    CongTrans(p, a * c, b * c, b * d);
  }

  /** Reduction picks a representative of the same scalar. */
  lemma CongMod(p: int, a: int)
    requires 0 < p
    ensures Cong(p, a % p, a) && Cong(p, a, a % p) && Reduced(p, a % p)
  {
    assert Multiple(a / p, p, a, a % p) by { assert a == p * (a / p) + a % p; }
    CongSym(p, a, a % p);
  }

  lemma MagnitudeAtLeast(k: int, p: int)
    requires 0 < p
    ensures k >= 1 ==> k * p >= p
    ensures k <= -1 ==> k * p <= -p
  {
  }

  /** Reduced representatives are unique. */
  lemma ReducedUnique(p: int, a: int, b: int)
    requires 0 < p && Reduced(p, a) && Reduced(p, b) && Cong(p, a, b)
    ensures a == b
  {
    var k :| Multiple(k, p, a, b);
    MagnitudeAtLeast(k, p);
  }

  lemma ModEqIffCong(p: int, a: int, b: int)
    requires 0 < p
    ensures a % p == b % p <==> Cong(p, a, b)
  {
    CongMod(p, a);
    CongMod(p, b);
    if a % p == b % p {
      CongTrans(p, a, a % p, b);
    }
    if Cong(p, a, b) {
      CongTrans(p, a % p, a, b);
      CongTrans(p, a % p, b, b % p);
      ReducedUnique(p, a % p, b % p);
    }
  }

  // --- inverses ------------------------------------------------------------

  /** Extended Euclid: `(g, x, y)` with `a*x + b*y == g`, `g` dividing both. */
  function ExtendedGcd(a: nat, b: nat): (r: (nat, int, int))
    ensures a * r.1 + b * r.2 == r.0
    decreases b
  {
    if b == 0 then (a, 1, 0)
    else
      var (g, x, y) := ExtendedGcd(b, a % b);
      assert a * y + b * (x - (a / b) * y) == g by { BezoutStep(a, b, a / b, a % b, x, y, g); }
      (g, y, x - (a / b) * y)
  }

  lemma BezoutStep(a: int, b: int, q: int, r: int, x: int, y: int, g: int)
    requires a == b * q + r && b * x + r * y == g
    ensures a * y + b * (x - q * y) == g
  {
    assert a * y == (b * q) * y + r * y;
    assert b * (x - q * y) == b * x - b * (q * y);
    assert b * (q * y) == (b * q) * y;
  }

  lemma {:induction false} GcdDivides(a: nat, b: nat)
    ensures Cong(ExtendedGcd(a, b).0, a, 0) && Cong(ExtendedGcd(a, b).0, b, 0)
    decreases b
  {
    var g := ExtendedGcd(a, b).0;
    if b == 0 {
      assert Multiple(1, g, a, 0);
      assert Multiple(0, g, b, 0);
    } else {
      GcdDivides(b, a % b);
      CongScale(g, a / b, b, 0);
      CongAdd(g, (a / b) * b, (a / b) * 0, a % b, 0);
      assert a == (a / b) * b + a % b;
      assert (a / b) * 0 + 0 == 0;
    }
  }

  /** A prime shares no factor with a non-zero residue. */
  lemma PrimeGcd(p: int, a: int)
    requires Prime(p) && 0 < a < p
    ensures ExtendedGcd(p, a).0 == 1
  {
    var g := ExtendedGcd(p, a).0;
    GcdDivides(p, a);
    var k :| Multiple(k, g, p, 0);
    var m :| Multiple(m, g, a, 0);
    assert g != 0;
    MagnitudeAtLeast(m, g);
    assert p % g == 0 by {
      MultipleMod(k, g);
    }
  }

  lemma {:induction false} MultipleMod(k: int, g: int)
    requires g > 0
    ensures (k * g) % g == 0
  {
    CongMod(g, k * g);
    assert Multiple(k, g, k * g, 0);
    CongTrans(g, (k * g) % g, k * g, 0);
    ReducedUnique(g, (k * g) % g, 0);
  }

  /** `Scalar::invert`: `No` exactly for the zero scalar. */
  function Invert(p: int, d: int): (r: Opt<int>)
    requires 0 < p
  {
    if d % p == 0 then No else Yes(ExtendedGcd(p, d % p).2 % p)
  }

  lemma InvertCorrect(p: int, d: int)
    requires Prime(p)
    ensures Invert(p, d).No? <==> Cong(p, d, 0)
    ensures Invert(p, d).Yes? ==> Reduced(p, Invert(p, d).value) && Cong(p, d * Invert(p, d).value, 1)
  {
    ModEqIffCong(p, d, 0);
    MultipleMod(0, p);
    if d % p != 0 {
      var a := d % p;
      PrimeGcd(p, a);
      var x, y := ExtendedGcd(p, a).1, ExtendedGcd(p, a).2;
      assert p * x == x * p;
      assert Multiple(-x, p, a * y, 1) by { assert (-x) * p == -(x * p); }
      CongMod(p, d);
      CongMod(p, y);
      CongMul(p, d, a, y % p, y);
      CongTrans(p, d * (y % p), a * y, 1);
    }
  }

  /** Cancellation by a non-zero scalar. */
  lemma CongCancel(p: int, d: int, a: int, b: int)
    requires Prime(p) && !Cong(p, d, 0) && Cong(p, d * a, d * b)
    ensures Cong(p, a, b)
  {
    InvertCorrect(p, d);
    var r := Invert(p, d).value;
    CongUnscale(p, d, r, a);
    CongUnscale(p, d, r, b);
    CongScale(p, r, d * a, d * b);
    CongSym(p, r * (d * a), a);
    CongTrans(p, a, r * (d * a), r * (d * b));
    CongTrans(p, a, r * (d * b), b);
  }

  lemma CongUnscale(p: int, d: int, r: int, a: int)
    requires Cong(p, d * r, 1)
    ensures Cong(p, r * (d * a), a)
  {
    CongScale(p, a, d * r, 1);
    assert a * (d * r) == r * (d * a);
    assert a * 1 == a;
  }

  /** The field has no zero divisors. */
  lemma NonZeroProduct(p: int, a: int, b: int)
    requires Prime(p) && !Cong(p, a, 0) && !Cong(p, b, 0)
    ensures !Cong(p, a * b, 0)
  {
    if Cong(p, a * b, 0) {
      assert a * 0 == 0;
      CongCancel(p, a, b, 0);
    }
  }
}
