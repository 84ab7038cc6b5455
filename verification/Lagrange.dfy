/**
  The Lagrange weights at zero (wire-mesh-threshold `lagrange.rs`) and the
  interpolation law they exist for.

  A polynomial is its coefficient list, constant term first, evaluated exactly
  over the integers; scalars are compared with `Cong`.
 */
module Lagrange {
  import opened Common
  import opened Modular

  function Eval(f: seq<int>, x: int): int {
    if f == [] then 0 else f[0] + x * Eval(f[1..], x)
  }

  /** The quotient of `f` by `X - a`, by Horner's rule. */
  function Quotient(f: seq<int>, a: int): (q: seq<int>)
    ensures |q| == if |f| == 0 then 0 else |f| - 1
  {
    if |f| <= 1 then [] else [Eval(f[1..], a)] + Quotient(f[1..], a)
  }

  lemma {:induction false} QuotientCorrect(f: seq<int>, a: int, x: int)
    ensures Eval(f, x) == Eval(f, a) + (x - a) * Eval(Quotient(f, a), x)
  {
    if |f| > 1 {
      var g := f[1..];
      QuotientCorrect(g, a, x);
      var q := Quotient(g, a);
      assert Quotient(f, a)[1..] == q;
      HornerStep(f[0], a, x, Eval(g, a), Eval(g, x), Eval(q, x));
    } else if |f| == 1 {
      assert f[1..] == [];
    }
  }

  lemma HornerStep(c: int, a: int, x: int, ga: int, gx: int, qx: int)
    requires gx == ga + (x - a) * qx
    ensures c + x * gx == c + a * ga + (x - a) * (ga + x * qx)
  {
    assert x * ((x - a) * qx) == (x - a) * (x * qx);
  }

  /** Identifiers are non-zero canonical scalars (`frost_ed25519::Identifier`). */
  predicate Identifiers(p: int, xs: seq<int>) {
    forall i :: 0 <= i < |xs| ==> 0 < xs[i] < p
  }

  /** The product of the other points: the numerator the loop accumulates. */
  function Numerator(xs: seq<int>, x: int): int {
    if xs == [] then 1
    else
      var y := xs[|xs| - 1];
      Numerator(xs[..|xs| - 1], x) * (if y == x then 1 else y)
  }

  /** The product of the differences to the other points. */
  function Denominator(xs: seq<int>, x: int): int {
    if xs == [] then 1
    else
      var y := xs[|xs| - 1];
      Denominator(xs[..|xs| - 1], x) * (if y == x then 1 else y - x)
  }

  lemma {:induction false} DenominatorNonZero(p: int, xs: seq<int>, x: int)
    requires Prime(p) && Identifiers(p, xs) && 0 < x < p
    ensures !Cong(p, Denominator(xs, x), 0)
  {
    if xs == [] {
      if Cong(p, 1, 0) { ReducedUnique(p, 1, 0); }
    } else {
      var y := xs[|xs| - 1];
      DenominatorNonZero(p, xs[..|xs| - 1], x);
      if y != x {
        DifferenceNonZero(p, y, x);
        NonZeroProduct(p, Denominator(xs[..|xs| - 1], x), y - x);
      }
    }
  }

  lemma DifferenceNonZero(p: int, y: int, x: int)
    requires 0 < p && Reduced(p, x) && Reduced(p, y) && x != y
    ensures !Cong(p, y - x, 0)
  {
    if Cong(p, y - x, 0) {
      CongRefl(p, x);
      CongAdd(p, y - x, 0, x, x);
      ReducedUnique(p, y, x);
    }
  }

  /** The weight of `x` in `xs`; zero where the code would have no inverse. */
  function Weight(p: int, xs: seq<int>, x: int): int
    requires 0 < p
  {
    match Invert(p, Denominator(xs, x))
    case No => 0
    case Yes(r) => (Numerator(xs, x) * r) % p
  }

  /** The weight is the quotient of the two products. */
  lemma WeightLaw(p: int, xs: seq<int>, x: int)
    requires Prime(p) && Identifiers(p, xs) && 0 < x < p
    ensures Cong(p, Denominator(xs, x) * Weight(p, xs, x), Numerator(xs, x))
    ensures Reduced(p, Weight(p, xs, x))
  {
    var d, n := Denominator(xs, x), Numerator(xs, x);
    DenominatorNonZero(p, xs, x);
    InvertCorrect(p, d);
    QuotientLaw(p, n, d, Invert(p, d).value);
  }

  lemma QuotientLaw(p: int, n: int, d: int, r: int)
    requires 0 < p && Cong(p, d * r, 1)
    ensures Cong(p, d * ((n * r) % p), n) && Reduced(p, (n * r) % p)
  {
    CongMod(p, n * r);
    CongScale(p, d, (n * r) % p, n * r);
    CongScale(p, n, d * r, 1);
    assert d * (n * r) == n * (d * r);
    CongTrans(p, d * ((n * r) % p), d * (n * r), n);
  }

  datatype LagrangeError = EmptyIdentifierSet | NotAMember | DuplicatedIdentifier

  /**
    `lagrange_coefficient_at_zero`: one pass over the identifier list,
    accumulating both products and skipping `xi` itself.  The accumulated
    denominator always has an inverse, so `DuplicatedIdentifier` is never
    reported, not even for a list with repeated identifiers.
   */
  method LagrangeCoefficientAtZero(p: int, xs: seq<int>, xi: int) returns (r: Result<int, LagrangeError>)
    requires Prime(p) && Identifiers(p, xs) && 0 < xi < p
    ensures r == Err(EmptyIdentifierSet) <==> xs == []
    ensures r == Err(NotAMember) <==> xs != [] && xi !in xs
    ensures r.Ok? <==> xi in xs
    ensures r.Ok? ==> r.value == Weight(p, xs, xi)
  {
    if |xs| == 0 {
      return Err(EmptyIdentifierSet);
    }
    var num, den, found := 1, 1, false;
    CongRefl(p, 1);
    var k := 0;
    while k < |xs|
      invariant 0 <= k <= |xs|
      invariant found <==> xi in xs[..k]
      invariant Cong(p, num, Numerator(xs[..k], xi))
      invariant Cong(p, den, Denominator(xs[..k], xi))
    {
      assert xs[..k + 1][..k] == xs[..k];
      var xj := xs[k];
      if xj == xi {
        found := true;
      } else {
        MulModStep(p, num, Numerator(xs[..k], xi), xj);
        MulModStep(p, den, Denominator(xs[..k], xi), xj - xi);
        num := (num * xj) % p;
        den := (den * (xj - xi)) % p;
      }
      k := k + 1;
    }
    assert xs[..k] == xs;
    if !found {
      return Err(NotAMember);
    }
    ModEqIffCong(p, den, Denominator(xs, xi));
    DenominatorNonZero(p, xs, xi);
    InvertCorrect(p, Denominator(xs, xi));
    var inverse := Invert(p, den);
    match inverse
    case No =>
      return Err(DuplicatedIdentifier);
    case Yes(v) =>
      CongRefl(p, v);
      CongMul(p, num, Numerator(xs, xi), v, v);
      ModEqIffCong(p, num * v, Numerator(xs, xi) * v);
      return Ok((num * v) % p);
  }

  lemma MulModStep(p: int, a: int, b: int, c: int)
    requires 0 < p && Cong(p, a, b)
    ensures Cong(p, (a * c) % p, b * c)
  {
    CongRefl(p, c);
    CongMul(p, a, b, c, c);
    CongMod(p, a * c);
    CongTrans(p, (a * c) % p, a * c, b * c);
  }

  // --- the interpolation law ------------------------------------------------

  function Sum(g: int -> int, ts: seq<int>): int {
    if ts == [] then 0 else Sum(g, ts[..|ts| - 1]) + g(ts[|ts| - 1])
  }

  /** A pointwise linear relation carries over to the sums. */
  lemma {:induction false} SumCombine(p: int, ts: seq<int>, e: int, g: int -> int, c: int, h: int -> int, d: int, k: int -> int)
    requires forall x :: x in ts ==> Cong(p, e * g(x), c * h(x) - d * k(x))
    ensures Cong(p, e * Sum(g, ts), c * Sum(h, ts) - d * Sum(k, ts))
  {
    if ts == [] {
      CongRefl(p, 0);
    } else {
      var us, x := ts[..|ts| - 1], ts[|ts| - 1];
      SumCombine(p, us, e, g, c, h, d, k);
      CombineStep(p, e, Sum(g, us), g(x), c, Sum(h, us), h(x), d, Sum(k, us), k(x));
    }
  }

  lemma CombineStep(p: int, e: int, g: int, gx: int, c: int, h: int, hx: int, d: int, k: int, kx: int)
    requires Cong(p, e * g, c * h - d * k) && Cong(p, e * gx, c * hx - d * kx)
    ensures Cong(p, e * (g + gx), c * (h + hx) - d * (k + kx))
  {
    CongAdd(p, e * g, c * h - d * k, e * gx, c * hx - d * kx);
    assert e * g + e * gx == e * (g + gx);
    assert c * h - d * k + (c * hx - d * kx) == c * (h + hx) - d * (k + kx);
  }

  /** The weight of each point in `xs`. */
  function Weights(p: int, xs: seq<int>): int -> int
    requires 0 < p
  {
    x => Weight(p, xs, x)
  }

  /** The value of `f` at each point. */
  function Values(f: seq<int>): int -> int {
    x => Eval(f, x)
  }

  function Product(w: int -> int, v: int -> int): int -> int {
    x => w(x) * v(x)
  }

  /** The weighted sum of `f` over the points `ts`, weights taken in `xs`. */
  function WeightedSum(p: int, xs: seq<int>, ts: seq<int>, f: seq<int>): int
    requires 0 < p
  {
    Sum(Product(Weights(p, xs), Values(f)), ts)
  }

  /** How a weight changes when one other point `b` is dropped from the set. */
  lemma WeightWithout(p: int, xs: seq<int>, ys: seq<int>, b: int, x: int)
    requires Prime(p) && Identifiers(p, xs) && Identifiers(p, ys) && 0 < x < p && 0 < b < p && x != b
    requires Numerator(xs, x) == Numerator(ys, x) * b
    requires Denominator(xs, x) == Denominator(ys, x) * (b - x)
    ensures Cong(p, (b - x) * Weight(p, xs, x), b * Weight(p, ys, x))
  {
    WeightLaw(p, xs, x);
    WeightLaw(p, ys, x);
    DenominatorNonZero(p, ys, x);
    CrossCancel(p, Weight(p, xs, x), Weight(p, ys, x), Denominator(ys, x), Numerator(ys, x), b, b - x);
  }

  lemma CrossCancel(p: int, w: int, v: int, d: int, n: int, b: int, c: int)
    requires Prime(p) && !Cong(p, d, 0)
    requires Cong(p, (d * c) * w, n * b) && Cong(p, d * v, n)
    ensures Cong(p, c * w, b * v)
  {
    assert (d * c) * w == d * (c * w);
    CongScale(p, b, d * v, n);
    assert b * (d * v) == d * (b * v);
    assert b * n == n * b;
    CongSym(p, d * (b * v), n * b);
    CongTrans(p, d * (c * w), n * b, d * (b * v));
    CongCancel(p, d, c * w, b * v);
  }

  lemma ProductsAppend(xs: seq<int>, b: int, x: int)
    requires x != b
    ensures Numerator(xs + [b], x) == Numerator(xs, x) * b
    ensures Denominator(xs + [b], x) == Denominator(xs, x) * (b - x)
  {
    assert (xs + [b])[..|xs|] == xs;
  }

  lemma ProductsAppendSelf(xs: seq<int>, x: int)
    ensures Numerator(xs + [x], x) == Numerator(xs, x)
    ensures Denominator(xs + [x], x) == Denominator(xs, x)
  {
    assert (xs + [x])[..|xs|] == xs;
  }

  const ONE: seq<int> := [1]

  lemma EvalOne(x: int)
    ensures Eval(ONE, x) == 1
  {
    assert ONE[1..] == [];
    assert x * Eval(ONE[1..], x) == 0;
  }

  /** Neville's step on one point outside `{a, b}`. */
  lemma NevilleAt(p: int, cs: seq<int>, a: int, b: int, x: int)
    requires Prime(p) && Identifiers(p, cs + [a, b]) && 0 < x < p && x != a && x != b
    ensures Cong(p, (b - a) * Weight(p, cs + [a, b], x),
                 b * Weight(p, cs + [a], x) - a * Weight(p, cs + [b], x))
  {
    var s, sa, sb := cs + [a, b], cs + [a], cs + [b];
    IdentifiersOfPair(p, cs, a, b);
    assert s == sa + [b];
    ProductsAppend(sa, b, x);
    WeightWithout(p, s, sa, b, x);
    ProductsAppend(cs, a, x);
    ProductsAppend(cs, b, x);
    Swap(Numerator(cs, x), a, b);
    Swap(Denominator(cs, x), a - x, b - x);
    WeightWithout(p, s, sb, a, x);
    NevilleSubtract(p, a, b, x, Weight(p, s, x), Weight(p, sa, x), Weight(p, sb, x));
  }

  lemma Swap(n: int, a: int, b: int)
    ensures (n * a) * b == (n * b) * a
  {
  }

  lemma NevilleSubtract(p: int, a: int, b: int, x: int, w: int, wa: int, wb: int)
    requires Cong(p, (b - x) * w, b * wa) && Cong(p, (a - x) * w, a * wb)
    ensures Cong(p, (b - a) * w, b * wa - a * wb)
  {
    CongSub(p, (b - x) * w, b * wa, (a - x) * w, a * wb);
    assert (b - x) * w - (a - x) * w == (b - a) * w;
  }

  lemma IdentifiersOfPair(p: int, cs: seq<int>, a: int, b: int)
    requires Identifiers(p, cs + [a, b])
    ensures Identifiers(p, cs) && 0 < a < p && 0 < b < p
    ensures Identifiers(p, cs + [a]) && Identifiers(p, cs + [b])
  {
    var s := cs + [a, b];
    assert forall i :: 0 <= i < |cs| ==> cs[i] == s[i];
    assert s[|cs|] == a && s[|cs| + 1] == b;
  }

  lemma DistinctOfPair(cs: seq<int>, a: int, b: int)
    requires Distinct(cs + [a, b])
    ensures a != b && a !in cs && b !in cs
    ensures Distinct(cs + [a]) && Distinct(cs + [b])
  {
    var s := cs + [a, b];
    assert forall i :: 0 <= i < |cs| ==> cs[i] == s[i];
    assert s[|cs|] == a && s[|cs| + 1] == b;
  }

  lemma NevilleSum(p: int, cs: seq<int>, a: int, b: int, ts: seq<int>)
    requires Prime(p) && Identifiers(p, cs + [a, b]) && Identifiers(p, ts) && a !in ts && b !in ts
    ensures Cong(p, (b - a) * WeightedSum(p, cs + [a, b], ts, ONE),
                 b * WeightedSum(p, cs + [a], ts, ONE) - a * WeightedSum(p, cs + [b], ts, ONE))
  {
    var w, wa, wb, one := Weights(p, cs + [a, b]), Weights(p, cs + [a]), Weights(p, cs + [b]), Values(ONE);
    forall x | x in ts
      ensures one(x) == 1 && Cong(p, (b - a) * w(x), b * wa(x) - a * wb(x))
    {
      EvalOne(x);
      NevilleAt(p, cs, a, b, x);
    }
    CombineWeights(p, ts, b - a, w, b, wa, a, wb, one);
  }

  lemma CombineWeights(p: int, ts: seq<int>, e: int, w: int -> int, c: int, wa: int -> int, d: int, wb: int -> int,
                       one: int -> int)
    requires forall x :: x in ts ==> one(x) == 1 && Cong(p, e * w(x), c * wa(x) - d * wb(x))
    ensures Cong(p, e * Sum(Product(w, one), ts), c * Sum(Product(wa, one), ts) - d * Sum(Product(wb, one), ts))
  {
    SumCombine(p, ts, e, Product(w, one), c, Product(wa, one), d, Product(wb, one));
  }

  lemma WeightedSumSnoc(p: int, xs: seq<int>, ts: seq<int>, x: int, f: seq<int>)
    requires 0 < p
    ensures WeightedSum(p, xs, ts + [x], f) == WeightedSum(p, xs, ts, f) + Weight(p, xs, x) * Eval(f, x)
  {
    assert (ts + [x])[..|ts|] == ts;
  }

  /** The weights of any non-empty duplicate-free set sum to one. */
  lemma {:induction false} WeightsSumToOne(p: int, xs: seq<int>)
    requires Prime(p) && Identifiers(p, xs) && Distinct(xs) && xs != []
    ensures Cong(p, WeightedSum(p, xs, xs, ONE), 1)
    decreases |xs|
  {
    if |xs| == 1 {
      var x := xs[0];
      assert xs == [] + [x];
      ProductsAppendSelf([], x);
      WeightLaw(p, xs, x);
      EvalOne(x);
      WeightedSumSnoc(p, xs, [], x, ONE);
    } else {
      var n := |xs|;
      var cs, a, b := xs[..n - 2], xs[n - 2], xs[n - 1];
      assert xs == cs + [a, b];
      WeightsSumToOneStep(p, cs, a, b);
    }
  }

  lemma WeightsSumToOneStep(p: int, cs: seq<int>, a: int, b: int)
    requires Prime(p) && Identifiers(p, cs + [a, b]) && Distinct(cs + [a, b])
    ensures Cong(p, WeightedSum(p, cs + [a, b], cs + [a, b], ONE), 1)
    decreases |cs| + 2, 0
  {
    var s, sa, sb := cs + [a, b], cs + [a], cs + [b];
    IdentifiersOfPair(p, cs, a, b);
    DistinctOfPair(cs, a, b);
    WeightsSumToOne(p, sa);
    WeightsSumToOne(p, sb);
    NevilleSum(p, cs, a, b, cs);
    NevilleEnds(p, cs, a, b);
    EvalOne(a);
    EvalOne(b);
    WeightedSumSnoc(p, sa, cs, a, ONE);
    WeightedSumSnoc(p, sb, cs, b, ONE);
    assert s == (cs + [a]) + [b];
    WeightedSumSnoc(p, s, cs + [a], b, ONE);
    WeightedSumSnoc(p, s, cs, a, ONE);
    NevilleTotal(p, a, b, WeightedSum(p, s, cs, ONE), WeightedSum(p, sa, cs, ONE), WeightedSum(p, sb, cs, ONE),
                 Weight(p, s, a), Weight(p, s, b), Weight(p, sa, a), Weight(p, sb, b));
  }

  /** The two points Neville's step is taken on. */
  lemma NevilleEnds(p: int, cs: seq<int>, a: int, b: int)
    requires Prime(p) && Identifiers(p, cs + [a, b]) && a != b
    ensures Cong(p, (b - a) * Weight(p, cs + [a, b], a), b * Weight(p, cs + [a], a))
    ensures Cong(p, (a - b) * Weight(p, cs + [a, b], b), a * Weight(p, cs + [b], b))
  {
    var s, sa, sb := cs + [a, b], cs + [a], cs + [b];
    IdentifiersOfPair(p, cs, a, b);
    assert s == sa + [b];
    ProductsAppend(sa, b, a);
    WeightWithout(p, s, sa, b, a);
    ProductsAppendSelf(sa, b);
    ProductsAppend(cs, a, b);
    ProductsAppendSelf(cs, b);
    WeightWithout(p, s, sb, a, b);
  }

  lemma NevilleTotal(p: int, a: int, b: int, u: int, ua: int, ub: int, wa: int, wb: int, va: int, vb: int)
    requires Prime(p) && 0 < a < p && 0 < b < p && a != b
    requires Cong(p, (b - a) * u, b * ua - a * ub)
    requires Cong(p, (b - a) * wa, b * va)
    requires Cong(p, (a - b) * wb, a * vb)
    requires Cong(p, ua + va, 1) && Cong(p, ub + vb, 1)
    ensures Cong(p, u + wa + wb, 1)
  {
    CongAdd(p, (b - a) * u, b * ua - a * ub, (b - a) * wa, b * va);
    CongSub(p, (b - a) * u + (b - a) * wa, b * ua - a * ub + b * va, (a - b) * wb, a * vb);
    assert (b - a) * u + (b - a) * wa - (a - b) * wb == (b - a) * (u + wa + wb);
    assert b * ua - a * ub + b * va - a * vb == b * (ua + va) - a * (ub + vb);
    CongScale(p, b, ua + va, 1);
    CongScale(p, a, ub + vb, 1);
    CongSub(p, b * (ua + va), b * 1, a * (ub + vb), a * 1);
    assert b * 1 - a * 1 == (b - a) * 1;
    CongTrans(p, (b - a) * (u + wa + wb), b * (ua + va) - a * (ub + vb), (b - a) * 1);
    DifferenceNonZero(p, b, a);
    CongCancel(p, b - a, u + wa + wb, 1);
  }

  /** Dividing `f` by `X - b` splits the weighted sum over the points other than `b`. */
  lemma SplitSum(p: int, xs: seq<int>, b: int, ts: seq<int>, f: seq<int>, q: seq<int>, fb: int)
    requires Prime(p) && Identifiers(p, xs + [b]) && Identifiers(p, ts) && b !in ts
    requires forall x :: x in ts ==> DividedAt(Values(f), fb, b, Values(q), x)
    ensures Cong(p, 1 * WeightedSum(p, xs + [b], ts, f),
                 fb * WeightedSum(p, xs + [b], ts, ONE) - b * WeightedSum(p, xs, ts, q))
  {
    forall x | x in ts
      ensures Values(ONE)(x) == 1
    {
      EvalOne(x);
    }
    WeightsDrop(p, xs, b, ts);
    SplitWeights(p, ts, b, fb, Weights(p, xs + [b]), Weights(p, xs), Values(f), Values(q), Values(ONE));
  }

  lemma ValuesDivide(f: seq<int>, b: int, ts: seq<int>)
    ensures forall x :: x in ts ==> DividedAt(Values(f), Eval(f, b), b, Values(Quotient(f, b)), x)
  {
    forall x | x in ts
      ensures DividedAt(Values(f), Eval(f, b), b, Values(Quotient(f, b)), x)
    {
      QuotientCorrect(f, b, x);
    }
  }

  ghost predicate DividedAt(f: int -> int, fb: int, b: int, q: int -> int, x: int) {
    f(x) == fb + (x - b) * q(x)
  }

  lemma WeightsDrop(p: int, xs: seq<int>, b: int, ts: seq<int>)
    requires Prime(p) && Identifiers(p, xs + [b]) && Identifiers(p, ts) && b !in ts
    ensures forall x :: x in ts ==> Cong(p, (b - x) * Weights(p, xs + [b])(x), b * Weights(p, xs)(x))
  {
    var s := xs + [b];
    assert Identifiers(p, xs) && 0 < b < p by {
      assert forall i :: 0 <= i < |xs| ==> xs[i] == s[i];
      assert s[|xs|] == b;
    }
    forall x | x in ts
      ensures Cong(p, (b - x) * Weights(p, s)(x), b * Weights(p, xs)(x))
    {
      ProductsAppend(xs, b, x);
      WeightWithout(p, s, xs, b, x);
    }
  }

  lemma SplitWeights(p: int, ts: seq<int>, b: int, fb: int, w: int -> int, v: int -> int,
                     f: int -> int, q: int -> int, one: int -> int)
    requires forall x :: x in ts ==> one(x) == 1
    requires forall x :: x in ts ==> DividedAt(f, fb, b, q, x)
    requires forall x :: x in ts ==> Cong(p, (b - x) * w(x), b * v(x))
    ensures Cong(p, 1 * Sum(Product(w, f), ts), fb * Sum(Product(w, one), ts) - b * Sum(Product(v, q), ts))
  {
    forall x | x in ts
      ensures Cong(p, 1 * Product(w, f)(x), fb * Product(w, one)(x) - b * Product(v, q)(x))
    {
      SplitAlgebra(p, b, x, w(x), v(x), fb, q(x));
    }
    SumCombine(p, ts, 1, Product(w, f), fb, Product(w, one), b, Product(v, q));
  }

  lemma SplitAlgebra(p: int, b: int, x: int, w: int, v: int, fb: int, qx: int)
    requires Cong(p, (b - x) * w, b * v)
    ensures Cong(p, 1 * (w * (fb + (x - b) * qx)), fb * (w * 1) - b * (v * qx))
  {
    CongScale(p, qx, (b - x) * w, b * v);
    assert qx * (b * v) == b * (v * qx);
    CongRefl(p, fb * w);
    CongSub(p, fb * w, fb * w, qx * ((b - x) * w), b * (v * qx));
    assert w * ((x - b) * qx) == -(qx * ((b - x) * w));
    assert w * (fb + (x - b) * qx) == fb * w + w * ((x - b) * qx);
  }

  /**
    Interpolation at zero: for every duplicate-free list of identifiers and
    every polynomial of degree below its length, the weighted sum of the values
    is the constant term.
   */
  lemma {:induction false} InterpolationAtZero(p: int, xs: seq<int>, f: seq<int>)
    requires Prime(p) && Identifiers(p, xs) && Distinct(xs) && |f| <= |xs|
    ensures Cong(p, WeightedSum(p, xs, xs, f), Eval(f, 0))
    decreases |xs|
  {
    if xs == [] {
      CongRefl(p, 0);
    } else {
      var n := |xs|;
      var ys, b := xs[..n - 1], xs[n - 1];
      assert xs == ys + [b];
      assert Identifiers(p, ys) && Distinct(ys) && b !in ys;
      var q, fb := Quotient(f, b), Eval(f, b);
      InterpolationAtZero(p, ys, q);
      ValuesDivide(f, b, ys);
      SplitSum(p, ys, b, ys, f, q, fb);
      WeightsSumToOne(p, xs);
      EvalOne(b);
      WeightedSumSnoc(p, xs, ys, b, f);
      WeightedSumSnoc(p, xs, ys, b, ONE);
      InterpolationTotal(p, b, fb, WeightedSum(p, xs, ys, f), WeightedSum(p, xs, ys, ONE),
                         WeightedSum(p, ys, ys, q), Weight(p, xs, b), Eval(q, 0));
      QuotientCorrect(f, b, 0);
    }
  }

  lemma InterpolationTotal(p: int, b: int, fb: int, u: int, u1: int, uq: int, w: int, q0: int)
    requires Cong(p, u, fb * u1 - b * uq) && Cong(p, u1 + w, 1) && Cong(p, uq, q0)
    ensures Cong(p, u + w * fb, fb + (0 - b) * q0)
  {
    CongRefl(p, w * fb);
    CongAdd(p, u, fb * u1 - b * uq, w * fb, w * fb);
    assert fb * u1 - b * uq + w * fb == fb * (u1 + w) - b * uq;
    CongScale(p, fb, u1 + w, 1);
    CongScale(p, b, uq, q0);
    CongSub(p, fb * (u1 + w), fb * 1, b * uq, b * q0);
    assert fb * 1 - b * q0 == fb + (0 - b) * q0;
    CongTrans(p, u + w * fb, fb * (u1 + w) - b * uq, fb * 1 - b * q0);
  }

  /** Any two large enough point sets reconstruct the same value. */
  lemma SubsetsAgree(p: int, xs: seq<int>, ys: seq<int>, f: seq<int>)
    requires Prime(p) && Identifiers(p, xs) && Distinct(xs) && |f| <= |xs|
    requires Identifiers(p, ys) && Distinct(ys) && |f| <= |ys|
    ensures Cong(p, WeightedSum(p, xs, xs, f), WeightedSum(p, ys, ys, f))
  {
    InterpolationAtZero(p, xs, f);
    InterpolationAtZero(p, ys, f);
    CongSym(p, WeightedSum(p, ys, ys, f), Eval(f, 0));
    CongTrans(p, WeightedSum(p, xs, xs, f), Eval(f, 0), WeightedSum(p, ys, ys, f));
  }
}
