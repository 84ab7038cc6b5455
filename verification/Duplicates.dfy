/**
  The weight loop never reports a duplicated identifier: equal entries are
  skipped before they reach the denominator.  What it then computes: every
  device still deals once, with the weight the loop gives it in the list with
  duplicates.  Proved: exactly when those weights interpolate, and that the
  takeover check refuses a reshare exactly where they do not.
 */
module Duplicates {
  import opened Common
  import opened Modular
  import opened Lagrange
  import opened Groups
  import opened Reshare
  import opened ReshareProofs

  // --- a polynomial with given roots ---------------------------------------------------------

  /** `c + (X - r) * f`. */
  function MulLinear(f: seq<int>, r: int, c: int): (g: seq<int>)
    ensures |g| == |f| + 1
  {
    if f == [] then [c] else [c - r * f[0]] + MulLinear(f[1..], r, f[0])
  }

  lemma {:induction false} MulLinearEval(f: seq<int>, r: int, c: int, x: int)
    ensures Eval(MulLinear(f, r, c), x) == c + (x - r) * Eval(f, x)
  {
    if f == [] {
      assert [c][1..] == [];
    } else {
      var rest := MulLinear(f[1..], r, f[0]);
      MulLinearEval(f[1..], r, f[0], x);
      assert MulLinear(f, r, c)[1..] == rest;
      LinearStep(c, r, f[0], x, Eval(f[1..], x));
    }
  }

  lemma LinearStep(c: int, r: int, a: int, x: int, g: int)
    ensures (c - r * a) + x * (a + (x - r) * g) == c + (x - r) * (a + x * g)
  {
    assert x * ((x - r) * g) == (x - r) * (x * g);
  }

  /** The polynomial with exactly the given roots. */
  function Vanishing(xs: seq<int>): (f: seq<int>)
    ensures |f| == |xs| + 1
  {
    if xs == [] then [1] else MulLinear(Vanishing(xs[1..]), xs[0], 0)
  }

  lemma {:induction false} VanishingRoot(xs: seq<int>, x: int)
    requires x in xs
    ensures Eval(Vanishing(xs), x) == 0
  {
    MulLinearEval(Vanishing(xs[1..]), xs[0], 0, x);
    if x != xs[0] { VanishingRoot(xs[1..], x); }
  }

  lemma VanishingStep(xs: seq<int>, a: int)
    ensures xs == [] ==> Eval(Vanishing(xs), a) == 1
    ensures xs != [] ==> Eval(Vanishing(xs), a) == (a - xs[0]) * Eval(Vanishing(xs[1..]), a)
  {
    if xs == [] {
      assert [1][1..] == [];
    } else {
      MulLinearEval(Vanishing(xs[1..]), xs[0], 0, a);
      hide Eval;
    }
  }

  lemma {:induction false} VanishingElsewhere(p: int, xs: seq<int>, a: int)
    requires Prime(p) && Identifiers(p, xs) && 0 < a < p && a !in xs
    ensures !Cong(p, Eval(Vanishing(xs), a), 0)
  {
    hide Eval, Vanishing, Cong, Prime;
    VanishingStep(xs, a);
    if xs == [] {
      NotMultiple(p, 1);
    } else {
      VanishingElsewhere(p, xs[1..], a);
      assert 0 < xs[0] < p && xs[0] != a;
      DifferenceNonZero(p, a, xs[0]);
      NonZeroProduct(p, a - xs[0], Eval(Vanishing(xs[1..]), a));
    }
  }

  lemma NotMultiple(p: int, x: int)
    requires 0 < x < p
    ensures !Cong(p, x, 0)
  {
    if Cong(p, x, 0) { ReducedUnique(p, x, 0); }
  }

  // --- sums ----------------------------------------------------------------------------------------

  lemma {:induction false} SumOfZeros(g: int -> int, ts: seq<int>)
    requires forall x :: x in ts ==> g(x) == 0
    ensures Sum(g, ts) == 0
  {
    if ts != [] {
      var x := ts[|ts| - 1];
      SumOfZeros(g, ts[..|ts| - 1]);
      assert x in ts;
      assert g(x) == 0;
    }
  }

  /** One point can be taken out of a sum. */
  lemma {:induction false} SumWithout(g: int -> int, ts: seq<int>, i: nat)
    requires i < |ts|
    ensures Sum(g, ts) == Sum(g, ts[..i] + ts[i + 1..]) + g(ts[i])
  {
    var n := |ts| - 1;
    var rest := ts[..i] + ts[i + 1..];
    if i == n {
      assert rest == ts[..n];
    } else {
      var front := ts[..n];
      SumWithout(g, front, i);
      assert rest[..|rest| - 1] == front[..i] + front[i + 1..];
      assert rest[|rest| - 1] == ts[n] && front[i] == ts[i];
    }
  }

  predicate SameElements(ts: seq<int>, us: seq<int>) {
    (forall x :: x in ts ==> x in us) && (forall x :: x in us ==> x in ts)
  }

  /** The sum over distinct points does not depend on their order. */
  lemma {:induction false} SumAnyOrder(g: int -> int, ts: seq<int>, us: seq<int>)
    requires Distinct(ts) && Distinct(us) && SameElements(ts, us)
    ensures Sum(g, ts) == Sum(g, us)
    decreases |ts|
  {
    if us != [] { NotEmpty(ts, us); }
    if ts != [] {
      var n := |ts| - 1;
      var x := ts[n];
      assert x in ts;
      assert x in us;
      var i :| 0 <= i < |us| && us[i] == x;
      var rest := us[..i] + us[i + 1..];
      RestSame(ts, us, i);
      SumAnyOrder(g, ts[..n], rest);
      SumWithout(g, us, i);
    }
  }

  lemma NotEmpty(ts: seq<int>, us: seq<int>)
    requires SameElements(ts, us) && us != []
    ensures ts != []
  {
    var x := us[0];
    assert x in us;
    assert x in ts;
  }

  lemma RestSame(ts: seq<int>, us: seq<int>, i: nat)
    requires Distinct(ts) && Distinct(us) && SameElements(ts, us) && ts != [] && i < |us| && us[i] == ts[|ts| - 1]
    ensures Distinct(ts[..|ts| - 1]) && Distinct(us[..i] + us[i + 1..])
    ensures SameElements(ts[..|ts| - 1], us[..i] + us[i + 1..])
  {
    var n := |ts| - 1;
    var rest := us[..i] + us[i + 1..];
    forall x | x in ts[..n]
      ensures x in rest
    {
      var j :| 0 <= j < n && ts[j] == x;
      assert ts[j] != ts[n] && ts[j] in us;
      InRest(us, i, x);
    }
    forall x | x in rest
      ensures x in ts[..n]
    {
      var k :| 0 <= k < |rest| && rest[k] == x;
      assert x == us[if k < i then k else k + 1];
      assert x in ts && x != ts[n];
      var j :| 0 <= j < |ts| && ts[j] == x;
      assert ts[..n][j] == x;
    }
  }

  lemma InRest(us: seq<int>, i: nat, x: int)
    requires i < |us| && x in us && x != us[i]
    ensures x in us[..i] + us[i + 1..]
  {
    var k :| 0 <= k < |us| && us[k] == x;
    assert (us[..i] + us[i + 1..])[if k < i then k else k - 1] == x;
  }

  lemma {:induction false} SumSame(g: int -> int, h: int -> int, ts: seq<int>)
    requires forall x :: x in ts ==> g(x) == h(x)
    ensures Sum(g, ts) == Sum(h, ts)
  {
    if ts != [] {
      var x := ts[|ts| - 1];
      SumSame(g, h, ts[..|ts| - 1]);
      assert x in ts;
      assert g(x) == h(x);
    }
  }

  // --- the weights a list with repeats gives ------------------------------------------------------------

  /** The identifiers of a list, each once. */
  function Firsts(xs: seq<int>): seq<int> {
    if xs == [] then []
    else
      var front, x := xs[..|xs| - 1], xs[|xs| - 1];
      if x in front then Firsts(front) else Firsts(front) + [x]
  }

  /** The entries that repeat an earlier one. */
  function Repeats(xs: seq<int>): seq<int> {
    if xs == [] then []
    else
      var front, x := xs[..|xs| - 1], xs[|xs| - 1];
      if x in front then Repeats(front) + [x] else Repeats(front)
  }

  lemma {:induction false} FirstsOnce(xs: seq<int>)
    ensures Distinct(Firsts(xs)) && SameElements(Firsts(xs), xs)
  {
    if xs != [] {
      var front, x := xs[..|xs| - 1], xs[|xs| - 1];
      FirstsOnce(front);
      assert xs == front + [x];
    }
  }

  lemma {:induction false} RepeatsAmong(xs: seq<int>)
    ensures forall x :: x in Repeats(xs) ==> x in xs
  {
    if xs != [] { RepeatsAmong(xs[..|xs| - 1]); }
  }

  lemma IdentifiersAmong(p: int, xs: seq<int>, ys: seq<int>)
    requires Identifiers(p, xs) && forall y :: y in ys ==> y in xs
    ensures Identifiers(p, ys)
  {
    forall i | 0 <= i < |ys|
      ensures 0 < ys[i] < p
    {
      assert ys[i] in ys;
    }
  }

  lemma ListParts(p: int, xs: seq<int>)
    requires Identifiers(p, xs)
    ensures Identifiers(p, Firsts(xs)) && Identifiers(p, Repeats(xs))
    ensures Distinct(Firsts(xs)) && SameElements(Firsts(xs), xs)
  {
    FirstsOnce(xs);
    RepeatsAmong(xs);
    IdentifiersAmong(p, xs, Firsts(xs));
    IdentifiersAmong(p, xs, Repeats(xs));
  }

  lemma ProductsStep(xs: seq<int>, y: int, x: int)
    ensures Numerator(xs + [y], x) == Numerator(xs, x) * (if y == x then 1 else y)
    ensures Denominator(xs + [y], x) == Denominator(xs, x) * (if y == x then 1 else y - x)
  {
    assert (xs + [y])[..|xs|] == xs;
  }

  /** The loop's products are those of the identifiers times those of the repeats. */
  lemma {:induction false} ProductsSplit(xs: seq<int>, x: int)
    ensures Numerator(xs, x) == Numerator(Firsts(xs), x) * Numerator(Repeats(xs), x)
    ensures Denominator(xs, x) == Denominator(Firsts(xs), x) * Denominator(Repeats(xs), x)
  {
    if xs != [] {
      hide Numerator, Denominator;
      var front, y := xs[..|xs| - 1], xs[|xs| - 1];
      ProductsSplit(front, x);
      assert xs == front + [y];
      ProductsStep(front, y, x);
      ProductsStep(Repeats(front), y, x);
      ProductsStep(Firsts(front), y, x);
      MoveFactor(Numerator(Firsts(front), x), Numerator(Repeats(front), x), if y == x then 1 else y);
      MoveFactor(Denominator(Firsts(front), x), Denominator(Repeats(front), x), if y == x then 1 else y - x);
    }
  }

  lemma MoveFactor(a: int, b: int, c: int)
    ensures (a * b) * c == a * (b * c) && (a * b) * c == (a * c) * b
  {
  }

  lemma {:induction false} NumeratorNonZero(p: int, xs: seq<int>, x: int)
    requires Prime(p) && Identifiers(p, xs)
    ensures !Cong(p, Numerator(xs, x), 0)
  {
    if xs == [] {
      NotMultiple(p, 1);
    } else {
      var front, y := xs[..|xs| - 1], xs[|xs| - 1];
      NumeratorNonZero(p, front, x);
      if y != x {
        NotMultiple(p, y);
        NonZeroProduct(p, Numerator(front, x), y);
      }
    }
  }

  /** The weight of an identifier is unharmed exactly when the repeats' two products are congruent. */
  lemma WeightUnharmedIff(p: int, xs: seq<int>, x: int)
    requires Prime(p) && Identifiers(p, xs) && 0 < x < p
    ensures Weight(p, xs, x) == Weight(p, Firsts(xs), x) <==>
            Cong(p, Numerator(Repeats(xs), x), Denominator(Repeats(xs), x))
  {
    var ys, rs := Firsts(xs), Repeats(xs);
    ListParts(p, xs);
    ProductsSplit(xs, x);
    WeightLaw(p, xs, x);
    WeightLaw(p, ys, x);
    DenominatorNonZero(p, xs, x);
    NumeratorNonZero(p, ys, x);
    var w, v, n, m, d, e := Weight(p, xs, x), Weight(p, ys, x), Numerator(ys, x), Numerator(rs, x), Denominator(ys, x), Denominator(rs, x);
    hide Weight, Numerator, Denominator, Firsts, Repeats;
    if w == v {
      SameWeight(p, w, n, m, d, e);
    }
    if Cong(p, m, e) {
      SameProducts(p, w, v, n, m, d, e);
      ReducedUnique(p, w, v);
    }
  }

  lemma SameWeight(p: int, w: int, n: int, m: int, d: int, e: int)
    requires Prime(p) && !Cong(p, n, 0) && Cong(p, (d * e) * w, n * m) && Cong(p, d * w, n)
    ensures Cong(p, m, e)
  {
    CongScale(p, e, d * w, n);
    assert e * (d * w) == (d * e) * w && e * n == n * e;
    CongSym(p, (d * e) * w, n * m);
    CongTrans(p, n * m, (d * e) * w, n * e);
    CongCancel(p, n, m, e);
  }

  lemma SameProducts(p: int, w: int, v: int, n: int, m: int, d: int, e: int)
    requires Prime(p) && !Cong(p, d * e, 0) && Cong(p, (d * e) * w, n * m) && Cong(p, d * v, n) && Cong(p, m, e)
    ensures Cong(p, w, v)
  {
    CongScale(p, n, m, e);
    CongTrans(p, (d * e) * w, n * m, n * e);
    CongScale(p, e, d * v, n);
    assert e * (d * v) == (d * e) * v && e * n == n * e;
    CongSym(p, (d * e) * v, n * e);
    CongTrans(p, (d * e) * w, n * e, (d * e) * v);
    CongCancel(p, d * e, w, v);
  }

  // --- when they interpolate -------------------------------------------------------------------------------

  /** Each identifier dealing once, with its weight in `xs`, gives the value of `f` at zero. */
  ghost predicate InterpolatesAt(p: int, xs: seq<int>, f: seq<int>)
    requires 0 < p
  {
    Cong(p, WeightedSum(p, xs, Firsts(xs), f), Eval(f, 0))
  }

  /** The repeats leave every weight as it should be: something a caller can compute. */
  predicate Harmless(p: int, xs: seq<int>)
    requires 0 < p
  {
    forall x :: x in xs ==> Numerator(Repeats(xs), x) % p == Denominator(Repeats(xs), x) % p
  }

  predicate WeightsUnharmed(p: int, xs: seq<int>)
    requires 0 < p
  {
    forall x :: x in xs ==> Weight(p, xs, x) == Weight(p, Firsts(xs), x)
  }

  lemma HarmlessIff(p: int, xs: seq<int>)
    requires Prime(p) && Identifiers(p, xs)
    ensures Harmless(p, xs) <==> WeightsUnharmed(p, xs)
  {
    forall x | x in xs
      ensures Numerator(Repeats(xs), x) % p == Denominator(Repeats(xs), x) % p <==> Weight(p, xs, x) == Weight(p, Firsts(xs), x)
    {
      WeightUnharmedIff(p, xs, x);
      ModEqIffCong(p, Numerator(Repeats(xs), x), Denominator(Repeats(xs), x));
    }
  }

  lemma UnharmedInterpolates(p: int, xs: seq<int>, f: seq<int>)
    requires Prime(p) && Identifiers(p, xs) && WeightsUnharmed(p, xs) && |f| <= |Firsts(xs)|
    ensures InterpolatesAt(p, xs, f)
  {
    var ys := Firsts(xs);
    ListParts(p, xs);
    InterpolationAtZero(p, ys, f);
    var g, h := Product(Weights(p, xs), Values(f)), Product(Weights(p, ys), Values(f));
    forall x | x in ys
      ensures g(x) == h(x)
    {
      assert x in xs;
    }
    SumSame(g, h, ys);
  }

  /** On the polynomial that vanishes at all other points, the weighted sum is one term. */
  lemma OneTerm(p: int, ws: seq<int>, ys: seq<int>, i: nat)
    requires 0 < p && i < |ys|
    ensures var f := Vanishing(ys[..i] + ys[i + 1..]);
            WeightedSum(p, ws, ys, f) == Weight(p, ws, ys[i]) * Eval(f, ys[i])
  {
    var rest := ys[..i] + ys[i + 1..];
    var f := Vanishing(rest);
    var g := Product(Weights(p, ws), Values(f));
    SumWithout(g, ys, i);
    forall x | x in rest
      ensures g(x) == 0
    {
      VanishingRoot(rest, x);
      TimesZero(Weight(p, ws, x));
    }
    SumOfZeros(g, rest);
  }

  lemma TimesZero(w: int)
    ensures w * 0 == 0
  {
  }

  /** A polynomial on which the weighted sum is right exactly when this one weight is. */
  lemma HarmShows(p: int, xs: seq<int>, i: nat)
    requires Prime(p) && Identifiers(p, xs) && i < |Firsts(xs)|
    requires InterpolatesAt(p, xs, Vanishing(Firsts(xs)[..i] + Firsts(xs)[i + 1..]))
    ensures Weight(p, xs, Firsts(xs)[i]) == Weight(p, Firsts(xs), Firsts(xs)[i])
  {
    var ys := Firsts(xs);
    ListParts(p, xs);
    hide Firsts;
    var x, rest := ys[i], ys[..i] + ys[i + 1..];
    assert 0 < x < p && x in xs;
    var f := Vanishing(rest);
    InterpolationAtZero(p, ys, f);
    OneTerm(p, xs, ys, i);
    OneTerm(p, ys, ys, i);
    IdentifiersAmong(p, ys, rest);
    VanishingElsewhere(p, rest, x);
    WeightLaw(p, xs, x);
    WeightLaw(p, ys, x);
    hide Weight, Vanishing, Eval, WeightedSum;
    EqualFactors(p, Weight(p, xs, x), Weight(p, ys, x), Eval(f, x), Eval(f, 0));
  }

  lemma EqualFactors(p: int, w: int, v: int, c: int, r: int)
    requires Prime(p) && Reduced(p, w) && Reduced(p, v) && !Cong(p, c, 0) && Cong(p, w * c, r) && Cong(p, v * c, r)
    ensures w == v
  {
    CongSym(p, v * c, r);
    CongTrans(p, w * c, r, v * c);
    assert w * c == c * w && v * c == c * v;
    CongCancel(p, c, w, v);
    ReducedUnique(p, w, v);
  }

  /**
    For every list of identifiers, with or without repeats: the weights the loop
    gives interpolate every polynomial with at most as many coefficients as there
    are distinct identifiers exactly when they are the weights without the
    repeats, and that is when the repeats' products are congruent at every point.
   */
  lemma InterpolatesIff(p: int, xs: seq<int>)
    requires Prime(p) && Identifiers(p, xs)
    ensures (forall f :: |f| <= |Firsts(xs)| ==> InterpolatesAt(p, xs, f)) <==> Harmless(p, xs)
    ensures Harmless(p, xs) <==> WeightsUnharmed(p, xs)
  {
    HarmlessIff(p, xs);
    FirstsOnce(xs);
    hide InterpolatesAt, Harmless;
    if WeightsUnharmed(p, xs) {
      forall f: seq<int> | |f| <= |Firsts(xs)|
        ensures InterpolatesAt(p, xs, f)
      {
        UnharmedInterpolates(p, xs, f);
      }
    }
    if forall f :: |f| <= |Firsts(xs)| ==> InterpolatesAt(p, xs, f) {
      forall x | x in xs
        ensures Weight(p, xs, x) == Weight(p, Firsts(xs), x)
      {
        assert x in Firsts(xs);
        var i :| 0 <= i < |Firsts(xs)| && Firsts(xs)[i] == x;
        assert |Vanishing(Firsts(xs)[..i] + Firsts(xs)[i + 1..])| == |Firsts(xs)|;
        HarmShows(p, xs, i);
      }
    }
  }

  // --- which repeats do harm -----------------------------------------------------------------------------------

  /** A single repeat does harm exactly when there is another identifier. */
  lemma OneRepeat(p: int, xs: seq<int>, y: int)
    requires Prime(p) && Identifiers(p, xs) && Repeats(xs) == [y]
    ensures Harmless(p, xs) <==> forall x :: x in xs ==> x == y
  {
    forall x | x in xs
      ensures Numerator([y], x) % p == Denominator([y], x) % p <==> x == y
    {
      ProductsStep([], y, x);
      assert [] + [y] == [y];
      if x != y {
        ModEqIffCong(p, y, y - x);
        if Cong(p, y, y - x) {
          CongRefl(p, y - x);
          CongSub(p, y, y - x, y - x, y - x);
          NotMultiple(p, x);
        }
      }
    }
  }

  /** Repeats can cancel out: twice too often 1, beside 2, leaves all weights right. */
  lemma RepeatsThatCancel(p: int)
    requires Prime(p) && 2 < p
    ensures Firsts([1, 1, 1, 2]) == [1, 2] && Repeats([1, 1, 1, 2]) == [1, 1] && Harmless(p, [1, 1, 1, 2])
  {
    var xs := [1, 1, 1, 2];
    assert xs[..3] == [1, 1, 1] && [1, 1, 1][..2] == [1, 1] && [1, 1][..1] == [1] && [1][..0] == [];
    forall x | x in xs
      ensures Numerator([1, 1], x) == 1 && Denominator([1, 1], x) == 1
    {
      ProductsStep([], 1, x);
      ProductsStep([1], 1, x);
      assert [] + [1] == [1] && [1] + [1] == [1, 1];
    }
  }

  // --- the takeover check ------------------------------------------------------------------------------------------

  /**
    A reshare whose survivor list may hold repeats, every device dealing once, in
    any order: the derived group key is the existing one exactly when the weights
    of that list interpolate the old polynomial.
   */
  lemma TakeoverWithRepeats<E(!new)>(p: int, g: Group<E>, survivors: seq<int>, dealers: seq<int>, shares: map<int, int>,
                                     tails: seq<seq<int>>, fs: seq<seq<int>>, f: seq<int>, n: nat, newIds: seq<int>)
    requires Laws(p, g) && Identifiers(p, survivors) && Distinct(dealers) && SameElements(dealers, survivors)
    requires DealtBy(p, survivors, dealers, shares, tails, fs) && SharesOf(p, f, dealers, shares) && SameLength(fs, n) && 0 < n
    ensures DerivePublicKeyPackage(g, ColumnSums(g, Commitments(g, fs), n), newIds).verifyingKey == g.act(Eval(f, 0), g.base)
       <==> InterpolatesAt(p, survivors, f)
  {
    TakeoverCheckExact(p, g, fs, n, newIds, Eval(f, 0));
    DealtConstants(p, survivors, dealers, shares, tails, fs, f, |fs|);
    assert fs[..|fs|] == fs && dealers[..|dealers|] == dealers;
    FirstsOnce(survivors);
    SumAnyOrder(Product(Weights(p, survivors), Values(f)), dealers, Firsts(survivors));
    hide Laws, DealtBy, SharesOf, Firsts, Sum;
    CongEither(p, EvalSum(fs, 0), WeightedSum(p, survivors, dealers, f), Eval(f, 0));
  }

  lemma CongEither(p: int, a: int, b: int, c: int)
    requires Cong(p, a, b)
    ensures Cong(p, a, c) <==> Cong(p, b, c)
  {
    CongSym(p, a, b);
    if Cong(p, a, c) { CongTrans(p, b, a, c); }
    if Cong(p, b, c) { CongTrans(p, a, b, c); }
  }

  // --- one of two survivors listed twice -------------------------------------------------------------------------------

  lemma PairParts(a: int, b: int)
    requires a != b
    ensures Firsts([a, b, b]) == [a, b] && Repeats([a, b, b]) == [b]
  {
    assert [a, b, b][..2] == [a, b] && [a, b][..1] == [a] && [a][..0] == [];
    assert Firsts([a]) == [a] && Repeats([a]) == [];
    assert Firsts([a, b]) == [a, b] && Repeats([a, b]) == [];
  }

  lemma PairIdentifiers(p: int, a: int, b: int)
    requires 0 < a < p && 0 < b < p && a != b
    ensures Identifiers(p, [a, b, b]) && Identifiers(p, [a, b]) && Distinct([a, b])
  {
  }

  /** Only the weight of the survivor listed once is wrong. */
  lemma PairWeights(p: int, a: int, b: int)
    requires Prime(p) && 0 < a < p && 0 < b < p && a != b
    ensures Weight(p, [a, b, b], a) != Weight(p, [a, b], a) && Weight(p, [a, b, b], b) == Weight(p, [a, b], b)
  {
    PairParts(a, b);
    hide Firsts, Repeats, Weight;
    WeightUnharmedIff(p, [a, b, b], a);
    WeightUnharmedIff(p, [a, b, b], b);
    ProductsStep([], b, a);
    ProductsStep([], b, b);
    assert [] + [b] == [b];
    CongRefl(p, 1);
    if Cong(p, b, b - a) {
      CongRefl(p, b - a);
      CongSub(p, b, b - a, b - a, b - a);
      NotMultiple(p, a);
    }
  }

  lemma {:induction false} TwoTerms(p: int, ws: seq<int>, x: int, y: int, f: seq<int>)
    requires 0 < p
    ensures WeightedSum(p, ws, [x, y], f) == Weight(p, ws, x) * Eval(f, x) + Weight(p, ws, y) * Eval(f, y)
  {
    hide Weight, Eval;
    assert [] + [x] == [x] && [x] + [y] == [x, y];
    assert WeightedSum(p, ws, [], f) == 0;
    hide WeightedSum;
    WeightedSumSnoc(p, ws, [], x, f);
    WeightedSumSnoc(p, ws, [x], y, f);
  }

  /** With one of two survivors listed twice, the sum is right exactly when the other one's share is zero. */
  lemma PairWithRepeat(p: int, a: int, b: int, f: seq<int>)
    requires Prime(p) && 0 < a < p && 0 < b < p && a != b && |f| <= 2
    ensures InterpolatesAt(p, [a, b, b], f) <==> Cong(p, Eval(f, a), 0)
  {
    var xs, ys := [a, b, b], [a, b];
    PairParts(a, b);
    assert InterpolatesAt(p, xs, f) <==> Cong(p, WeightedSum(p, xs, ys, f), Eval(f, 0)) by { hide WeightedSum, Eval, Cong, Firsts; }
    PairIdentifiers(p, a, b);
    assert p > 0;
    hide *;
    PairWeights(p, a, b);
    InterpolationAtZero(p, ys, f);
    TwoTerms(p, xs, a, b, f);
    TwoTerms(p, ys, a, b, f);
    WeightLaw(p, xs, a);
    WeightLaw(p, ys, a);
    OneWrongWeight(p, Weight(p, xs, a), Weight(p, ys, a), Weight(p, ys, b), Eval(f, a), Eval(f, b), Eval(f, 0));
  }

  lemma OneWrongWeight(p: int, w: int, v: int, u: int, fa: int, fb: int, f0: int)
    requires Prime(p) && Reduced(p, w) && Reduced(p, v) && w != v && Cong(p, v * fa + u * fb, f0)
    ensures Cong(p, w * fa + u * fb, f0) <==> Cong(p, fa, 0)
  {
    DifferenceNonZero(p, w, v);
    assert (w - v) * fa == (w * fa + u * fb) - (v * fa + u * fb);
    if Cong(p, fa, 0) {
      CongScale(p, w - v, fa, 0);
      CongAdd(p, (w - v) * fa, 0, v * fa + u * fb, f0);
    }
    if Cong(p, w * fa + u * fb, f0) {
      CongSub(p, w * fa + u * fb, f0, v * fa + u * fb, f0);
      CongCancel(p, w - v, fa, 0);
    }
  }

  lemma OneTwoTwoProducts()
    ensures Numerator([1, 2], 1) == 2 && Denominator([1, 2], 1) == 1
    ensures Numerator([1, 2, 2], 1) == 4 && Denominator([1, 2, 2], 1) == 1
  {
    ProductsStep([], 1, 1);
    ProductsStep([1], 2, 1);
    ProductsStep([1, 2], 2, 1);
    assert [] + [1] == [1] && [1] + [2] == [1, 2] && [1, 2] + [2] == [1, 2, 2];
  }

  /** The list [1, 2, 2]: 1 has the weight 4 instead of 2, and no constant but zero comes out right. */
  lemma OneTwoTwo(p: int, c: int)
    requires Prime(p) && 2 < p
    ensures Cong(p, Weight(p, [1, 2, 2], 1), 4) && Cong(p, Weight(p, [1, 2], 1), 2)
    ensures InterpolatesAt(p, [1, 2, 2], [c]) <==> Cong(p, c, 0)
  {
    hide InterpolatesAt, Weight, Numerator, Denominator;
    assert Eval([c], 1) == c by { assert [c][1..] == []; }
    hide *;
    PairWithRepeat(p, 1, 2, [c]);
    OneTwoTwoProducts();
    PairIdentifiers(p, 1, 2);
    WeightLaw(p, [1, 2, 2], 1);
    WeightLaw(p, [1, 2], 1);
  }

  /** Such a reshare is refused as a takeover, unless the other survivor's share is zero. */
  lemma RepeatRefused<E(!new)>(p: int, g: Group<E>, a: int, b: int, dealers: seq<int>, shares: map<int, int>,
                               tails: seq<seq<int>>, fs: seq<seq<int>>, f: seq<int>, n: nat, newIds: seq<int>)
    requires Laws(p, g) && 0 < a < p && 0 < b < p && a != b && |f| <= 2
    requires Distinct(dealers) && SameElements(dealers, [a, b, b])
    requires DealtBy(p, [a, b, b], dealers, shares, tails, fs) && SharesOf(p, f, dealers, shares) && SameLength(fs, n) && 0 < n
    ensures DerivePublicKeyPackage(g, ColumnSums(g, Commitments(g, fs), n), newIds).verifyingKey == g.act(Eval(f, 0), g.base)
       <==> Cong(p, Eval(f, a), 0)
  {
    hide InterpolatesAt, Eval, DealtBy, SharesOf, SameElements;
    TakeoverWithRepeats(p, g, [a, b, b], dealers, shares, tails, fs, f, n, newIds);
    PairWithRepeat(p, a, b, f);
  }
}
