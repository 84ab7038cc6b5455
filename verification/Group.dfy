/**
  The prime-order group the commitments live in: any additive group with a
  scalar action and a base point of order `p`.  Nothing about a particular
  curve is used.
 */
module Groups {
  import opened Modular
  import opened Lagrange

  datatype Group<!E> = Group(zero: E, add: (E, E) -> E, act: (int, E) -> E, base: E)

  // Each law is a named predicate, so that a proof cites exactly the instances it uses.

  ghost predicate AddCommutes<E>(g: Group<E>, a: E, b: E) {
    g.add(a, b) == g.add(b, a)
  }

  ghost predicate AddAssociates<E>(g: Group<E>, a: E, b: E, c: E) {
    g.add(g.add(a, b), c) == g.add(a, g.add(b, c))
  }

  ghost predicate AddZero<E>(g: Group<E>, a: E) {
    g.add(a, g.zero) == a
  }

  ghost predicate ActDistributes<E>(g: Group<E>, x: int, a: E, b: E) {
    g.act(x, g.add(a, b)) == g.add(g.act(x, a), g.act(x, b))
  }

  ghost predicate ActOnZero<E>(g: Group<E>, x: int) {
    g.act(x, g.zero) == g.zero
  }

  ghost predicate BaseAdds<E>(g: Group<E>, x: int, y: int) {
    g.add(g.act(x, g.base), g.act(y, g.base)) == g.act(x + y, g.base)
  }

  ghost predicate BaseScales<E>(g: Group<E>, x: int, y: int) {
    g.act(x, g.act(y, g.base)) == g.act(x * y, g.base)
  }

  /** The base point has order `p`. */
  ghost predicate BaseOrder<E>(p: int, g: Group<E>, x: int, y: int) {
    g.act(x, g.base) == g.act(y, g.base) <==> Cong(p, x, y)
  }

  ghost predicate Laws<E(!new)>(p: int, g: Group<E>) {
    && Prime(p)
    && (forall a, b :: AddCommutes(g, a, b))
    && (forall a, b, c :: AddAssociates(g, a, b, c))
    && (forall a :: AddZero(g, a))
    && (forall x, a, b :: ActDistributes(g, x, a, b))
    && (forall x :: ActOnZero(g, x))
    && (forall x, y :: BaseAdds(g, x, y))
    && (forall x, y :: BaseScales(g, x, y))
    && (forall x, y :: BaseOrder(p, g, x, y))
    && g.act(0, g.base) == g.zero
  }

  /** The laws are satisfiable: the two-element group under exclusive or. */
  lemma LawsInhabited()
    ensures Laws(2, Group(false, (a: bool, b) => a != b, (x: int, a: bool) => x % 2 == 1 && a, true))
  {
    var g := Group(false, (a: bool, b) => a != b, (x: int, a: bool) => x % 2 == 1 && a, true);
    forall x: int, y: int
      ensures BaseOrder(2, g, x, y)
    {
      ModEqIffCong(2, x, y);
    }
    forall x: int, y: int
      ensures BaseScales(g, x, y)
    {
      OddProduct(x, y);
    }
  }

  lemma OddProduct(x: int, y: int)
    ensures (x * y) % 2 == 1 <==> x % 2 == 1 && y % 2 == 1
  {
    CongMod(2, x);
    CongMod(2, y);
    CongMul(2, x, x % 2, y, y % 2);
    ModEqIffCong(2, x * y, (x % 2) * (y % 2));
  }

  /** Feldman commitment to a polynomial: each coefficient times the base point. */
  function Commit<E>(g: Group<E>, f: seq<int>): (c: seq<E>)
    ensures |c| == |f|
    ensures forall i :: 0 <= i < |f| ==> c[i] == g.act(f[i], g.base)
  {
    seq(|f|, i requires 0 <= i < |f| => g.act(f[i], g.base))
  }

  /** The committed polynomial evaluated in the exponent at `x`. */
  function EvalPoints<E>(g: Group<E>, c: seq<E>, x: int): E {
    if c == [] then g.zero else g.add(c[0], g.act(x, EvalPoints(g, c[1..], x)))
  }

  /** A Feldman commitment determines every share, in the exponent. */
  lemma {:induction false} EvalPointsOfCommit<E(!new)>(p: int, g: Group<E>, f: seq<int>, x: int)
    requires Laws(p, g)
    ensures EvalPoints(g, Commit(g, f), x) == g.act(Eval(f, x), g.base)
  {
    if f != [] {
      EvalPointsOfCommit(p, g, f[1..], x);
      assert Commit(g, f)[1..] == Commit(g, f[1..]);
      var y := Eval(f[1..], x);
      assert BaseScales(g, x, y);
      assert BaseAdds(g, f[0], x * y);
    }
  }

  function PointwiseAdd<E>(g: Group<E>, c: seq<E>, d: seq<E>): (r: seq<E>)
    requires |c| == |d|
    ensures |r| == |c|
    ensures forall i :: 0 <= i < |c| ==> r[i] == g.add(c[i], d[i])
  {
    seq(|c|, i requires 0 <= i < |c| => g.add(c[i], d[i]))
  }

  /** Evaluation in the exponent is additive in the commitment. */
  lemma {:induction false} EvalPointsAdd<E(!new)>(p: int, g: Group<E>, c: seq<E>, d: seq<E>, x: int)
    requires Laws(p, g) && |c| == |d|
    ensures EvalPoints(g, PointwiseAdd(g, c, d), x) == g.add(EvalPoints(g, c, x), EvalPoints(g, d, x))
  {
    if c == [] {
      assert AddZero(g, g.zero);
    } else {
      EvalPointsAdd(p, g, c[1..], d[1..], x);
      assert PointwiseAdd(g, c, d)[1..] == PointwiseAdd(g, c[1..], d[1..]);
      assert ActDistributes(g, x, EvalPoints(g, c[1..], x), EvalPoints(g, d[1..], x));
      Interchange(p, g, c[0], d[0], g.act(x, EvalPoints(g, c[1..], x)), g.act(x, EvalPoints(g, d[1..], x)));
    }
  }

  lemma Interchange<E(!new)>(p: int, g: Group<E>, a: E, b: E, c: E, d: E)
    requires Laws(p, g)
    ensures g.add(g.add(a, b), g.add(c, d)) == g.add(g.add(a, c), g.add(b, d))
  {
    assert AddAssociates(g, a, b, g.add(c, d));
    assert AddAssociates(g, b, c, d);
    assert AddCommutes(g, b, c);
    assert AddAssociates(g, c, b, d);
    assert AddAssociates(g, a, c, g.add(b, d));
  }
}
