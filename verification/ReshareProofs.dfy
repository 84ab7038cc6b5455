/**
  What resharing keeps: the group secret and the group key, over every change
  of committee and threshold and over every number of successive reshares.
 */
module ReshareProofs {
  import opened Common
  import opened Modular
  import opened Lagrange
  import opened Groups
  import opened Reshare

  // --- sums of polynomials ---------------------------------------------------

  function PolyAdd(f: seq<int>, h: seq<int>): (r: seq<int>)
    requires |f| == |h|
    ensures |r| == |f|
    ensures forall i :: 0 <= i < |f| ==> r[i] == f[i] + h[i]
  {
    seq(|f|, i requires 0 <= i < |f| => f[i] + h[i])
  }

  predicate SameLength<T>(fs: seq<seq<T>>, n: nat) {
    forall k :: 0 <= k < |fs| ==> |fs[k]| == n
  }

  function PolySum(fs: seq<seq<int>>, n: nat): (r: seq<int>)
    requires SameLength(fs, n)
    ensures |r| == n
  {
    if fs == [] then seq(n, _ => 0) else PolyAdd(PolySum(fs[..|fs| - 1], n), fs[|fs| - 1])
  }

  lemma {:induction false} EvalAdd(f: seq<int>, h: seq<int>, x: int)
    requires |f| == |h|
    ensures Eval(PolyAdd(f, h), x) == Eval(f, x) + Eval(h, x)
  {
    if f != [] {
      EvalAdd(f[1..], h[1..], x);
      assert PolyAdd(f, h)[1..] == PolyAdd(f[1..], h[1..]);
      DistributeEval(f[0], h[0], x, Eval(f[1..], x), Eval(h[1..], x));
    }
  }

  lemma DistributeEval(a: int, b: int, x: int, u: int, v: int)
    ensures a + b + x * (u + v) == a + x * u + (b + x * v)
  {
  }

  lemma {:induction false} EvalZeros(n: nat, x: int)
    ensures Eval(seq(n, _ => 0), x) == 0
  {
    if n > 0 {
      EvalZeros(n - 1, x);
      assert seq(n, _ => 0)[1..] == seq(n - 1, _ => 0);
      assert x * 0 == 0;
    }
  }

  /** The sum of the values of all the polynomials at one point. */
  function EvalSum(fs: seq<seq<int>>, x: int): int {
    if fs == [] then 0 else EvalSum(fs[..|fs| - 1], x) + Eval(fs[|fs| - 1], x)
  }

  lemma {:induction false} EvalPolySum(fs: seq<seq<int>>, n: nat, x: int)
    requires SameLength(fs, n)
    ensures Eval(PolySum(fs, n), x) == EvalSum(fs, x)
  {
    if fs == [] {
      EvalZeros(n, x);
    } else {
      EvalPolySum(fs[..|fs| - 1], n, x);
      EvalAdd(PolySum(fs[..|fs| - 1], n), fs[|fs| - 1], x);
    }
  }

  lemma EvalAtZero(f: seq<int>)
    requires f != []
    ensures Eval(f, 0) == f[0]
  {
    assert 0 * Eval(f[1..], 0) == 0;
  }

  // --- the dealt polynomials -----------------------------------------------------

  /** The dealers' polynomials, in order, with weights taken in the survivor list they were given. */
  ghost predicate DealtBy(p: int, survivors: seq<int>, dealers: seq<int>, shares: map<int, int>, tails: seq<seq<int>>, fs: seq<seq<int>>)
    requires 0 < p
  {
    && |tails| == |dealers| == |fs|
    && (forall k :: 0 <= k < |fs| ==> dealers[k] in shares)
    && forall k :: 0 <= k < |fs| ==> fs[k] == DealtPolynomial(p, survivors, dealers[k], shares[dealers[k]], tails[k])
  }

  /** Each survivor's dealt polynomial, in survivor order. */
  ghost predicate Dealt(p: int, survivors: seq<int>, shares: map<int, int>, tails: seq<seq<int>>, fs: seq<seq<int>>)
    requires 0 < p
  {
    DealtBy(p, survivors, survivors, shares, tails, fs)
  }

  /** The shares of `ids` are the values of `f`. */
  ghost predicate SharesOf(p: int, f: seq<int>, ids: seq<int>, shares: map<int, int>)
    requires 0 < p
  {
    forall k :: 0 <= k < |ids| ==> ids[k] in shares && shares[ids[k]] == Eval(f, ids[k]) % p
  }

  /** A dealt constant term is the survivor's term of the interpolation sum. */
  lemma DealtConstant(p: int, survivors: seq<int>, x: int, share: int, tail: seq<int>, f: seq<int>)
    requires 0 < p && share == Eval(f, x) % p
    ensures Cong(p, Eval(DealtPolynomial(p, survivors, x, share, tail), 0), Weights(p, survivors)(x) * Values(f)(x))
  {
    var d := DealtPolynomial(p, survivors, x, share, tail);
    EvalAtZero(d);
    ScaledReduction(p, Weight(p, survivors, x), Eval(f, x));
  }

  lemma ScaledReduction(p: int, w: int, v: int)
    requires 0 < p
    ensures Cong(p, (w * (v % p)) % p, w * v)
  {
    CongMod(p, v);
    CongScale(p, w, v % p, v);
    CongMod(p, w * (v % p));
    CongTrans(p, (w * (v % p)) % p, w * (v % p), w * v);
  }

  lemma {:induction false} DealtConstants(p: int, survivors: seq<int>, dealers: seq<int>, shares: map<int, int>,
                                          tails: seq<seq<int>>, fs: seq<seq<int>>, f: seq<int>, k: nat)
    requires 0 < p && DealtBy(p, survivors, dealers, shares, tails, fs) && SharesOf(p, f, dealers, shares) && k <= |fs|
    ensures Cong(p, EvalSum(fs[..k], 0), WeightedSum(p, survivors, dealers[..k], f))
  {
    if k == 0 {
      CongRefl(p, 0);
    } else {
      DealtConstants(p, survivors, dealers, shares, tails, fs, f, k - 1);
      assert fs[..k][..k - 1] == fs[..k - 1] && dealers[..k][..k - 1] == dealers[..k - 1];
      var x := dealers[k - 1];
      DealtConstant(p, survivors, x, shares[x], tails[k - 1], f);
      CongAdd(p, EvalSum(fs[..k - 1], 0), WeightedSum(p, survivors, dealers[..k - 1], f),
              Eval(fs[k - 1], 0), Weights(p, survivors)(x) * Values(f)(x));
    }
  }

  /**
    One reshare: whatever the fresh coefficients, the summed polynomial has the
    new length and the old constant term.
   */
  lemma ReshareKeepsConstant(p: int, survivors: seq<int>, shares: map<int, int>, tails: seq<seq<int>>,
                             fs: seq<seq<int>>, f: seq<int>, n: nat)
    requires Prime(p) && Identifiers(p, survivors) && Distinct(survivors) && |f| <= |survivors|
    requires Dealt(p, survivors, shares, tails, fs) && SharesOf(p, f, survivors, shares) && SameLength(fs, n)
    ensures Cong(p, Eval(PolySum(fs, n), 0), Eval(f, 0))
  {
    DealtConstants(p, survivors, survivors, shares, tails, fs, f, |fs|);
    assert fs[..|fs|] == fs && survivors[..|survivors|] == survivors;
    EvalPolySum(fs, n, 0);
    InterpolationAtZero(p, survivors, f);
    CongTrans(p, EvalSum(fs, 0), WeightedSum(p, survivors, survivors, f), Eval(f, 0));
  }

  // --- commitments ---------------------------------------------------------------

  function Commitments<E>(g: Group<E>, fs: seq<seq<int>>): (cs: seq<seq<E>>)
    ensures |cs| == |fs|
    ensures forall k :: 0 <= k < |fs| ==> cs[k] == Commit(g, fs[k])
  {
    seq(|fs|, k requires 0 <= k < |fs| => Commit(g, fs[k]))
  }

  function ColumnSums<E>(g: Group<E>, cs: seq<seq<E>>, n: nat): (r: seq<E>)
    requires SameLength(cs, n)
    ensures |r| == n
    ensures forall i :: 0 <= i < n ==> r[i] == ColumnSum(g, cs, i)
  {
    seq(n, i requires 0 <= i < n => ColumnSum(g, cs, i))
  }

  lemma {:induction false} ColumnSumOfCommitments<E(!new)>(p: int, g: Group<E>, fs: seq<seq<int>>, n: nat, i: nat)
    requires Laws(p, g) && SameLength(fs, n) && i < n
    ensures ColumnSum(g, Commitments(g, fs), i) == g.act(PolySum(fs, n)[i], g.base)
  {
    var cs := Commitments(g, fs);
    if fs != [] {
      var m := |fs| - 1;
      ColumnSumOfCommitments(p, g, fs[..m], n, i);
      assert cs[..m] == Commitments(g, fs[..m]);
      assert BaseAdds(g, PolySum(fs[..m], n)[i], fs[m][i]);
    }
  }

  /** The combined commitment commits to the summed polynomial. */
  lemma CombinedCommitment<E(!new)>(p: int, g: Group<E>, fs: seq<seq<int>>, n: nat)
    requires Laws(p, g) && SameLength(fs, n)
    ensures ColumnSums(g, Commitments(g, fs), n) == Commit(g, PolySum(fs, n))
  {
    forall i | 0 <= i < n
      ensures ColumnSum(g, Commitments(g, fs), i) == g.act(PolySum(fs, n)[i], g.base)
    {
      ColumnSumOfCommitments(p, g, fs, n, i);
    }
  }

  /**
    The takeover check: the derived group key is the existing one exactly when
    the dealt constants sum to the old secret.
   */
  lemma TakeoverCheckExact<E(!new)>(p: int, g: Group<E>, fs: seq<seq<int>>, n: nat, newIds: seq<int>, secret: int)
    requires Laws(p, g) && SameLength(fs, n) && 0 < n
    ensures DerivePublicKeyPackage(g, ColumnSums(g, Commitments(g, fs), n), newIds).verifyingKey == g.act(secret, g.base)
       <==> Cong(p, EvalSum(fs, 0), secret)
  {
    CombinedCommitment(p, g, fs, n);
    EvalPolySum(fs, n, 0);
    EvalAtZero(PolySum(fs, n));
    assert BaseOrder(p, g, EvalSum(fs, 0), secret);
  }

  /** An honest reshare always passes the takeover check. */
  lemma HonestReshareAccepted<E(!new)>(p: int, g: Group<E>, survivors: seq<int>, shares: map<int, int>,
                                       tails: seq<seq<int>>, fs: seq<seq<int>>, f: seq<int>, n: nat, newIds: seq<int>)
    requires Laws(p, g) && Identifiers(p, survivors) && Distinct(survivors) && |f| <= |survivors|
    requires Dealt(p, survivors, shares, tails, fs) && SharesOf(p, f, survivors, shares) && SameLength(fs, n) && 0 < n
    ensures DerivePublicKeyPackage(g, ColumnSums(g, Commitments(g, fs), n), newIds).verifyingKey == g.act(Eval(f, 0), g.base)
  {
    ReshareKeepsConstant(p, survivors, shares, tails, fs, f, n);
    EvalPolySum(fs, n, 0);
    TakeoverCheckExact(p, g, fs, n, newIds, Eval(f, 0));
  }

  // --- received shares -------------------------------------------------------------

  /** The sum of what each received share's own commitment says it should be. */
  function ExpectedPoint<E>(g: Group<E>, received: seq<SecretShare<E>>): E {
    if received == [] then g.zero
    else
      var s := received[|received| - 1];
      g.add(ExpectedPoint(g, received[..|received| - 1]), EvalPoints(g, s.commitment, s.id))
  }

  lemma {:induction false} SumOfVerified<E(!new)>(p: int, g: Group<E>, received: seq<SecretShare<E>>)
    requires Laws(p, g) && forall k :: 0 <= k < |received| ==> Verifies(g, received[k])
    ensures g.act(SumValues(received), g.base) == ExpectedPoint(g, received)
  {
    if received != [] {
      var m := |received| - 1;
      SumOfVerified(p, g, received[..m]);
      assert Verifies(g, received[m]);
      assert BaseAdds(g, SumValues(received[..m]), received[m].value);
    }
  }

  /**
    A key package built by `CombineReceivedShares` has a share that matches its
    published verifying share exactly when the shares' own commitments add up to it.
   */
  lemma KeyPackageConsistentIff<E(!new)>(p: int, g: Group<E>, received: seq<SecretShare<E>>, verifyingShare: E)
    requires Laws(p, g) && forall k :: 0 <= k < |received| ==> Verifies(g, received[k])
    ensures g.act(SumValues(received) % p, g.base) == verifyingShare <==> ExpectedPoint(g, received) == verifyingShare
  {
    SumOfVerified(p, g, received);
    CongMod(p, SumValues(received));
    assert BaseOrder(p, g, SumValues(received) % p, SumValues(received));
  }

  ghost predicate AddressedTo<E>(received: seq<SecretShare<E>>, cs: seq<seq<E>>, id: int) {
    |received| == |cs| && forall k :: 0 <= k < |received| ==> received[k].id == id && received[k].commitment == cs[k]
  }

  lemma {:induction false} ExpectedPointOfBroadcast<E(!new)>(p: int, g: Group<E>, received: seq<SecretShare<E>>, cs: seq<seq<E>>, n: nat, id: int)
    requires Laws(p, g) && SameLength(cs, n) && AddressedTo(received, cs, id)
    ensures ExpectedPoint(g, received) == EvalPoints(g, ColumnSums(g, cs, n), id)
  {
    if received == [] {
      EvalZeroPoints(p, g, n, id);
      assert ColumnSums(g, cs, n) == seq(n, _ => g.zero);
    } else {
      var m := |received| - 1;
      ExpectedPointOfBroadcast(p, g, received[..m], cs[..m], n, id);
      assert ColumnSums(g, cs, n) == PointwiseAdd(g, ColumnSums(g, cs[..m], n), cs[m]);
      EvalPointsAdd(p, g, ColumnSums(g, cs[..m], n), cs[m], id);
    }
  }

  lemma {:induction false} EvalZeroPoints<E(!new)>(p: int, g: Group<E>, n: nat, x: int)
    requires Laws(p, g)
    ensures EvalPoints(g, seq(n, _ => g.zero), x) == g.zero
  {
    if n > 0 {
      EvalZeroPoints(p, g, n - 1, x);
      assert seq(n, _ => g.zero)[1..] == seq(n - 1, _ => g.zero);
      assert ActOnZero(g, x);
      assert AddZero(g, g.zero);
    }
  }

  /**
    When every received share is for this member and carries the commitment its
    dealer broadcast, the combined share matches the published verifying share.
   */
  lemma MemberShareMatches<E(!new)>(p: int, g: Group<E>, received: seq<SecretShare<E>>, cs: seq<seq<E>>, n: nat,
                                    newIds: seq<int>, id: int)
    requires Laws(p, g) && SameLength(cs, n) && 0 < n && AddressedTo(received, cs, id) && id in newIds
    requires forall k :: 0 <= k < |received| ==> Verifies(g, received[k])
    ensures g.act(SumValues(received) % p, g.base)
         == DerivePublicKeyPackage(g, ColumnSums(g, cs, n), newIds).verifyingShares[id]
  {
    ExpectedPointOfBroadcast(p, g, received, cs, n, id);
    KeyPackageConsistentIff(p, g, received, EvalPoints(g, ColumnSums(g, cs, n), id));
  }

  /**
    The two conditions are needed: a share for another identifier verifies, is
    accepted, and gives a key package whose share is not the published one.
   */
  lemma MisaddressedShareAccepted<E(!new)>(p: int, g: Group<E>, x: int, y: int, a: int)
    requires Laws(p, g) && 0 < x < p && 0 < y < p && x != y
    ensures Verifies(g, DealShare(p, g, [a, 1], y))
    ensures g.act(SumValues([DealShare(p, g, [a, 1], y)]) % p, g.base) != EvalPoints(g, Commit(g, [a, 1]), x)
  {
    var f := [a, 1];
    var s := DealShare(p, g, f, y);
    EvalPointsOfCommit(p, g, f, y);
    EvalPointsOfCommit(p, g, f, x);
    EvalLine(a, x);
    EvalLine(a, y);
    CongMod(p, a + y);
    assert BaseOrder(p, g, (a + y) % p, a + y);
    assert [s][..0] == [] && SumValues([s]) == s.value;
    assert BaseOrder(p, g, ((a + y) % p) % p, a + x);
    CongMod(p, (a + y) % p);
    if Cong(p, ((a + y) % p) % p, a + x) {
      CongTrans(p, (a + y) % p, ((a + y) % p) % p, a + x);
      CongTrans(p, a + y, (a + y) % p, a + x);
      CongRefl(p, -a);
      CongAdd(p, a + y, a + x, -a, -a);
      ReducedUnique(p, y, x);
    }
  }

  lemma EvalLine(a: int, x: int)
    ensures Eval([a, 1], x) == a + x
  {
    assert [a, 1][1..] == [1] && [1][1..] == [];
    assert x * 0 == 0;
    assert Eval([1], x) == 1;
  }

  // --- committees over any number of reshares ------------------------------------------

  /** What one group holds between ceremonies. */
  datatype Committee<E> = Committee(ids: seq<int>, threshold: nat, shares: map<int, int>, key: E)

  /** The shares lie on one polynomial of degree below the threshold with this constant term. */
  ghost predicate SharedBy<E>(p: int, c: Committee<E>, f: seq<int>, secret: int)
    requires 0 < p
  {
    |f| <= c.threshold && SharesOf(p, f, c.ids, c.shares) && Cong(p, Eval(f, 0), secret)
  }

  ghost predicate Holds<E>(p: int, g: Group<E>, c: Committee<E>, secret: int)
    requires 0 < p
  {
    && Identifiers(p, c.ids) && Distinct(c.ids)
    && c.key == g.act(secret, g.base)
    && exists f :: SharedBy(p, c, f, secret)
  }

  /** What member `id` adds up: its sub-share of every dealt polynomial. */
  function MemberShare(p: int, fs: seq<seq<int>>, id: int): int
    requires 0 < p
  {
    if fs == [] then 0 else MemberShare(p, fs[..|fs| - 1], id) + Eval(fs[|fs| - 1], id) % p
  }

  /** One reshare ceremony that reached its new committee. */
  ghost predicate ReshareBy<E>(p: int, g: Group<E>, c: Committee<E>, c': Committee<E>,
                               survivors: seq<int>, tails: seq<seq<int>>, fs: seq<seq<int>>)
    requires 0 < p
  {
    && Distinct(survivors) && c.threshold <= |survivors|
    && (forall k :: 0 <= k < |survivors| ==> survivors[k] in c.ids)
    && Identifiers(p, c'.ids) && Distinct(c'.ids)
    && Dealt(p, survivors, c.shares, tails, fs)
    && 0 < c'.threshold && SameLength(fs, c'.threshold)
    && (forall k :: 0 <= k < |c'.ids| ==> c'.ids[k] in c'.shares && c'.shares[c'.ids[k]] == MemberShare(p, fs, c'.ids[k]) % p)
    && c'.key == ColumnSums(g, Commitments(g, fs), c'.threshold)[0]
  }

  ghost predicate ReshareStep<E>(p: int, g: Group<E>, c: Committee<E>, c': Committee<E>)
    requires 0 < p
  {
    exists survivors, tails, fs :: ReshareBy(p, g, c, c', survivors, tails, fs)
  }

  lemma {:induction false} MemberShareOnSum(p: int, fs: seq<seq<int>>, id: int)
    requires 0 < p
    ensures Cong(p, MemberShare(p, fs, id), EvalSum(fs, id))
  {
    if fs == [] {
      CongRefl(p, 0);
    } else {
      var m := |fs| - 1;
      MemberShareOnSum(p, fs[..m], id);
      CongMod(p, Eval(fs[m], id));
      CongAdd(p, MemberShare(p, fs[..m], id), EvalSum(fs[..m], id), Eval(fs[m], id) % p, Eval(fs[m], id));
    }
  }

  /** A reshare hands the same secret and key to the new committee. */
  lemma ReshareStepKeeps<E(!new)>(p: int, g: Group<E>, c: Committee<E>, c': Committee<E>, secret: int)
    requires Laws(p, g) && Holds(p, g, c, secret) && ReshareStep(p, g, c, c')
    ensures Holds(p, g, c', secret)
  {
    var f :| SharedBy(p, c, f, secret);
    var survivors, tails, fs :| ReshareBy(p, g, c, c', survivors, tails, fs);
    var n := c'.threshold;
    var h := PolySum(fs, n);
    assert Identifiers(p, survivors) && SharesOf(p, f, survivors, c.shares);
    ReshareKeepsConstant(p, survivors, c.shares, tails, fs, f, n);
    CongTrans(p, Eval(h, 0), Eval(f, 0), secret);
    forall k | 0 <= k < |c'.ids|
      ensures c'.shares[c'.ids[k]] == Eval(h, c'.ids[k]) % p
    {
      var id := c'.ids[k];
      MemberShareOnSum(p, fs, id);
      EvalPolySum(fs, n, id);
      ModEqIffCong(p, MemberShare(p, fs, id), EvalSum(fs, id));
    }
    assert SharedBy(p, c', h, secret);
    CombinedCommitment(p, g, fs, n);
    EvalAtZero(h);
    assert BaseOrder(p, g, h[0], secret);
  }

  ghost predicate ReshareRun<E>(p: int, g: Group<E>, run: seq<Committee<E>>)
    requires 0 < p
  {
    run != [] && forall i :: 0 <= i < |run| - 1 ==> ReshareStep(p, g, run[i], run[i + 1])
  }

  lemma {:induction false} ReshareRunKeeps<E(!new)>(p: int, g: Group<E>, run: seq<Committee<E>>, secret: int)
    requires Laws(p, g) && ReshareRun(p, g, run) && Holds(p, g, run[0], secret)
    ensures Holds(p, g, run[|run| - 1], secret)
  {
    if |run| > 1 {
      ReshareRunKeeps(p, g, run[..|run| - 1], secret);
      ReshareStepKeeps(p, g, run[|run| - 2], run[|run| - 1], secret);
    }
  }

  function ShareAt(shares: map<int, int>): int -> int {
    x => if x in shares then shares[x] else 0
  }

  /** Reconstruction from a quorum: the weighted sum of its shares. */
  function Reconstruct(p: int, quorum: seq<int>, shares: map<int, int>): int
    requires 0 < p
  {
    Sum(Product(Weights(p, quorum), ShareAt(shares)), quorum)
  }

  lemma QuorumReconstructs<E(!new)>(p: int, g: Group<E>, c: Committee<E>, secret: int, quorum: seq<int>)
    requires Prime(p) && Holds(p, g, c, secret)
    requires Distinct(quorum) && c.threshold <= |quorum| && forall k :: 0 <= k < |quorum| ==> quorum[k] in c.ids
    ensures Cong(p, Reconstruct(p, quorum, c.shares), secret)
  {
    var f :| SharedBy(p, c, f, secret);
    assert Identifiers(p, quorum);
    var w := Weights(p, quorum);
    forall x | x in quorum
      ensures Cong(p, ShareAt(c.shares)(x), Values(f)(x))
    {
      CongMod(p, Eval(f, x));
    }
    SumScaledCong(p, quorum, w, ShareAt(c.shares), Values(f));
    InterpolationAtZero(p, quorum, f);
    CongTrans(p, Reconstruct(p, quorum, c.shares), WeightedSum(p, quorum, quorum, f), Eval(f, 0));
    CongTrans(p, Reconstruct(p, quorum, c.shares), Eval(f, 0), secret);
  }

  lemma {:induction false} SumScaledCong(p: int, ts: seq<int>, w: int -> int, u: int -> int, v: int -> int)
    requires forall x :: x in ts ==> Cong(p, u(x), v(x))
    ensures Cong(p, Sum(Product(w, u), ts), Sum(Product(w, v), ts))
  {
    if ts == [] {
      CongRefl(p, 0);
    } else {
      var m := |ts| - 1;
      SumScaledCong(p, ts[..m], w, u, v);
      var x := ts[m];
      assert x in ts && Cong(p, u(x), v(x));
      CongScale(p, w(ts[m]), u(ts[m]), v(ts[m]));
      CongAdd(p, Sum(Product(w, u), ts[..m]), Sum(Product(w, v), ts[..m]), w(ts[m]) * u(ts[m]), w(ts[m]) * v(ts[m]));
    }
  }

  /**
    Over every run of reshares, any quorum of the final committee reconstructs
    the original secret, and the group key never changes.
   */
  lemma SecretSurvivesEveryRun<E(!new)>(p: int, g: Group<E>, run: seq<Committee<E>>, secret: int, quorum: seq<int>)
    requires Laws(p, g) && ReshareRun(p, g, run) && Holds(p, g, run[0], secret)
    requires var last := run[|run| - 1];
             Distinct(quorum) && last.threshold <= |quorum| && forall k :: 0 <= k < |quorum| ==> quorum[k] in last.ids
    ensures Cong(p, Reconstruct(p, quorum, run[|run| - 1].shares), secret)
    ensures run[|run| - 1].key == run[0].key
  {
    ReshareRunKeeps(p, g, run, secret);
    QuorumReconstructs(p, g, run[|run| - 1], secret, quorum);
  }

  // --- the ceremony, run through the operations ------------------------------------------

  /** What survivor `k` puts into its polynomial as constant term. */
  function Weighted(p: int, survivors: seq<int>, shares: map<int, int>, k: nat): int
    requires 0 < p && k < |survivors| && survivors[k] in shares
  {
    (Weight(p, survivors, survivors[k]) * shares[survivors[k]]) % p
  }

  /** No survivor's weighted share is zero, which secret sharing refuses. */
  predicate SharesUsable(p: int, survivors: seq<int>, shares: map<int, int>)
    requires 0 < p && forall k :: 0 <= k < |survivors| ==> survivors[k] in shares
  {
    forall k :: 0 <= k < |survivors| ==> Weighted(p, survivors, shares, k) != 0
  }

  function AllDealt(p: int, survivors: seq<int>, shares: map<int, int>, tails: seq<seq<int>>): (fs: seq<seq<int>>)
    requires 0 < p && |survivors| == |tails| && forall k :: 0 <= k < |survivors| ==> survivors[k] in shares
    ensures |fs| == |survivors|
    ensures forall k :: 0 <= k < |fs| ==> fs[k] == DealtPolynomial(p, survivors, survivors[k], shares[survivors[k]], tails[k])
  {
    seq(|survivors|, k requires 0 <= k < |survivors| => DealtPolynomial(p, survivors, survivors[k], shares[survivors[k]], tails[k]))
  }

  /** A coefficient whose commitment is the identity element, which serialization refuses. */
  predicate NoZero(p: int, f: seq<int>)
    requires 0 < p
  {
    forall i :: 0 <= i < |f| ==> f[i] % p != 0
  }

  /** What a dealer can check of the numbers before an honest ceremony. */
  predicate CanReshare(p: int, survivors: seq<int>, shares: map<int, int>, newIds: seq<int>, newThreshold: nat, tails: seq<seq<int>>)
    requires 0 < p && |survivors| == |tails| && forall k :: 0 <= k < |survivors| ==> survivors[k] in shares
    requires forall k :: 0 <= k < |tails| ==> |tails[k]| + 1 == newThreshold
  {
    && survivors != [] && SplitAccepts(newIds, newThreshold) && SharesUsable(p, survivors, shares)
    && (forall k :: 0 <= k < |tails| ==> NoZero(p, tails[k]))
    && NoZero(p, PolySum(AllDealt(p, survivors, shares, tails), newThreshold))
  }

  /** A multiple of the base point is the identity exactly for multiples of the order. */
  lemma ZeroPoint<E(!new)>(p: int, g: Group<E>, x: int)
    requires Laws(p, g)
    ensures g.act(x, g.base) == g.zero <==> x % p == 0
  {
    assert BaseOrder(p, g, x, 0);
    ModEqIffCong(p, x, 0);
    ZeroMod(p);
  }

  lemma IdentityIffZero<E(!new)>(p: int, g: Group<E>, f: seq<int>)
    requires Laws(p, g)
    ensures HasIdentity(g, Commit(g, f)) <==> !NoZero(p, f)
  {
    forall i | 0 <= i < |f|
      ensures Commit(g, f)[i] == g.zero <==> f[i] % p == 0
    {
      ZeroPoint(p, g, f[i]);
    }
    if HasIdentity(g, Commit(g, f)) {
      var i :| 0 <= i < |Commit(g, f)| && Commit(g, f)[i] == g.zero;
      assert f[i] % p == 0;
    }
    if !NoZero(p, f) {
      var i :| 0 <= i < |f| && f[i] % p == 0;
      assert Commit(g, f)[i] == g.zero;
    }
  }

  lemma ZeroMod(p: int)
    requires 0 < p
    ensures 0 % p == 0
  {
  }

  /** A dealt polynomial has a zero coefficient only in its fresh part, if the weighted share is not zero. */
  lemma DealtNoZero(p: int, weighted: int, tail: seq<int>)
    requires Prime(p) && 0 <= weighted < p
    ensures NoZero(p, [weighted] + tail) <==> weighted != 0 && NoZero(p, tail)
  {
    var f := [weighted] + tail;
    WeightedMod(p, weighted);
    if NoZero(p, f) {
      forall i | 0 <= i < |tail| ensures tail[i] % p != 0 { assert f[i + 1] == tail[i]; }
      assert f[0] % p != 0;
    }
  }

  lemma WeightedMod(p: int, x: int)
    requires 0 <= x < p
    ensures x % p == x
  {
  }

  lemma DealtVerifies<E(!new)>(p: int, g: Group<E>, f: seq<int>, id: int)
    requires Laws(p, g) && f != []
    ensures Verifies(g, DealShare(p, g, f, id))
  {
    EvalPointsOfCommit(p, g, f, id);
    CongMod(p, Eval(f, id));
    assert BaseOrder(p, g, Eval(f, id) % p, Eval(f, id));
  }

  /** Every survivor's `round1_reshare`, in order. */
  method DealAll<E(==)>(p: int, g: Group<E>, c: Committee<E>, survivors: seq<int>, newIds: seq<int>,
                        newThreshold: nat, tails: seq<seq<int>>)
    returns (r: Result<(seq<seq<E>>, seq<map<int, SecretShare<E>>>), ReshareError>, ghost fs: seq<seq<int>>)
    requires Prime(p) && Identifiers(p, survivors) && |survivors| == |tails|
    requires forall k :: 0 <= k < |survivors| ==> survivors[k] in c.shares
    requires forall k :: 0 <= k < |tails| ==> |tails[k]| + 1 == newThreshold
    ensures r.Ok? ==> Dealt(p, survivors, c.shares, tails, fs) && SameLength(fs, newThreshold)
    ensures r.Ok? ==> r.value.0 == Commitments(g, fs) && |r.value.1| == |fs|
    ensures r.Ok? ==> forall k :: 0 <= k < |fs| ==> r.value.1[k] == DealShares(p, g, fs[k], newIds)
    ensures r.Ok? <==> SharesUsable(p, survivors, c.shares) && (survivors != [] ==> SplitAccepts(newIds, newThreshold))
  {
    fs := [];
    var commitments: seq<seq<E>> := [];
    var dealt: seq<map<int, SecretShare<E>>> := [];
    for k := 0 to |survivors|
      invariant |fs| == |commitments| == |dealt| == k
      invariant forall j :: 0 <= j < k ==>
                  fs[j] == DealtPolynomial(p, survivors, survivors[j], c.shares[survivors[j]], tails[j])
      invariant SameLength(fs, newThreshold)
      invariant forall j :: 0 <= j < k ==> commitments[j] == Commit(g, fs[j])
      invariant forall j :: 0 <= j < k ==> dealt[j] == DealShares(p, g, fs[j], newIds)
      invariant 0 < k ==> SplitAccepts(newIds, newThreshold)
      invariant forall j :: 0 <= j < k ==> Weighted(p, survivors, c.shares, j) != 0
    {
      var x := survivors[k];
      var round1 := Round1Reshare(p, g, x, c.shares[x], survivors, newIds, newThreshold, tails[k]);
      if round1.Err? {
        assert Weighted(p, survivors, c.shares, k) == 0 || !SplitAccepts(newIds, newThreshold);
        return Err(round1.error), fs;
      }
      fs := fs + [DealtPolynomial(p, survivors, x, c.shares[x], tails[k])];
      commitments := commitments + [round1.value.0];
      dealt := dealt + [round1.value.1];
    }
    r := Ok((commitments, dealt));
  }

  lemma AllVerify<E(!new)>(p: int, g: Group<E>, fs: seq<seq<int>>, id: int, received: seq<SecretShare<E>>)
    requires 0 < p && |received| == |fs| && forall k :: 0 <= k < |fs| ==> received[k] == DealShare(p, g, fs[k], id)
    ensures Laws(p, g) && [] !in fs ==> forall k :: 0 <= k < |fs| ==> Verifies(g, received[k])
  {
    if Laws(p, g) && [] !in fs {
      forall k | 0 <= k < |fs| ensures Verifies(g, received[k]) { DealtVerifies(p, g, fs[k], id); }
    }
  }

  /** Every new member's `combine_received_shares`. */
  method ReceiveAll<E(!new, ==)>(p: int, g: Group<E>, ghost fs: seq<seq<int>>, dealt: seq<map<int, SecretShare<E>>>,
                           newIds: seq<int>, pkp: PublicKeyPackage<E>, newThreshold: nat)
    returns (r: Result<map<int, int>, ReshareError>)
    requires 0 < p && |dealt| == |fs|
    requires forall k :: 0 <= k < |fs| ==> dealt[k] == DealShares(p, g, fs[k], newIds)
    ensures r.Ok? ==> forall k :: 0 <= k < |newIds| ==>
                newIds[k] in r.value && r.value[newIds[k]] == MemberShare(p, fs, newIds[k]) % p
    ensures Laws(p, g) && [] !in fs && (forall k :: 0 <= k < |newIds| ==> newIds[k] in pkp.verifyingShares) ==> r.Ok?
  {
    var shares: map<int, int> := map[];
    for m := 0 to |newIds|
      invariant forall j :: 0 <= j < m ==> newIds[j] in shares
      invariant forall id :: id in shares ==> shares[id] == MemberShare(p, fs, id) % p
    {
      var id := newIds[m];
      var received := seq(|dealt|, k requires 0 <= k < |dealt| => dealt[k][id]);
      assert received == seq(|fs|, k requires 0 <= k < |fs| => DealShare(p, g, fs[k], id));
      SumOfDealt(p, g, fs, id);
      var package := CombineReceivedShares(p, g, id, received, pkp, newThreshold);
      if package.Err? {
        AllVerify(p, g, fs, id, received);
        return Err(package.error);
      }
      shares := shares[id := package.value.share];
    }
    r := Ok(shares);
  }

  /**
    A whole ceremony driven through the operations: every survivor deals, the
    broadcast commitments are combined, every new member adds up what it was
    dealt.  Where it succeeds it is one `ReshareStep`, so everything above
    applies to what the operations compute.
   */
  method RunReshare<E(!new, ==)>(p: int, g: Group<E>, c: Committee<E>, survivors: seq<int>, newIds: seq<int>,
                                 newThreshold: nat, tails: seq<seq<int>>)
    returns (r: Result<Committee<E>, ReshareError>)
    requires Prime(p) && Identifiers(p, c.ids) && Identifiers(p, newIds)
    requires forall k :: 0 <= k < |c.ids| ==> c.ids[k] in c.shares
    requires Distinct(survivors) && c.threshold <= |survivors| == |tails|
    requires forall k :: 0 <= k < |survivors| ==> survivors[k] in c.ids
    requires forall k :: 0 <= k < |tails| ==> |tails[k]| + 1 == newThreshold
    ensures r.Ok? ==> r.value.ids == newIds && r.value.threshold == newThreshold && ReshareStep(p, g, c, r.value)
    ensures Laws(p, g) ==> (r.Ok? <==> CanReshare(p, survivors, c.shares, newIds, newThreshold, tails))
  {
    var dealing, fs := DealAll(p, g, c, survivors, newIds, newThreshold, tails);
    if dealing.Err? {
      return Err(dealing.error);
    }
    var (commitments, dealt) := dealing.value;
    assert fs == AllDealt(p, survivors, c.shares, tails);
    CombiningSucceeds(p, g, c, survivors, tails, fs, newThreshold);
    var combined := CombineSurvivorCommitments(g, commitments);
    if combined.Err? {
      return Err(combined.error);
    }
    assert combined.value == ColumnSums(g, commitments, newThreshold);
    var pkp := DerivePublicKeyPackage(g, combined.value, newIds);
    var received := ReceiveAll(p, g, fs, dealt, newIds, pkp, newThreshold);
    if received.Err? {
      return Err(received.error);
    }
    var c' := Committee(newIds, newThreshold, received.value, pkp.verifyingKey);
    assert ReshareBy(p, g, c, c', survivors, tails, fs);
    r := Ok(c');
  }

  /** Which dealt commitments can be combined, in terms of the numbers behind them. */
  lemma CombiningSucceeds<E(!new)>(p: int, g: Group<E>, c: Committee<E>, survivors: seq<int>, tails: seq<seq<int>>,
                                   fs: seq<seq<int>>, n: nat)
    requires Prime(p) && |survivors| == |tails| && forall k :: 0 <= k < |survivors| ==> survivors[k] in c.shares
    requires SharesUsable(p, survivors, c.shares) && fs == AllDealt(p, survivors, c.shares, tails) && SameLength(fs, n)
    ensures Laws(p, g) ==> forall k :: 0 <= k < |fs| ==> (HasIdentity(g, Commitments(g, fs)[k]) <==> !NoZero(p, tails[k]))
    ensures Laws(p, g) ==> forall i :: 0 <= i < n ==> (ColumnSum(g, Commitments(g, fs), i) == g.zero <==> PolySum(fs, n)[i] % p == 0)
  {
    if Laws(p, g) {
      forall k | 0 <= k < |fs|
        ensures HasIdentity(g, Commitments(g, fs)[k]) <==> !NoZero(p, tails[k])
      {
        assert Weighted(p, survivors, c.shares, k) != 0;
        DealtIdentity(p, g, survivors, c.shares, tails, k);
      }
      forall i | 0 <= i < n
        ensures ColumnSum(g, Commitments(g, fs), i) == g.zero <==> PolySum(fs, n)[i] % p == 0
      {
        ColumnSumOfCommitments(p, g, fs, n, i);
        ZeroPoint(p, g, PolySum(fs, n)[i]);
      }
    }
  }

  lemma DealtIdentity<E(!new)>(p: int, g: Group<E>, survivors: seq<int>, shares: map<int, int>, tails: seq<seq<int>>, k: nat)
    requires Laws(p, g) && |survivors| == |tails| && k < |survivors| && survivors[k] in shares
    requires Weighted(p, survivors, shares, k) != 0
    ensures HasIdentity(g, Commit(g, DealtPolynomial(p, survivors, survivors[k], shares[survivors[k]], tails[k]))) <==> !NoZero(p, tails[k])
  {
    hide Laws, NoZero, HasIdentity;
    LawsPrime(p, g);
    IdentityIffZero(p, g, DealtPolynomial(p, survivors, survivors[k], shares[survivors[k]], tails[k]));
    DealtNoZero(p, Weighted(p, survivors, shares, k), tails[k]);
  }

  lemma LawsPrime<E(!new)>(p: int, g: Group<E>)
    requires Laws(p, g)
    ensures Prime(p)
  {
  }

  lemma {:induction false} SumOfDealt<E>(p: int, g: Group<E>, fs: seq<seq<int>>, id: int)
    requires 0 < p
    ensures SumValues(seq(|fs|, k requires 0 <= k < |fs| => DealShare(p, g, fs[k], id))) == MemberShare(p, fs, id)
  {
    if fs != [] {
      var m := |fs| - 1;
      SumOfDealt(p, g, fs[..m], id);
      var all := seq(|fs|, k requires 0 <= k < |fs| => DealShare(p, g, fs[k], id));
      assert all[..m] == seq(m, k requires 0 <= k < m => DealShare(p, g, fs[..m][k], id));
    }
  }
}
