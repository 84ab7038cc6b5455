/**
  Proactive resharing (wire-mesh-threshold `reshare.rs`): every survivor
  re-deals its Lagrange-weighted share to a new committee, new members add up
  what they receive, and the broadcast commitments are added coefficient by
  coefficient.

  `frost_ed25519::keys::split` is the secret sharing of appendix C.1 and C.2 of
  RFC 9591; its random coefficients are a parameter here.  Group elements are
  serialised and deserialised as in section 6.1 of RFC 9591, which rejects the
  identity element.
 */
module Reshare {
  import opened Common
  import opened Modular
  import opened Lagrange
  import opened Groups

  datatype ReshareError =
    | WeightError(error: LagrangeError)
    | ZeroSecret
    | SplitParameters
    | IdentityElement
    | CommitmentLengthMismatch
    | EmptyCommitment
    | InvalidShare
    | UnknownIdentifier

  datatype SecretShare<E> = SecretShare(id: int, value: int, commitment: seq<E>)

  datatype PublicKeyPackage<E> = PublicKeyPackage(verifyingShares: map<int, E>, verifyingKey: E)

  datatype KeyPackage<E> = KeyPackage(id: int, share: int, verifyingShare: E, verifyingKey: E, minSigners: nat)

  // --- dealing ---------------------------------------------------------------

  /** The polynomial a survivor deals: its weighted share, then the fresh coefficients. */
  function DealtPolynomial(p: int, survivors: seq<int>, id: int, share: int, tail: seq<int>): seq<int>
    requires 0 < p
  {
    [(Weight(p, survivors, id) * share) % p] + tail
  }

  function DealShare<E>(p: int, g: Group<E>, f: seq<int>, id: int): SecretShare<E>
    requires 0 < p
  {
    SecretShare(id, Eval(f, id) % p, Commit(g, f))
  }

  function DealShares<E>(p: int, g: Group<E>, f: seq<int>, ids: seq<int>): map<int, SecretShare<E>>
    requires 0 < p
  {
    map id | id in ids :: DealShare(p, g, f, id)
  }

  /** The parameter checks of secret sharing, with the committee size cut to 16 bits. */
  predicate SplitAccepts(ids: seq<int>, minSigners: nat) {
    var n := |ids| % 0x1_0000;
    2 <= minSigners <= n && |ids| == n && Distinct(ids)
  }

  /** In numbers: a threshold of at least two, at most the committee, which is distinct and fits 16 bits. */
  lemma SplitAcceptsIff(ids: seq<int>, minSigners: nat)
    ensures SplitAccepts(ids, minSigners) <==> 2 <= minSigners <= |ids| <= 65535 && Distinct(ids)
  {
  }

  /** `round1_reshare`, with the fresh coefficients `tail` drawn by the caller. */
  method Round1Reshare<E>(p: int, g: Group<E>, myId: int, myOldShare: int, survivors: seq<int>,
                          newIds: seq<int>, newMinSigners: nat, tail: seq<int>)
    returns (r: Result<(seq<E>, map<int, SecretShare<E>>), ReshareError>)
    requires Prime(p) && Identifiers(p, survivors) && 0 < myId < p
    requires newMinSigners == 0 || |tail| + 1 == newMinSigners
    ensures r.Ok? ==>
              var f := DealtPolynomial(p, survivors, myId, myOldShare, tail);
              && |f| == newMinSigners
              && r.value.0 == Commit(g, f)
              && r.value.1 == DealShares(p, g, f, newIds)
    ensures r.Ok? <==>
              && myId in survivors
              && (Weight(p, survivors, myId) * myOldShare) % p != 0
              && 2 <= newMinSigners <= |newIds| <= 65535 && Distinct(newIds)
    ensures r.Ok? ==> |r.value.0| == newMinSigners && r.value.0[0] == g.act((Weight(p, survivors, myId) * myOldShare) % p, g.base)
    ensures r.Ok? ==> forall id :: id in newIds ==>
              id in r.value.1 && r.value.1[id].id == id && r.value.1[id].commitment == r.value.0
              && r.value.1[id].value == Eval([(Weight(p, survivors, myId) * myOldShare) % p] + tail, id) % p
    ensures r == Err(WeightError(EmptyIdentifierSet)) <==> survivors == []
    ensures r == Err(WeightError(NotAMember)) <==> survivors != [] && myId !in survivors
    ensures r == Err(ZeroSecret) <==> myId in survivors && (Weight(p, survivors, myId) * myOldShare) % p == 0
  {
    var lambda := LagrangeCoefficientAtZero(p, survivors, myId);
    if lambda.Err? {
      return Err(WeightError(lambda.error));
    }
    var weighted := (lambda.value * myOldShare) % p;
    if weighted == 0 {
      return Err(ZeroSecret);
    }
    SplitAcceptsIff(newIds, newMinSigners);
    if !SplitAccepts(newIds, newMinSigners) {
      return Err(SplitParameters);
    }
    var f := [weighted] + tail;
    r := Ok((Commit(g, f), DealShares(p, g, f, newIds)));
  }

  // --- commitments -------------------------------------------------------------

  /** The sum of the `i`-th coefficients. */
  function ColumnSum<E>(g: Group<E>, cs: seq<seq<E>>, i: nat): E
    requires forall k :: 0 <= k < |cs| ==> i < |cs[k]|
  {
    if cs == [] then g.zero else g.add(ColumnSum(g, cs[..|cs| - 1], i), cs[|cs| - 1][i])
  }

  predicate HasIdentity<E(==)>(g: Group<E>, c: seq<E>) {
    exists i :: 0 <= i < |c| && c[i] == g.zero
  }

  /** `combine_survivor_commitments`. */
  method CombineSurvivorCommitments<E(==)>(g: Group<E>, cs: seq<seq<E>>) returns (r: Result<seq<E>, ReshareError>)
    ensures (exists k :: 0 <= k < |cs| && HasIdentity(g, cs[k])) ==> r == Err(IdentityElement)
    ensures cs == [] ==> r == Err(EmptyCommitment)
    ensures r == Err(CommitmentLengthMismatch) <==>
            && cs != [] && cs[0] != [] && (forall k :: 0 <= k < |cs| ==> !HasIdentity(g, cs[k]))
            && exists k :: 0 <= k < |cs| && |cs[k]| != |cs[0]|
    ensures r.Ok? ==> cs != [] && cs[0] != [] && |r.value| == |cs[0]|
    ensures r.Ok? ==> forall k :: 0 <= k < |cs| ==> |cs[k]| == |cs[0]|
    ensures r.Ok? ==> forall i :: 0 <= i < |cs[0]| ==> r.value[i] == ColumnSum(g, cs, i) && r.value[i] != g.zero
    ensures r.Err? && cs != [] && cs[0] != [] && (forall k :: 0 <= k < |cs| ==> |cs[k]| == |cs[0]| && !HasIdentity(g, cs[k])) ==>
              exists i :: 0 <= i < |cs[0]| && ColumnSum(g, cs, i) == g.zero
  {
    if exists k :: 0 <= k < |cs| && HasIdentity(g, cs[k]) {
      return Err(IdentityElement);
    }
    if |cs| == 0 || |cs[0]| == 0 {
      return Err(EmptyCommitment);
    }
    var degree := |cs[0]|;
    if exists k :: 0 <= k < |cs| && |cs[k]| != degree {
      return Err(CommitmentLengthMismatch);
    }
    var summed: seq<E> := [];
    for i := 0 to degree
      invariant |summed| == i
      invariant forall j :: 0 <= j < i ==> summed[j] == ColumnSum(g, cs, j) && summed[j] != g.zero
    {
      var point := g.zero;
      for k := 0 to |cs|
        invariant point == ColumnSum(g, cs[..k], i)
      {
        assert cs[..k + 1][..k] == cs[..k];
        point := g.add(point, cs[k][i]);
      }
      assert cs[..|cs|] == cs;
      if point == g.zero {
        return Err(IdentityElement);
      }
      summed := summed + [point];
    }
    r := Ok(summed);
  }

  /** `derive_public_key_package`. */
  function DerivePublicKeyPackage<E>(g: Group<E>, combined: seq<E>, newIds: seq<int>): PublicKeyPackage<E>
    requires combined != []
  {
    PublicKeyPackage(map id | id in newIds :: EvalPoints(g, combined, id), combined[0])
  }

  // --- receiving ---------------------------------------------------------------

  /** `SecretShare::verify`: the share is the committed polynomial at its own identifier. */
  predicate Verifies<E(==)>(g: Group<E>, s: SecretShare<E>) {
    s.commitment != [] && g.act(s.value, g.base) == EvalPoints(g, s.commitment, s.id)
  }

  function SumValues<E>(received: seq<SecretShare<E>>): int {
    if received == [] then 0 else SumValues(received[..|received| - 1]) + received[|received| - 1].value
  }

  /** `combine_received_shares`. */
  method CombineReceivedShares<E(==)>(p: int, g: Group<E>, myId: int, received: seq<SecretShare<E>>,
                                      pkp: PublicKeyPackage<E>, newMinSigners: nat)
    returns (r: Result<KeyPackage<E>, ReshareError>)
    requires 0 < p
    ensures r.Err? ==> r.error == InvalidShare || r.error == UnknownIdentifier
    ensures r == Err(InvalidShare) <==>
            exists k :: 0 <= k < |received| && (received[k].commitment == []
                        || g.act(received[k].value, g.base) != EvalPoints(g, received[k].commitment, received[k].id))
    ensures r.Ok? <==> (forall k :: 0 <= k < |received| ==> Verifies(g, received[k])) && myId in pkp.verifyingShares
    ensures r.Ok? ==>
              r.value == KeyPackage(myId, SumValues(received) % p, pkp.verifyingShares[myId], pkp.verifyingKey, newMinSigners)
  {
    var combined := 0;
    CongRefl(p, 0);
    for k := 0 to |received|
      invariant forall j :: 0 <= j < k ==> Verifies(g, received[j])
      invariant Cong(p, combined, SumValues(received[..k]))
      invariant Reduced(p, combined)
    {
      if !Verifies(g, received[k]) {
        return Err(InvalidShare);
      }
      assert received[..k + 1][..k] == received[..k];
      CongRefl(p, received[k].value);
      CongAdd(p, combined, SumValues(received[..k]), received[k].value, received[k].value);
      CongMod(p, combined + received[k].value);
      CongTrans(p, (combined + received[k].value) % p, combined + received[k].value, SumValues(received[..k + 1]));
      combined := (combined + received[k].value) % p;
    }
    assert received[..|received|] == received;
    CongMod(p, SumValues(received));
    CongTrans(p, combined, SumValues(received), SumValues(received) % p);
    ReducedUnique(p, combined, SumValues(received) % p);
    if myId !in pkp.verifyingShares {
      return Err(UnknownIdentifier);
    }
    r := Ok(KeyPackage(myId, combined, pkp.verifyingShares[myId], pkp.verifyingKey, newMinSigners));
  }
}
