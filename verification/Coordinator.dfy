/**
  The coordinator of a threshold signature: `commit_round` and `sign_round`
  over arbitrary responders, the per-session lookup that connects them, the
  envelope checks, and the session numbers `sign_subject` hands out.
 */
module Coordinator {
  import opened Common

  type Dev = nat
  type Id = nat
  type Session = nat
  type Commitments = nat
  type Share = nat

  datatype CoreError = Transport | Crypto

  /** What comes back from a participant, decoded as far as it can be. */
  datatype CommitReply =
    | CommitTransportError
    | CommitRefused
    | CommitOk(responder: Opt<Dev>, commitments: Opt<Commitments>)

  /** A verified share envelope: who signed it, for which session and group. */
  datatype Claims = Claims(session: Session, group: Dev, issuer: Dev, share: Opt<Share>)

  datatype SignReply =
    | SignTransportError
    | SignRefused
    | SignOk(envelope: Opt<Claims>)

  datatype Committed = Committed(id: Id, commitments: Commitments)

  datatype Signed = Signed(id: Id, share: Share)

  // --- round 1 ------------------------------------------------------------------------------

  /** The participant answered for itself, with usable commitments and an identifier. */
  predicate Accepted(identifier: Dev -> Opt<Id>, participant: Dev, reply: CommitReply) {
    && reply.CommitOk? && reply.responder == Yes(participant) && reply.commitments.Yes? && identifier(participant).Yes?
  }

  /** The participant's own answer holds these commitments, and this is its identifier. */
  predicate Offers(identifier: Dev -> Opt<Id>, replies: Dev -> CommitReply, p: Dev, c: Committed) {
    replies(p) == CommitOk(Yes(p), Yes(c.commitments)) && identifier(p) == Yes(c.id)
  }

  /** The participants whose answers count, in the order asked. */
  function Responders(identifier: Dev -> Opt<Id>, participants: seq<Dev>, replies: Dev -> CommitReply): (r: seq<Dev>) {
    if participants == [] then []
    else
      var front, last := Responders(identifier, participants[..|participants| - 1], replies), participants[|participants| - 1];
      if Accepted(identifier, last, replies(last)) then front + [last] else front
  }

  /** What an accepted answer contributes. */
  function EntryOf(identifier: Dev -> Opt<Id>, replies: Dev -> CommitReply, p: Dev): Committed {
    if Accepted(identifier, p, replies(p)) then Committed(identifier(p).value, replies(p).commitments.value) else Committed(0, 0)
  }

  function Entries(identifier: Dev -> Opt<Id>, replies: Dev -> CommitReply, responders: seq<Dev>): (r: seq<Committed>)
    ensures |r| == |responders|
    ensures forall i :: 0 <= i < |r| ==> r[i] == EntryOf(identifier, replies, responders[i])
  {
    seq(|responders|, i requires 0 <= i < |responders| => EntryOf(identifier, replies, responders[i]))
  }

  /** Who stands behind each identifier. */
  function LookupOf(identifier: Dev -> Opt<Id>, responders: seq<Dev>): map<Id, Dev> {
    if responders == [] then map[]
    else
      var m, last := LookupOf(identifier, responders[..|responders| - 1]), responders[|responders| - 1];
      if identifier(last).Yes? then m[identifier(last).value := last] else m
  }

  lemma {:induction false} RespondersAccepted(identifier: Dev -> Opt<Id>, participants: seq<Dev>, replies: Dev -> CommitReply)
    ensures forall p :: p in Responders(identifier, participants, replies) <==>
                        p in participants && Accepted(identifier, p, replies(p))
  {
    if participants != [] {
      var front := participants[..|participants| - 1];
      RespondersAccepted(identifier, front, replies);
      assert participants == front + [participants[|participants| - 1]];
    }
  }

  lemma {:induction false} RespondersDistinct(identifier: Dev -> Opt<Id>, participants: seq<Dev>, replies: Dev -> CommitReply)
    requires Distinct(participants)
    ensures Distinct(Responders(identifier, participants, replies))
  {
    if participants != [] {
      var front, last := participants[..|participants| - 1], participants[|participants| - 1];
      RespondersDistinct(identifier, front, replies);
      RespondersAccepted(identifier, front, replies);
      var r := Responders(identifier, front, replies);
      assert last !in front;
      assert last !in r;
    }
  }

  /** Different devices have different identifiers. */
  ghost predicate Injective(identifier: Dev -> Opt<Id>) {
    forall a, b :: identifier(a).Yes? && identifier(a) == identifier(b) ==> a == b
  }

  predicate FoundIn(lookup: map<Id, Dev>, identifier: Dev -> Opt<Id>, p: Dev) {
    identifier(p).Yes? && identifier(p).value in lookup && lookup[identifier(p).value] == p
  }

  lemma {:induction false} LookupFinds(identifier: Dev -> Opt<Id>, responders: seq<Dev>)
    requires Injective(identifier) && forall p :: p in responders ==> identifier(p).Yes?
    ensures forall p :: p in responders ==> FoundIn(LookupOf(identifier, responders), identifier, p)
    ensures forall id :: id in LookupOf(identifier, responders) ==>
                         LookupOf(identifier, responders)[id] in responders && identifier(LookupOf(identifier, responders)[id]) == Yes(id)
  {
    if responders != [] {
      var front, last := responders[..|responders| - 1], responders[|responders| - 1];
      LookupFinds(identifier, front);
      forall p | p in responders
        ensures FoundIn(LookupOf(identifier, responders), identifier, p)
      {
        if p != last { assert p in front; }
      }
    }
  }

  /** What the first round returns are the participants' own commitments, one entry for each that answered for itself. */
  lemma EntriesOffered(identifier: Dev -> Opt<Id>, participants: seq<Dev>, replies: Dev -> CommitReply)
    ensures var entries := Entries(identifier, replies, Responders(identifier, participants, replies));
            && (forall c :: c in entries ==> exists p :: p in participants && Offers(identifier, replies, p, c))
            && (forall p, c :: p in participants && Offers(identifier, replies, p, c) ==> c in entries)
  {
    var responders := Responders(identifier, participants, replies);
    var entries := Entries(identifier, replies, responders);
    RespondersAccepted(identifier, participants, replies);
    forall c | c in entries
      ensures exists p :: p in participants && Offers(identifier, replies, p, c)
    {
      var i :| 0 <= i < |entries| && entries[i] == c;
      var p := responders[i];
      assert p in responders;
      assert Offers(identifier, replies, p, c);
    }
    forall p, c | p in participants && Offers(identifier, replies, p, c)
      ensures c in entries
    {
      assert p in responders;
      var i :| 0 <= i < |responders| && responders[i] == p;
      assert entries[i] == c;
    }
  }

  /** Every identifier remembered leads to a participant that answered for itself and has it. */
  lemma {:induction false} LookupAnswered(identifier: Dev -> Opt<Id>, responders: seq<Dev>)
    ensures var lookup := LookupOf(identifier, responders);
            && (forall id :: id in lookup ==> lookup[id] in responders && identifier(lookup[id]) == Yes(id))
            && (forall p :: p in responders && identifier(p).Yes? ==> identifier(p).value in lookup)
  {
    if responders != [] {
      var front, last := responders[..|responders| - 1], responders[|responders| - 1];
      LookupAnswered(identifier, front);
      assert responders == front + [last];
      var lookup := LookupOf(identifier, responders);
      forall id | id in lookup
        ensures lookup[id] in responders && identifier(lookup[id]) == Yes(id)
      {
        if identifier(last) != Yes(id) {
          var p := LookupOf(identifier, front)[id];
          assert p in front;
        }
      }
    }
  }

  /** Of participants with one identifier, the last that answered is remembered. */
  lemma {:induction false} LastRemembered(identifier: Dev -> Opt<Id>, responders: seq<Dev>, i: nat, id: Id)
    requires i < |responders| && identifier(responders[i]) == Yes(id)
    requires forall j :: i < j < |responders| ==> identifier(responders[j]) != Yes(id)
    ensures id in LookupOf(identifier, responders) && LookupOf(identifier, responders)[id] == responders[i]
    decreases |responders|
  {
    if i < |responders| - 1 { LastRemembered(identifier, responders[..|responders| - 1], i, id); }
  }

  // --- round 2 ---------------------------------------------------------------------------------------

  /** The envelope is for this session and group, from this device, and holds a share. */
  predicate Matches(session: Session, group: Dev, device: Dev, reply: SignReply) {
    && reply.SignOk? && reply.envelope.Yes?
    && reply.envelope.value.session == session && reply.envelope.value.group == group && reply.envelope.value.issuer == device
    && reply.envelope.value.share.Yes?
  }

  /** The device's own envelope, for this session and group, holds this share. */
  predicate AnswersWith(session: Session, group: Dev, replies: Dev -> SignReply, device: Dev, share: Share) {
    replies(device) == SignOk(Yes(Claims(session, group, device, Yes(share))))
  }

  /** The shares that count, in the order asked. */
  function Shares(session: Session, group: Dev, lookup: map<Id, Dev>, commitments: seq<Committed>, replies: Dev -> SignReply): seq<Signed>
    requires forall i :: 0 <= i < |commitments| ==> commitments[i].id in lookup
  {
    if commitments == [] then []
    else
      var front, last := Shares(session, group, lookup, commitments[..|commitments| - 1], replies), commitments[|commitments| - 1];
      var device := lookup[last.id];
      if Matches(session, group, device, replies(device)) then front + [Signed(last.id, replies(device).envelope.value.share.value)]
      else front
  }

  /** A share answers one of the commitments asked, with a matching envelope from the device behind it. */
  ghost predicate Vouched(session: Session, group: Dev, lookup: map<Id, Dev>, commitments: seq<Committed>, replies: Dev -> SignReply,
                          s: Signed) {
    && s.id in lookup && (exists j :: 0 <= j < |commitments| && commitments[j].id == s.id)
    && Matches(session, group, lookup[s.id], replies(lookup[s.id]))
    && s.share == replies(lookup[s.id]).envelope.value.share.value
  }

  lemma {:induction false} SharesVouched(session: Session, group: Dev, lookup: map<Id, Dev>, commitments: seq<Committed>, replies: Dev -> SignReply)
    requires forall i :: 0 <= i < |commitments| ==> commitments[i].id in lookup
    ensures forall s :: s in Shares(session, group, lookup, commitments, replies) ==> Vouched(session, group, lookup, commitments, replies, s)
  {
    if commitments != [] {
      var front, last := commitments[..|commitments| - 1], commitments[|commitments| - 1];
      SharesVouched(session, group, lookup, front, replies);
      forall s | s in Shares(session, group, lookup, commitments, replies)
        ensures Vouched(session, group, lookup, commitments, replies, s)
      {
        if s in Shares(session, group, lookup, front, replies) {
          var j :| 0 <= j < |front| && front[j].id == s.id;
          assert commitments[j].id == s.id;
        } else {
          assert commitments[|commitments| - 1].id == s.id;
        }
      }
    }
  }

  predicate DistinctIds(cs: seq<Committed>) {
    forall i, j :: 0 <= i < j < |cs| ==> cs[i].id != cs[j].id
  }

  predicate DistinctSigners(ss: seq<Signed>) {
    forall i, j :: 0 <= i < j < |ss| ==> ss[i].id != ss[j].id
  }

  lemma {:induction false} SharesDistinct(session: Session, group: Dev, lookup: map<Id, Dev>, commitments: seq<Committed>, replies: Dev -> SignReply)
    requires DistinctIds(commitments) && forall i :: 0 <= i < |commitments| ==> commitments[i].id in lookup
    ensures DistinctSigners(Shares(session, group, lookup, commitments, replies))
  {
    if commitments != [] {
      var front, last := commitments[..|commitments| - 1], commitments[|commitments| - 1];
      SharesDistinct(session, group, lookup, front, replies);
      SharesVouched(session, group, lookup, front, replies);
      var earlier := Shares(session, group, lookup, front, replies);
      forall i | 0 <= i < |earlier|
        ensures earlier[i].id != last.id
      {
        assert earlier[i] in earlier;
        var j :| 0 <= j < |front| && front[j].id == earlier[i].id;
        assert commitments[j] == front[j];
      }
    }
  }

  /** Every commitment is under a remembered identifier. */
  predicate AllKnown(lookup: map<Id, Dev>, commitments: seq<Committed>) {
    forall i :: 0 <= i < |commitments| ==> commitments[i].id in lookup
  }

  /** No device asked for a share gives a transport error. */
  predicate AllReachable(lookup: map<Id, Dev>, commitments: seq<Committed>, replies: Dev -> SignReply)
    requires AllKnown(lookup, commitments)
  {
    forall i :: 0 <= i < |commitments| ==> !replies(lookup[commitments[i].id]).SignTransportError?
  }

  lemma RoundOneAnswers(identifier: Dev -> Opt<Id>, participants: seq<Dev>, replies: Dev -> CommitReply)
    ensures var responders := Responders(identifier, participants, replies);
            var entries, lookup := Entries(identifier, replies, responders), LookupOf(identifier, responders);
            && (forall c :: c in entries ==> exists p :: p in participants && Offers(identifier, replies, p, c))
            && (forall p, c :: p in participants && Offers(identifier, replies, p, c) ==> c in entries)
            && (forall id :: id in lookup ==>
                  lookup[id] in participants && exists c :: c in entries && c.id == id && Offers(identifier, replies, lookup[id], c))
  {
    var responders := Responders(identifier, participants, replies);
    var entries, lookup := Entries(identifier, replies, responders), LookupOf(identifier, responders);
    EntriesOffered(identifier, participants, replies);
    LookupAnswered(identifier, responders);
    RespondersAccepted(identifier, participants, replies);
    forall id | id in lookup
      ensures lookup[id] in participants && exists c :: c in entries && c.id == id && Offers(identifier, replies, lookup[id], c)
    {
      var p := lookup[id];
      assert p in responders;
      assert Offers(identifier, replies, p, EntryOf(identifier, replies, p));
    }
  }

  /** The shares kept are the ones the devices behind the commitments signed for this session and group, all of them. */
  lemma RoundTwoAnswers(session: Session, group: Dev, lookup: map<Id, Dev>, commitments: seq<Committed>, replies: Dev -> SignReply)
    requires forall i :: 0 <= i < |commitments| ==> commitments[i].id in lookup
    ensures var shares := Shares(session, group, lookup, commitments, replies);
            && (forall s :: s in shares ==>
                  && (exists i :: 0 <= i < |commitments| && commitments[i].id == s.id)
                  && s.id in lookup && AnswersWith(session, group, replies, lookup[s.id], s.share))
            && (forall i, share :: 0 <= i < |commitments| && AnswersWith(session, group, replies, lookup[commitments[i].id], share) ==>
                  Signed(commitments[i].id, share) in shares)
  {
    SharesVouched(session, group, lookup, commitments, replies);
    forall i, share | 0 <= i < |commitments| && AnswersWith(session, group, replies, lookup[commitments[i].id], share)
      ensures Signed(commitments[i].id, share) in Shares(session, group, lookup, commitments, replies)
    {
      SharesComplete(session, group, lookup, commitments, replies, i);
    }
  }

  lemma {:induction false} SharesComplete(session: Session, group: Dev, lookup: map<Id, Dev>, commitments: seq<Committed>,
                                          replies: Dev -> SignReply, i: nat)
    requires i < |commitments| && forall i :: 0 <= i < |commitments| ==> commitments[i].id in lookup
    requires Matches(session, group, lookup[commitments[i].id], replies(lookup[commitments[i].id]))
    ensures Signed(commitments[i].id, replies(lookup[commitments[i].id]).envelope.value.share.value)
            in Shares(session, group, lookup, commitments, replies)
    decreases |commitments|
  {
    var front := commitments[..|commitments| - 1];
    if i < |front| { SharesComplete(session, group, lookup, front, replies, i); }
  }

  // --- the coordinator -----------------------------------------------------------------------------------

  class NetworkThresholdCoordinator {
    const group: Dev
    const identifier: Dev -> Opt<Id>
    var identifierLookup: map<Session, map<Id, Dev>>

    constructor (ownGroup: Dev, identifierOf: Dev -> Opt<Id>)
      ensures group == ownGroup && identifier == identifierOf && identifierLookup == map[]
    {
      group, identifier, identifierLookup := ownGroup, identifierOf, map[];
    }

    /**
      Asks every participant for commitments.  Answers that are refusals, are for
      someone else or cannot be read are passed over; a transport error ends the
      round.  The devices behind the accepted answers are remembered.
     */
    method CommitRound(session: Session, participants: seq<Dev>, replies: Dev -> CommitReply) returns (r: Result<seq<Committed>, CoreError>)
      modifies this
      ensures (exists i :: 0 <= i < |participants| && replies(participants[i]).CommitTransportError?) <==> r.Err?
      ensures r.Err? ==> r.error == Transport && identifierLookup == old(identifierLookup)
      ensures r.Ok? ==> forall c :: c in r.value ==> exists p :: p in participants && Offers(identifier, replies, p, c)
      ensures r.Ok? ==> forall p, c :: p in participants && Offers(identifier, replies, p, c) ==> c in r.value
      ensures r.Ok? && r.value != [] ==>
                session in identifierLookup &&
                forall id :: id in identifierLookup[session] ==>
                  var p := identifierLookup[session][id];
                  p in participants && exists c :: c in r.value && c.id == id && Offers(identifier, replies, p, c)
      ensures r.Ok? ==>
                var responders := Responders(identifier, participants, replies);
                && r.value == Entries(identifier, replies, responders)
                && identifierLookup == (if responders == [] then old(identifierLookup)
                                        else old(identifierLookup)[session := LookupOf(identifier, responders)])
    {
      var devices: map<Id, Dev> := map[];
      var results: seq<Committed> := [];
      ghost var seen: seq<Dev> := [];
      for k := 0 to |participants|
        invariant identifierLookup == old(identifierLookup)
        invariant forall i :: 0 <= i < k ==> !replies(participants[i]).CommitTransportError?
        invariant seen == Responders(identifier, participants[..k], replies)
        invariant results == Entries(identifier, replies, seen) && devices == LookupOf(identifier, seen)
        invariant devices == map[] <==> seen == []
      {
        var participant := participants[k];
        var outcome := replies(participant);
        assert participants[..k + 1][..k] == participants[..k] && participants[..k + 1][k] == participant;
        if outcome.CommitTransportError? { return Err(Transport); }
        if outcome.CommitOk? && outcome.responder == Yes(participant) && outcome.commitments.Yes? {
          var id := identifier(participant);
          if id.Yes? {
            ghost var before := seen;
            seen := seen + [participant];
            assert seen[..|seen| - 1] == before;
            devices := devices[id.value := participant];
            assert id.value in devices;
            results := results + [Committed(id.value, outcome.commitments.value)];
          }
        }
      }
      assert participants[..|participants|] == participants;
      RoundOneAnswers(identifier, participants, replies);
      if devices != map[] {
        identifierLookup := identifierLookup[session := devices];
      }
      return Ok(results);
    }

    /**
      Asks the devices behind the commitments for shares, and keeps those whose
      envelope names this session, this group and that device.  The session's
      lookup is consumed whatever happens.
     */
    method SignRound(session: Session, commitments: seq<Committed>, replies: Dev -> SignReply) returns (r: Result<seq<Signed>, CoreError>)
      modifies this
      ensures identifierLookup == old(identifierLookup) - {session}
      ensures session !in old(identifierLookup) ==> r == Err(Crypto)
      ensures session in old(identifierLookup) ==>
                var lookup := old(identifierLookup)[session];
                && (r == Err(Crypto) <==> !AllKnown(lookup, commitments))
                && (r == Err(Transport) <==> AllKnown(lookup, commitments) && !AllReachable(lookup, commitments, replies))
                && (r.Ok? <==> AllKnown(lookup, commitments) && AllReachable(lookup, commitments, replies))
                && (r.Ok? ==> r.value == Shares(session, group, lookup, commitments, replies))
                && (r.Ok? ==> forall s :: s in r.value ==>
                      && (exists i :: 0 <= i < |commitments| && commitments[i].id == s.id)
                      && s.id in lookup && AnswersWith(session, group, replies, lookup[s.id], s.share))
                && (r.Ok? ==> forall i, share :: 0 <= i < |commitments| && AnswersWith(session, group, replies, lookup[commitments[i].id], share) ==>
                      Signed(commitments[i].id, share) in r.value)
    {
      if session !in identifierLookup {
        assert identifierLookup - {session} == identifierLookup;
        return Err(Crypto);
      }
      var lookup := identifierLookup[session];
      identifierLookup := identifierLookup - {session};
      for k := 0 to |commitments|
        invariant identifierLookup == old(identifierLookup) - {session}
        invariant forall i :: 0 <= i < k ==> commitments[i].id in lookup
      {
        if commitments[k].id !in lookup { return Err(Crypto); }
      }
      var results: seq<Signed> := [];
      for k := 0 to |commitments|
        invariant identifierLookup == old(identifierLookup) - {session}
        invariant forall i :: 0 <= i < k ==> commitments[..k][i].id in lookup && !replies(lookup[commitments[i].id]).SignTransportError?
        invariant results == Shares(session, group, lookup, commitments[..k], replies)
      {
        assert commitments[..k + 1][..k] == commitments[..k] && commitments[..k + 1][k] == commitments[k];
        var device := lookup[commitments[k].id];
        var outcome := replies(device);
        if outcome.SignTransportError? { return Err(Transport); }
        if outcome.SignOk? && outcome.envelope.Yes? {
          var claims := outcome.envelope.value;
          if claims.session == session && claims.group == group && claims.issuer == device && claims.share.Yes? {
            results := results + [Signed(commitments[k].id, claims.share.value)];
          }
        }
      }
      assert commitments[..|commitments|] == commitments;
      RoundTwoAnswers(session, group, lookup, commitments, replies);
      return Ok(results);
    }
  }

  /** The share comes from a participant that answered both rounds for itself. */
  ghost predicate Answered(identifier: Dev -> Opt<Id>, group: Dev, session: Session, participants: seq<Dev>,
                           commitReplies: Dev -> CommitReply, signReplies: Dev -> SignReply, s: Signed) {
    exists p :: p in participants && Took(identifier, commitReplies, p, s.id) && AnswersWith(session, group, signReplies, p, s.share)
  }

  /** The participant offered commitments under this identifier. */
  predicate Took(identifier: Dev -> Opt<Id>, replies: Dev -> CommitReply, p: Dev, id: Id) {
    identifier(p) == Yes(id) && replies(p).CommitOk? && replies(p).responder == Yes(p) && replies(p).commitments.Yes?
  }

  lemma SessionSound(identifier: Dev -> Opt<Id>, group: Dev, session: Session, participants: seq<Dev>,
                     commitReplies: Dev -> CommitReply, signReplies: Dev -> SignReply,
                     responders: seq<Dev>, committed: seq<Committed>, shares: seq<Signed>)
    requires Injective(identifier) && Distinct(participants) && responders == Responders(identifier, participants, commitReplies)
    requires committed == Entries(identifier, commitReplies, responders)
    requires forall i :: 0 <= i < |committed| ==> committed[i].id in LookupOf(identifier, responders)
    requires shares == Shares(session, group, LookupOf(identifier, responders), committed, signReplies)
    ensures forall c :: c in committed ==> exists p :: p in participants && Offers(identifier, commitReplies, p, c)
    ensures forall p, c :: p in participants && Offers(identifier, commitReplies, p, c) ==> c in committed
    ensures DistinctSigners(shares)
    ensures forall s :: s in shares ==> Answered(identifier, group, session, participants, commitReplies, signReplies, s)
    ensures forall p, id, share ::
              p in participants && Took(identifier, commitReplies, p, id) && AnswersWith(session, group, signReplies, p, share)
              ==> Signed(id, share) in shares
  {
    var lookup := LookupOf(identifier, responders);
    EntriesOffered(identifier, participants, commitReplies);
    RespondersAccepted(identifier, participants, commitReplies);
    RespondersDistinct(identifier, participants, commitReplies);
    LookupFinds(identifier, responders);
    RoundTwoAnswers(session, group, lookup, committed, signReplies);
    SharesDistinct(session, group, lookup, committed, signReplies);
    forall s | s in shares
      ensures Answered(identifier, group, session, participants, commitReplies, signReplies, s)
    {
      var p := lookup[s.id];
      assert p in responders;
    }
    forall p, id, share | p in participants && Took(identifier, commitReplies, p, id) && AnswersWith(session, group, signReplies, p, share)
      ensures Signed(id, share) in shares
    {
      assert p in responders;
      var i :| 0 <= i < |responders| && responders[i] == p;
      assert committed[i].id == id;
    }
  }

  // --- unwrapping envelopes ---------------------------------------------------------------------------

  datatype SigningError = BadEnvelope | UnexpectedSession | UnexpectedGroup | UnexpectedIssuer | BadShare

  /** Verified, for this session and group, from a known issuer, with a readable share. */
  predicate Usable(session: Session, group: Dev, identifier: Dev -> Opt<Id>, envelope: Opt<Claims>) {
    && envelope.Yes? && envelope.value.session == session && envelope.value.group == group
    && identifier(envelope.value.issuer).Yes? && envelope.value.share.Yes?
  }

  /** What is wrong with an envelope, in the order it is looked at. */
  function Fault(session: Session, group: Dev, identifier: Dev -> Opt<Id>, envelope: Opt<Claims>): (r: Opt<SigningError>)
    ensures r.No? <==> Usable(session, group, identifier, envelope)
  {
    if envelope.No? then Yes(BadEnvelope)
    else if envelope.value.session != session then Yes(UnexpectedSession)
    else if envelope.value.group != group then Yes(UnexpectedGroup)
    else if identifier(envelope.value.issuer).No? then Yes(UnexpectedIssuer)
    else if envelope.value.share.No? then Yes(BadShare)
    else No
  }

  /** Shares by identifier; a later envelope from the same identifier replaces an earlier one. */
  function SharesById(identifier: Dev -> Opt<Id>, envelopes: seq<Opt<Claims>>): map<Id, Share> {
    if envelopes == [] then map[]
    else
      var m, e := SharesById(identifier, envelopes[..|envelopes| - 1]), envelopes[|envelopes| - 1];
      if e.Yes? && e.value.share.Yes? && identifier(e.value.issuer).Yes?
      then m[identifier(e.value.issuer).value := e.value.share.value] else m
  }

  /** The checks `unwrap_and_aggregate` makes before aggregating: one bad envelope and nothing is aggregated. */
  method UnwrapShares(envelopes: seq<Opt<Claims>>, session: Session, group: Dev, identifier: Dev -> Opt<Id>) returns (r: Result<map<Id, Share>, SigningError>)
    ensures r.Ok? <==> forall i :: 0 <= i < |envelopes| ==> Usable(session, group, identifier, envelopes[i])
    ensures r.Ok? ==> r.value == SharesById(identifier, envelopes)
    ensures r.Err? ==> exists k :: 0 <= k < |envelopes| && Fault(session, group, identifier, envelopes[k]) == Yes(r.error)
                                   && forall i :: 0 <= i < k ==> Usable(session, group, identifier, envelopes[i])
  {
    var shares: map<Id, Share> := map[];
    for k := 0 to |envelopes|
      invariant forall i :: 0 <= i < k ==> Usable(session, group, identifier, envelopes[i])
      invariant shares == SharesById(identifier, envelopes[..k])
    {
      assert envelopes[..k + 1][..k] == envelopes[..k] && envelopes[..k + 1][k] == envelopes[k];
      if envelopes[k].No? { return Err(BadEnvelope); }
      var claims := envelopes[k].value;
      if claims.session != session { return Err(UnexpectedSession); }
      if claims.group != group { return Err(UnexpectedGroup); }
      var id := identifier(claims.issuer);
      if id.No? { return Err(UnexpectedIssuer); }
      if claims.share.No? { return Err(BadShare); }
      shares := shares[id.value := claims.share.value];
    }
    assert envelopes[..|envelopes|] == envelopes;
    return Ok(shares);
  }

  /** An envelope with a share, whose issuer has this identifier. */
  predicate From(identifier: Dev -> Opt<Id>, envelope: Opt<Claims>, id: Id) {
    envelope.Yes? && envelope.value.share.Yes? && identifier(envelope.value.issuer) == Yes(id)
  }

  /** Under each identifier is the share of the last envelope from it, and nothing else is there. */
  lemma {:induction false} LastShareWins(identifier: Dev -> Opt<Id>, envelopes: seq<Opt<Claims>>, id: Id)
    ensures var m := SharesById(identifier, envelopes);
            && (id in m <==> exists i :: 0 <= i < |envelopes| && From(identifier, envelopes[i], id))
            && (forall i :: 0 <= i < |envelopes| && From(identifier, envelopes[i], id)
                            && (forall j :: i < j < |envelopes| ==> !From(identifier, envelopes[j], id))
                            ==> id in m && m[id] == envelopes[i].value.share.value)
  {
    if envelopes != [] {
      var n := |envelopes| - 1;
      var front := envelopes[..n];
      LastShareWins(identifier, front, id);
      var m, earlier := SharesById(identifier, envelopes), SharesById(identifier, front);
      if From(identifier, envelopes[n], id) {
        assert id in m && m[id] == envelopes[n].value.share.value;
      } else {
        assert id in m <==> id in earlier;
        assert id in m ==> m[id] == earlier[id];
        forall i | 0 <= i < |envelopes| && From(identifier, envelopes[i], id) && forall j :: i < j < |envelopes| ==> !From(identifier, envelopes[j], id)
          ensures id in m && m[id] == envelopes[i].value.share.value
        {
          assert front[i] == envelopes[i];
        }
      }
    }
  }

  /** From different issuers, every share arrives under its issuer's identifier. */
  lemma NoShareLost(identifier: Dev -> Opt<Id>, envelopes: seq<Opt<Claims>>, i: nat)
    requires Injective(identifier) && i < |envelopes|
    requires forall j :: 0 <= j < |envelopes| ==>
                           envelopes[j].Yes? && envelopes[j].value.share.Yes? && identifier(envelopes[j].value.issuer).Yes?
    requires forall j, k :: 0 <= j < k < |envelopes| ==> envelopes[j].value.issuer != envelopes[k].value.issuer
    ensures var id, m := identifier(envelopes[i].value.issuer).value, SharesById(identifier, envelopes);
            id in m && m[id] == envelopes[i].value.share.value
  {
    var id := identifier(envelopes[i].value.issuer).value;
    LastShareWins(identifier, envelopes, id);
    assert From(identifier, envelopes[i], id);
    forall j | i < j < |envelopes|
      ensures !From(identifier, envelopes[j], id)
    {
      assert envelopes[i].value.issuer != envelopes[j].value.issuer;
    }
  }

  // --- session numbers ---------------------------------------------------------------------------------

  const U64: nat := 0x1_0000_0000_0000_0000

  class SessionCounter {
    var next: nat

    ghost predicate Valid()
      reads this
    {
      next < U64
    }

    constructor ()
      ensures Valid() && next == 1
    {
      next := 1;
    }

    /** `fetch_add(1)` on a 64-bit counter. */
    method FetchAdd() returns (session: Session)
      requires Valid()
      modifies this
      ensures Valid() && session == old(next) && next == (old(next) + 1) % U64
    {
      session := next;
      next := (next + 1) % U64;
    }
  }

  /** The session number of the n-th call of `sign_subject`. */
  function SessionOf(n: nat): Session {
    if n == 0 then 1 else (SessionOf(n - 1) + 1) % U64
  }

  lemma {:induction false} SessionIs(n: nat)
    ensures SessionOf(n) == (n + 1) % U64
  {
    hide SessionOf;
    if n == 0 {
      FirstSession();
    } else {
      SessionIs(n - 1);
      NextSession(n);
      NextRemainder(n, U64);
    }
  }

  lemma FirstSession()
    ensures SessionOf(0) == 1
  {
  }

  lemma NextSession(n: nat)
    requires n > 0
    ensures SessionOf(n) == (SessionOf(n - 1) + 1) % U64
  {
  }

  lemma NextRemainder(a: nat, k: int)
    requires k > 0
    ensures (a % k + 1) % k == (a + 1) % k
  {
    var gap := a - a % k;
    assert gap == k * (a / k);
    assert gap % k == k * (a / k) - k * (gap / k);
    Expand(k, a / k, gap / k, 0);
    NoMultiple(k, a / k - gap / k, 0, gap % k);
    SameRemainder(a % k + 1, a + 1, k);
  }

  /** Two calls share a session number exactly when they are a whole number of wraps apart. */
  lemma SessionsDistinct(m: nat, n: nat)
    requires m < n
    ensures SessionOf(m) == SessionOf(n) <==> (n - m) % U64 == 0
    ensures n - m < U64 ==> SessionOf(m) != SessionOf(n)
  {
    SessionIs(m);
    SessionIs(n);
    SameRemainder(m + 1, n + 1, U64);
  }

  lemma SameRemainder(a: int, b: int, k: int)
    requires k > 0 && a <= b
    ensures a % k == b % k <==> (b - a) % k == 0
    ensures 0 < b - a < k ==> (b - a) % k != 0
  {
    var qa, qb, q := a / k, b / k, (b - a) / k;
    assert a == k * qa + a % k && b == k * qb + b % k && b - a == k * q + (b - a) % k;
    assert (b - a) % k == k * (qb - qa - q) + (b % k - a % k) by { Expand(k, qb, qa, q); }
    NoMultiple(k, qb - qa - q, b % k - a % k, (b - a) % k);
    if 0 < b - a < k { NoMultiple(k, q, 0, b - a - (b - a) % k); }
  }

  lemma Expand(k: int, x: int, y: int, z: int)
    ensures k * x - k * y - k * z == k * (x - y - z)
  {
  }

  /** Remainders and their differences are too small to hide a multiple. */
  lemma NoMultiple(k: int, m: int, d: int, r: int)
    requires k > 0 && -k < d < k && 0 <= r < k && r == k * m + d
    ensures d == 0 <==> r == 0
  {
    if m >= 1 { assert k * m >= k; }
  }

  // --- signing a subject ------------------------------------------------------------------------------

  /** What goes into aggregation. */
  datatype Collected = Collected(commitments: seq<Committed>, shares: seq<Signed>)

  /** No participant gives a transport error in the first round. */
  predicate AllReached(participants: seq<Dev>, replies: Dev -> CommitReply) {
    forall p :: p in participants ==> !replies(p).CommitTransportError?
  }

  /** None of these gives one in the second. */
  predicate AllReachedAgain(responders: seq<Dev>, replies: Dev -> SignReply) {
    forall p :: p in responders ==> !replies(p).SignTransportError?
  }

  lemma ReachedIff(participants: seq<Dev>, replies: Dev -> CommitReply)
    ensures AllReached(participants, replies) <==> !exists i :: 0 <= i < |participants| && replies(participants[i]).CommitTransportError?
    ensures AllReached(participants, replies) <==> !exists p :: p in participants && replies(p).CommitTransportError?
  {
  }

  /**
    The commitments are the participants' own, each that answered for itself has
    its entry; the shares have signers of their own, come from such participants,
    and none that was signed for this session and group is missing.
   */
  ghost predicate CollectedRight(identifier: Dev -> Opt<Id>, group: Dev, session: Session, participants: seq<Dev>,
                                 commitReplies: Dev -> CommitReply, signReplies: Dev -> SignReply, c: Collected) {
    && (forall e :: e in c.commitments ==> exists p :: p in participants && Offers(identifier, commitReplies, p, e))
    && (forall p, e :: p in participants && Offers(identifier, commitReplies, p, e) ==> e in c.commitments)
    && DistinctSigners(c.shares)
    && (forall s :: s in c.shares ==> Answered(identifier, group, session, participants, commitReplies, signReplies, s))
    && (forall p, id, share ::
          p in participants && Took(identifier, commitReplies, p, id) && AnswersWith(session, group, signReplies, p, share)
          ==> Signed(id, share) in c.shares)
  }

  lemma CollectedSound(identifier: Dev -> Opt<Id>, group: Dev, session: Session, participants: seq<Dev>,
                       commitReplies: Dev -> CommitReply, signReplies: Dev -> SignReply,
                       responders: seq<Dev>, committed: seq<Committed>, shares: seq<Signed>)
    requires Injective(identifier) && Distinct(participants) && responders == Responders(identifier, participants, commitReplies)
    requires committed == Entries(identifier, commitReplies, responders)
    requires AllKnown(LookupOf(identifier, responders), committed)
    requires shares == Shares(session, group, LookupOf(identifier, responders), committed, signReplies)
    ensures CollectedRight(identifier, group, session, participants, commitReplies, signReplies, Collected(committed, shares))
  {
    hide Offers, Answered, Took, AnswersWith, Shares, LookupOf, Responders;
    SessionSound(identifier, group, session, participants, commitReplies, signReplies, responders, committed, shares);
  }

  lemma NothingCollected(identifier: Dev -> Opt<Id>, group: Dev, session: Session, participants: seq<Dev>,
                         commitReplies: Dev -> CommitReply, signReplies: Dev -> SignReply)
    requires Responders(identifier, participants, commitReplies) == []
    ensures CollectedRight(identifier, group, session, participants, commitReplies, signReplies, Collected([], []))
  {
    EntriesOffered(identifier, participants, commitReplies);
    RespondersAccepted(identifier, participants, commitReplies);
  }

  class ThresholdIdentity {
    const threshold: nat
    const participants: seq<Dev>
    const coordinator: NetworkThresholdCoordinator
    const counter: SessionCounter

    ghost predicate Valid()
      reads this, counter
    {
      counter.Valid() && Distinct(participants) && Injective(coordinator.identifier)
    }

    constructor (quorum: nat, devices: seq<Dev>, c: NetworkThresholdCoordinator)
      requires Distinct(devices) && Injective(c.identifier)
      ensures Valid() && fresh(counter) && threshold == quorum && participants == devices && coordinator == c && counter.next == 1
    {
      threshold, participants, coordinator := quorum, devices, c;
      counter := new SessionCounter();
    }

    /**
      `sign_subject` up to aggregation: a session number of its own, both rounds,
      and the quorum check between them.  Whatever the responders send, every
      share kept has an identifier of its own, whose device answered this
      session's first round for itself and signed an envelope for this session
      and group; and no share of such a device is dropped.
     */
    method SignSubject(commitReplies: Dev -> CommitReply, signReplies: Dev -> SignReply) returns (r: Result<Collected, CoreError>)
      requires Valid()
      modifies counter, coordinator
      ensures Valid() && counter.next == (old(counter.next) + 1) % U64
      ensures var responders := Responders(coordinator.identifier, participants, commitReplies);
              && (r.Ok? <==>
                    && AllReached(participants, commitReplies) && |responders| >= threshold
                    && (responders != [] || old(counter.next) in old(coordinator.identifierLookup))
                    && AllReachedAgain(responders, signReplies))
              && (r == Err(Transport) <==>
                    !AllReached(participants, commitReplies) || (|responders| >= threshold && !AllReachedAgain(responders, signReplies)))
      ensures coordinator.identifierLookup ==
              LookupAfter(old(coordinator.identifierLookup), old(counter.next), coordinator.identifier, threshold, participants, commitReplies)
      ensures r.Ok? ==> |r.value.commitments| >= threshold
      ensures r.Ok? ==>
                CollectedRight(coordinator.identifier, coordinator.group, old(counter.next), participants, commitReplies, signReplies, r.value)
    {
      hide Responders, LookupOf, Accepted, Matches, Answered, Shares, Entries, AllKnown, AllReachable, CollectedRight, Offers, AnswersWith,
           AllReached, AllReachedAgain;
      var session := counter.FetchAdd();
      ghost var responders := Responders(coordinator.identifier, participants, commitReplies);
      ReachedIff(participants, commitReplies);
      var committed := coordinator.CommitRound(session, participants, commitReplies);
      if committed.Err? { return Err(committed.error); }
      if |committed.value| < threshold { return Err(Crypto); }
      RespondersAccepted(coordinator.identifier, participants, commitReplies);
      if committed.value == [] {
        NothingAsked(coordinator.identifierLookup, session, signReplies);
      } else {
        EntriesKnown(coordinator.identifier, commitReplies, responders, committed.value, signReplies);
      }
      var signed := coordinator.SignRound(session, committed.value, signReplies);
      if signed.Err? { return Err(signed.error); }
      if committed.value == [] {
        NothingCollected(coordinator.identifier, coordinator.group, session, participants, commitReplies, signReplies);
      } else {
        CollectedSound(coordinator.identifier, coordinator.group, session, participants, commitReplies, signReplies,
                       responders, committed.value, signed.value);
      }
      return Ok(Collected(committed.value, signed.value));
    }
  }

  /**
    What is remembered after a call of `sign_subject`: a completed second round
    uses its session's entry up, a failed quorum check leaves it behind.
   */
  function LookupAfter(lookup: map<Session, map<Id, Dev>>, session: Session, identifier: Dev -> Opt<Id>, threshold: nat,
                       participants: seq<Dev>, replies: Dev -> CommitReply): map<Session, map<Id, Dev>> {
    var responders := Responders(identifier, participants, replies);
    if exists p :: p in participants && replies(p).CommitTransportError? then lookup
    else if |responders| >= threshold then lookup - {session}
    else if responders == [] then lookup
    else lookup[session := LookupOf(identifier, responders)]
  }

  lemma NothingAsked(lookup: map<Session, map<Id, Dev>>, session: Session, replies: Dev -> SignReply)
    ensures session in lookup ==> AllKnown(lookup[session], []) && AllReachable(lookup[session], [], replies)
    ensures session in lookup ==> forall group :: Shares(session, group, lookup[session], [], replies) == []
    ensures DistinctSigners([]) && AllReachedAgain([], replies)
  {
  }

  /** The committed identifiers are the remembered ones, and lead back to their devices. */
  lemma EntriesKnown(identifier: Dev -> Opt<Id>, commitReplies: Dev -> CommitReply, responders: seq<Dev>,
                     committed: seq<Committed>, signReplies: Dev -> SignReply)
    requires Injective(identifier) && committed == Entries(identifier, commitReplies, responders)
    requires forall p :: p in responders ==> Accepted(identifier, p, commitReplies(p))
    ensures AllKnown(LookupOf(identifier, responders), committed)
    ensures AllReachable(LookupOf(identifier, responders), committed, signReplies) <==> AllReachedAgain(responders, signReplies)
  {
    var lookup := LookupOf(identifier, responders);
    LookupFinds(identifier, responders);
    forall i | 0 <= i < |committed|
      ensures committed[i].id in lookup && lookup[committed[i].id] == responders[i]
    {
      assert responders[i] in responders;
    }
    if AllReachable(lookup, committed, signReplies) {
      forall p | p in responders
        ensures !signReplies(p).SignTransportError?
      {
        var i :| 0 <= i < |responders| && responders[i] == p;
        assert lookup[committed[i].id] == p;
      }
    }
  }
}
