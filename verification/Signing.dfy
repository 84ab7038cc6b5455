/**
  One participant of the two-round signing protocol: the nonce store, the
  round-1 state kept per session, and the handlers for `threshold.commit`,
  `threshold.sign` and `threshold.abort`.  Proved over every run: a nonce pair
  backs at most one released share, and exactly when the message signed is the
  one authorised by the commit that made the nonce.
 */
module Signing {
  import opened Common

  type Session = nat
  type Message = seq<int>

  datatype NonceStoreError = AlreadyPersisted(session: Session) | NotFound(session: Session)

  // --- the nonce store ----------------------------------------------------------------------

  class InMemoryNonceStore<N> {
    var nonces: map<Session, N>

    constructor ()
      ensures nonces == map[]
    {
      nonces := map[];
    }

    /** At most one nonce pair per session: a second is refused, the first kept. */
    method Persist(session: Session, nonce: N) returns (r: Result<(), NonceStoreError>)
      modifies this
      ensures session in old(nonces) ==> r == Err(AlreadyPersisted(session)) && nonces == old(nonces)
      ensures session !in old(nonces) ==> r == Ok(()) && nonces == old(nonces)[session := nonce]
    {
      if session in nonces { return Err(AlreadyPersisted(session)); }
      nonces := nonces[session := nonce];
      return Ok(());
    }

    /** Returned and removed at once, so a second take finds nothing. */
    method Take(session: Session) returns (r: Result<N, NonceStoreError>)
      modifies this
      ensures nonces == old(nonces) - {session}
      ensures r == if session in old(nonces) then Ok(old(nonces)[session]) else Err(NotFound(session))
    {
      if session !in nonces {
        assert nonces - {session} == nonces;
        return Err(NotFound(session));
      }
      r := Ok(nonces[session]);
      nonces := nonces - {session};
    }

    method Discard(session: Session)
      modifies this
      ensures nonces == old(nonces) - {session}
    {
      nonces := nonces - {session};
    }
  }

  // --- the participant as a step machine ----------------------------------------------------------

  /** A commit that persisted its nonce pair: its number is also the one of the pair. */
  datatype Commit = Commit(session: Session, message: Message)

  /** A sign request being handled, with the round-1 state it took. */
  datatype Ticket = Ticket(session: Session, commit: nat)

  /** A share given out: over the message of `commit`, under the nonce pair `nonce`. */
  datatype Release = Release(nonce: nat, commit: nat)

  /** `pending` holds the commits whose round-1 state is not filed yet, by request. */
  datatype State = State(
    commits: seq<Commit>,
    nonces: map<Session, nat>,
    pending: map<nat, nat>,
    sessions: map<Session, nat>,
    inFlight: map<nat, Ticket>,
    released: seq<Release>)

  /**
    Both rounds are two critical sections each.  Round 1 is `Persist`, authorised
    or not, which stores the nonce, and `File`, which files the session's state
    unless splitting the commitments failed; it may also never come.  Round 2 is
    `Begin`, which takes the session's state, and `Finish`, which builds the
    signing package and, if that worked, takes the nonce; `signs` is what the
    library answers.  `Abort` drops the nonce; `Drop` is a caller that drops the
    state too.
   */
  datatype Event =
    | Persist(request: nat, session: Session, authorised: bool, message: Message)
    | File(request: nat, splits: bool)
    | Begin(ticket: nat, session: Session)
    | Finish(ticket: nat, packageOk: bool, signs: bool)
    | Abort(session: Session)
    | Drop(session: Session)

  /** Does this event store a nonce? */
  predicate Stores(s: State, e: Event) {
    e.Persist? && e.authorised && e.session !in s.nonces && e.request !in s.pending
  }

  /** Does this event file the state of a commit? */
  predicate Files(s: State, e: Event) {
    e.File? && e.splits && e.request in s.pending && s.pending[e.request] < |s.commits|
  }

  function Step(s: State, e: Event): State {
    match e
    case Persist(request, session, _, message) =>
      if !Stores(s, e) then s
      else
        var n := |s.commits|;
        s.(commits := s.commits + [Commit(session, message)], nonces := s.nonces[session := n], pending := s.pending[request := n])
    case File(request, splits) =>
      var rest := s.(pending := s.pending - {request});
      if !Files(s, e) then rest
      else
        var n := s.pending[request];
        rest.(sessions := s.sessions[s.commits[n].session := n])
    case Begin(t, session) =>
      if session !in s.sessions || t in s.inFlight then s
      else s.(sessions := s.sessions - {session}, inFlight := s.inFlight[t := Ticket(session, s.sessions[session])])
    case Finish(t, packageOk, signs) =>
      if t !in s.inFlight then s
      else
        var ticket := s.inFlight[t];
        var rest := s.(inFlight := s.inFlight - {t});
        if !packageOk || ticket.session !in s.nonces then rest
        else
          var nonce := s.nonces[ticket.session];
          var taken := rest.(nonces := s.nonces - {ticket.session});
          if !signs then taken
          else taken.(released := s.released + [Release(nonce, ticket.commit)])
    case Abort(session) => s.(nonces := s.nonces - {session})
    case Drop(session) => s.(sessions := s.sessions - {session})
  }

  function After(events: seq<Event>): State {
    if events == [] then State([], map[], map[], map[], map[], [])
    else Step(After(events[..|events| - 1]), events[|events| - 1])
  }

  // --- what every run keeps ---------------------------------------------------------------------------

  /** `n` is the last commit on `session` that stored its nonce. */
  predicate Latest(commits: seq<Commit>, session: Session, n: nat) {
    && n < |commits| && commits[n].session == session
    && forall k :: n < k < |commits| ==> commits[k].session != session
  }

  /** Commit `n` was made on this session. */
  predicate MadeOn(commits: seq<Commit>, session: Session, n: nat) {
    n < |commits| && commits[n].session == session
  }

  predicate TicketInv(s: State, ticket: Ticket) {
    MadeOn(s.commits, ticket.session, ticket.commit)
  }

  predicate ReleaseInv(s: State, r: Release) {
    r.commit <= r.nonce < |s.commits| && s.commits[r.nonce].session == s.commits[r.commit].session
  }

  ghost predicate Inv(s: State) {
    && (forall x :: x in s.nonces ==> Latest(s.commits, x, s.nonces[x]))
    && (forall x :: x in s.sessions ==> MadeOn(s.commits, x, s.sessions[x]))
    && (forall q :: q in s.pending ==> s.pending[q] < |s.commits|)
    && (forall t :: t in s.inFlight ==> TicketInv(s, s.inFlight[t]))
    && (forall i :: 0 <= i < |s.released| ==> ReleaseInv(s, s.released[i]))
    && NonceOnce(s)
  }

  /** A nonce still stored was not used, and none was used twice. */
  ghost predicate NonceOnce(s: State) {
    && (forall x, i :: x in s.nonces && 0 <= i < |s.released| ==> s.released[i].nonce != s.nonces[x])
    && (forall i, j :: 0 <= i < j < |s.released| ==> s.released[i].nonce != s.released[j].nonce)
  }

  lemma PersistKeeps(s: State, e: Event)
    requires Inv(s) && Stores(s, e)
    ensures Inv(Step(s, e))
  {
    var s' := Step(s, e);
    assert s'.commits[|s.commits|].session == e.session;
    forall t | t in s'.inFlight
      ensures TicketInv(s', s'.inFlight[t])
    {
      assert TicketInv(s, s.inFlight[t]);
    }
    forall i | 0 <= i < |s'.released|
      ensures ReleaseInv(s', s'.released[i])
    {
      assert ReleaseInv(s, s.released[i]);
    }
  }

  lemma FileKeeps(s: State, e: Event)
    requires Inv(s) && e.File?
    ensures Inv(Step(s, e))
  {
    var s' := Step(s, e);
    forall t | t in s'.inFlight
      ensures TicketInv(s', s'.inFlight[t])
    {
      assert TicketInv(s, s.inFlight[t]);
    }
    forall i | 0 <= i < |s'.released|
      ensures ReleaseInv(s', s'.released[i])
    {
      assert ReleaseInv(s, s.released[i]);
    }
  }

  lemma FinishKeeps(s: State, t: nat, packageOk: bool, signs: bool)
    requires Inv(s) && t in s.inFlight
    ensures Inv(Step(s, Finish(t, packageOk, signs)))
  {
    var s' := Step(s, Finish(t, packageOk, signs));
    assert TicketInv(s, s.inFlight[t]);
    forall u | u in s'.inFlight
      ensures TicketInv(s', s'.inFlight[u])
    {
      assert TicketInv(s, s.inFlight[u]);
    }
    forall i | 0 <= i < |s'.released|
      ensures ReleaseInv(s', s'.released[i])
    {
      if i < |s.released| { assert ReleaseInv(s, s.released[i]); }
    }
    forall x | x in s'.nonces
      ensures x in s.nonces && Latest(s.commits, x, s.nonces[x])
    {
    }
  }

  lemma BeginKeeps(s: State, t: nat, session: Session)
    requires Inv(s)
    ensures Inv(Step(s, Begin(t, session)))
  {
    var s' := Step(s, Begin(t, session));
    forall u | u in s'.inFlight
      ensures TicketInv(s', s'.inFlight[u])
    {
      if u in s.inFlight { assert TicketInv(s, s.inFlight[u]); }
    }
    forall i | 0 <= i < |s'.released|
      ensures ReleaseInv(s', s'.released[i])
    {
      assert ReleaseInv(s, s.released[i]);
    }
  }

  lemma AbortKeeps(s: State, e: Event)
    requires Inv(s) && (e.Abort? || e.Drop?)
    ensures Inv(Step(s, e))
  {
    var s' := Step(s, e);
    forall u | u in s'.inFlight
      ensures TicketInv(s', s'.inFlight[u])
    {
      assert TicketInv(s, s.inFlight[u]);
    }
    forall i | 0 <= i < |s'.released|
      ensures ReleaseInv(s', s'.released[i])
    {
      assert ReleaseInv(s, s.released[i]);
    }
  }

  lemma StepKeeps(s: State, e: Event)
    requires Inv(s)
    ensures Inv(Step(s, e))
  {
    hide Inv;
    match e
    case Persist(_, _, _, _) => if Stores(s, e) { PersistKeeps(s, e); }
    case File(_, _) => FileKeeps(s, e);
    case Begin(t, session) => BeginKeeps(s, t, session);
    case Finish(t, packageOk, signs) => if t in s.inFlight { FinishKeeps(s, t, packageOk, signs); }
    case Abort(_) => AbortKeeps(s, e);
    case Drop(_) => AbortKeeps(s, e);
  }

  lemma {:induction false} RunKeeps(events: seq<Event>)
    ensures Inv(After(events))
  {
    if events != [] {
      RunKeeps(events[..|events| - 1]);
      StepKeeps(After(events[..|events| - 1]), events[|events| - 1]);
    }
  }

  // --- the guarantees --------------------------------------------------------------------------------------

  /** In every run, whatever fails, repeats or is aborted: no nonce pair backs two released shares. */
  lemma NonceBacksOneShare(events: seq<Event>, i: nat, j: nat)
    requires i < j < |After(events).released|
    ensures After(events).released[i].nonce != After(events).released[j].nonce
  {
    RunKeeps(events);
  }

  /** A request takes this nonce: its package could be built and the nonce is the session's. */
  predicate Takes(s: State, e: Event, n: nat) {
    && e.Finish? && e.packageOk && e.ticket in s.inFlight
    && s.inFlight[e.ticket].session in s.nonces && s.nonces[s.inFlight[e.ticket].session] == n
  }

  /** A nonce that has been made and is stored nowhere. */
  predicate Gone(s: State, n: nat) {
    n < |s.commits| && forall x :: x in s.nonces ==> s.nonces[x] != n
  }

  lemma GoneStays(s: State, e: Event, n: nat)
    requires Gone(s, n)
    ensures Gone(Step(s, e), n)
  {
  }

  lemma TakenGone(s: State, e: Event, n: nat)
    requires Inv(s) && Takes(s, e, n)
    ensures Gone(Step(s, e), n)
  {
    var x := s.inFlight[e.ticket].session;
    assert Latest(s.commits, x, n);
    forall y | y in Step(s, e).nonces
      ensures Step(s, e).nonces[y] != n
    {
      assert Latest(s.commits, y, s.nonces[y]);
    }
  }

  /** Once a request has taken a nonce, for a share or for a failed attempt, no later state stores it. */
  lemma {:induction false} TakenForGood(events: seq<Event>, f: nat, n: nat)
    requires f < |events| && Takes(After(events[..f]), events[f], n)
    ensures Gone(After(events), n)
    decreases |events|
  {
    var m := |events| - 1;
    if f == m {
      RunKeeps(events[..m]);
      TakenGone(After(events[..m]), events[m], n);
    } else {
      assert events[..m][..f] == events[..f];
      TakenForGood(events[..m], f, n);
      GoneStays(After(events[..m]), events[m], n);
    }
  }

  // --- which commit a share is bound to --------------------------------------------------------------------

  /** The j-th event is a commit on the session that stores its nonce. */
  predicate Succeeds(events: seq<Event>, j: nat, session: Session) {
    j < |events| && Stores(After(events[..j]), events[j]) && events[j].session == session
  }

  /** A commit stored its nonce on the session at one of the positions from `lo` up to `hi`. */
  predicate CommittedBetween(events: seq<Event>, lo: nat, hi: nat, session: Session) {
    exists j :: lo <= j < hi && Succeeds(events, j, session)
  }

  /** The last commit on the session to store its nonce before position `hi`. */
  predicate LastCommit(events: seq<Event>, hi: nat, session: Session, j: nat) {
    j < hi && Succeeds(events, j, session) && !CommittedBetween(events, j + 1, hi, session)
  }

  lemma SucceedsPrefix(events: seq<Event>, n: nat, j: nat, session: Session)
    requires j < n <= |events|
    ensures Succeeds(events[..n], j, session) <==> Succeeds(events, j, session)
  {
    hide After;
    assert events[..n][..j] == events[..j];
  }

  lemma AfterLast(events: seq<Event>)
    requires events != []
    ensures After(events) == Step(After(events[..|events| - 1]), events[|events| - 1])
  {
  }

  /** Only an event that stores a nonce adds to the commits. */
  lemma CommitsStep(s: State, e: Event)
    ensures var s' := Step(s, e);
            if Stores(s, e) then s'.commits == s.commits + [Commit(e.session, e.message)]
            else s'.commits == s.commits
  {
  }

  /** What the last event did to the commits on one session. */
  lemma CommitsLast(events: seq<Event>, session: Session)
    requires events != []
    ensures var n := |events| - 1;
            var before, commits := After(events[..n]).commits, After(events).commits;
            && before <= commits && (commits == before || |commits| == |before| + 1)
            && (Succeeds(events, n, session) ==> commits == before + [Commit(session, events[n].message)])
            && (!Succeeds(events, n, session) && commits != before ==> commits[|before|].session != session)
  {
    hide After, Step;
    AfterLast(events);
    CommitsStep(After(events[..|events| - 1]), events[|events| - 1]);
  }

  lemma BetweenPrefix(events: seq<Event>, n: nat, lo: nat, hi: nat, session: Session)
    requires hi <= n <= |events|
    ensures CommittedBetween(events[..n], lo, hi, session) <==> CommittedBetween(events, lo, hi, session)
  {
    hide Succeeds;
    forall j | 0 <= j < n ensures Succeeds(events[..n], j, session) <==> Succeeds(events, j, session) { SucceedsPrefix(events, n, j, session); }
  }

  lemma BetweenNext(events: seq<Event>, lo: nat, hi: nat, session: Session)
    requires lo <= hi
    ensures CommittedBetween(events, lo, hi + 1, session) <==> CommittedBetween(events, lo, hi, session) || Succeeds(events, hi, session)
  {
    hide Succeeds;
  }

  /** From any position on: commits are only added, and a commit stays the session's latest until another stores its nonce. */
  lemma {:induction false} LatestSince(events: seq<Event>, lo: nat, session: Session, n: nat)
    requires lo <= |events| && Latest(After(events[..lo]).commits, session, n)
    ensures After(events[..lo]).commits <= After(events).commits
    ensures Latest(After(events).commits, session, n) <==> !CommittedBetween(events, lo, |events|, session)
    decreases |events|
  {
    hide After, Step, CommittedBetween, Succeeds;
    if lo == |events| {
      assert events[..lo] == events;
      NothingBetween(events, lo, session);
    } else {
      var m := |events| - 1;
      var front := events[..m];
      assert front[..lo] == events[..lo];
      LatestSince(front, lo, session, n);
      BetweenPrefix(events, m, lo, m, session);
      BetweenNext(events, lo, m, session);
      CommitsLast(events, session);
      SessionStays(After(front).commits, After(events).commits, session, n);
    }
  }

  lemma NothingBetween(events: seq<Event>, lo: nat, session: Session)
    ensures !CommittedBetween(events, lo, lo, session)
  {
  }

  lemma SessionStays(before: seq<Commit>, commits: seq<Commit>, session: Session, n: nat)
    requires n < |before| && before[n].session == session && before <= commits
    requires commits == before || |commits| == |before| + 1
    ensures Latest(commits, session, n) <==>
            Latest(before, session, n) && (commits == before || commits[|before|].session != session)
  {
  }

  /** The latest commit on a session was made by the last event that committed on it. */
  lemma {:induction false} LatestCommitted(events: seq<Event>, session: Session, n: nat) returns (j: nat)
    requires Latest(After(events).commits, session, n)
    ensures LastCommit(events, |events|, session, j) && events[j].Persist?
    ensures After(events).commits[n] == Commit(session, events[j].message)
    decreases |events|
  {
    if events == [] {
      assert false;
    } else {
      hide After, Step, CommittedBetween, Succeeds;
      var m := |events| - 1;
      var front := events[..m];
      CommitsLast(events, session);
      if Succeeds(events, m, session) {
        j := m;
        NothingBetween(events, m + 1, session);
        var before := After(front).commits;
        assert After(events).commits[|before|].session == session;
        assert n == |before|;
      } else {
        j := LatestCommitted(front, session, n);
        SucceedsPrefix(events, m, j, session);
        BetweenPrefix(events, m, j + 1, m, session);
        BetweenNext(events, j + 1, m, session);
      }
    }
  }

  // --- the request behind a share ------------------------------------------------------------------------------

  /** Ticket `t` was opened at position `b` and has been in flight since, up to position `f`. */
  predicate Handling(events: seq<Event>, b: nat, f: nat, t: nat, ticket: Ticket) {
    && b < f <= |events| && events[b] == Begin(t, ticket.session)
    && ticket.session in After(events[..b]).sessions && After(events[..b]).sessions[ticket.session] == ticket.commit
    && forall j :: b < j <= f ==> Flying(events, j, t, ticket)
  }

  predicate Flying(events: seq<Event>, j: nat, t: nat, ticket: Ticket)
    requires j <= |events|
  {
    t in After(events[..j]).inFlight && After(events[..j]).inFlight[t] == ticket
  }

  lemma HandlingPrefix(events: seq<Event>, n: nat, b: nat, f: nat, t: nat, ticket: Ticket)
    requires f <= n <= |events| && Handling(events[..n], b, f, t, ticket)
    ensures Handling(events, b, f, t, ticket)
  {
    hide After;
    assert events[..n][..b] == events[..b];
    forall j | b < j <= f
      ensures Flying(events, j, t, ticket)
    {
      assert Flying(events[..n], j, t, ticket);
      assert events[..n][..j] == events[..j];
    }
  }

  lemma InFlightStep(s: State, e: Event, t: nat)
    requires t in Step(s, e).inFlight
    ensures t in s.inFlight ==> Step(s, e).inFlight[t] == s.inFlight[t]
    ensures t !in s.inFlight ==>
              && e.Begin? && e.ticket == t && e.session in s.sessions
              && Step(s, e).inFlight[t] == Ticket(e.session, s.sessions[e.session])
  {
  }

  lemma {:induction false} TicketOpened(events: seq<Event>, t: nat) returns (b: nat)
    requires t in After(events).inFlight
    ensures Handling(events, b, |events|, t, After(events).inFlight[t])
    decreases |events|
  {
    if events == [] {
      assert false;
    } else {
      hide After, Step;
      var n := |events| - 1;
      var front, ticket := events[..n], After(events).inFlight[t];
      AfterLast(events);
      InFlightStep(After(front), events[n], t);
      assert events[..|events|] == events;
      if t in After(front).inFlight {
        b := TicketOpened(front, t);
        HandlingPrefix(events, n, b, n, t, ticket);
        assert Flying(events, |events|, t, ticket);
      } else {
        b := n;
        assert Flying(events, |events|, t, ticket);
      }
    }
  }

  lemma ReleasedStep(s: State, e: Event)
    ensures var s' := Step(s, e);
            || s'.released == s.released
            || (&& e.Finish? && e.ticket in s.inFlight && s.inFlight[e.ticket].session in s.nonces
                && s'.released == s.released + [Release(s.nonces[s.inFlight[e.ticket].session], s.inFlight[e.ticket].commit)])
  {
  }

  /** The position of the event that released the i-th share. */
  lemma {:induction false} ReleasedAt(events: seq<Event>, i: nat) returns (f: nat)
    requires i < |After(events).released|
    ensures f < |events| && events[f].Finish?
    ensures var s := After(events[..f]);
            var t := events[f].ticket;
            && |s.released| == i && t in s.inFlight && s.inFlight[t].session in s.nonces
            && After(events).released[i] == Release(s.nonces[s.inFlight[t].session], s.inFlight[t].commit)
            && s.commits <= After(events).commits
    decreases |events|
  {
    if events == [] {
      assert false;
    } else {
      hide After, Step;
      var n := |events| - 1;
      var front := events[..n];
      AfterLast(events);
      ReleasedStep(After(front), events[n]);
      CommitsStep(After(front), events[n]);
      if i < |After(front).released| {
        f := ReleasedAt(front, i);
        assert front[..f] == events[..f];
      } else {
        f := n;
      }
    }
  }

  /** The i-th share was released by the request that took its state at position `b` and its nonce at position `f`. */
  predicate SignedDuring(events: seq<Event>, i: nat, b: nat, f: nat) {
    && i < |After(events).released| && b < f < |events|
    && events[b].Begin? && events[f].Finish? && events[f].ticket == events[b].ticket
    && |After(events[..f]).released| == i
    && Handling(events, b, f, events[b].ticket, Ticket(events[b].session, After(events).released[i].commit))
  }

  lemma {:induction false} RequestBehind(events: seq<Event>, i: nat) returns (b: nat, f: nat)
    requires i < |After(events).released|
    ensures SignedDuring(events, i, b, f)
    ensures After(events[..f]).commits <= After(events).commits
    ensures events[b].session in After(events[..f]).nonces
    ensures After(events[..f]).nonces[events[b].session] == After(events).released[i].nonce
  {
    hide After;
    f := ReleasedAt(events, i);
    var t := events[f].ticket;
    b := TicketOpened(events[..f], t);
    HandlingPrefix(events, f, b, f, t, After(events[..f]).inFlight[t]);
  }

  // --- the commit behind a state ---------------------------------------------------------------------------------

  /** The g-th event files the state of a commit on the session. */
  predicate FilesOn(events: seq<Event>, g: nat, session: Session) {
    && g < |events| && Files(After(events[..g]), events[g])
    && After(events[..g]).commits[After(events[..g]).pending[events[g].request]].session == session
  }

  /** The last filing on the session before position `hi`. */
  predicate LastFiling(events: seq<Event>, hi: nat, session: Session, g: nat) {
    g < hi && FilesOn(events, g, session) && forall k :: g < k < hi ==> !FilesOn(events, k, session)
  }

  /** The j-th event stores the nonce of a commit, and the g-th is where its own request goes on. */
  predicate GoesOn(events: seq<Event>, j: nat, g: nat) {
    && j < g < |events| && Stores(After(events[..j]), events[j])
    && events[g].File? && events[g].request == events[j].request
    && forall k :: j < k < g ==> !(events[k].File? && events[k].request == events[j].request)
  }

  lemma FilesOnPrefix(events: seq<Event>, n: nat, g: nat, session: Session)
    requires g < n <= |events|
    ensures FilesOn(events[..n], g, session) <==> FilesOn(events, g, session)
  {
    hide After;
    assert events[..n][..g] == events[..g];
  }

  lemma SessionsStep(s: State, e: Event, x: Session)
    requires x in Step(s, e).sessions
    ensures if Files(s, e) && s.commits[s.pending[e.request]].session == x then Step(s, e).sessions[x] == s.pending[e.request]
            else x in s.sessions && Step(s, e).sessions[x] == s.sessions[x]
  {
  }

  /** A session's state was put there by the last filing on it. */
  lemma {:induction false} StateFiled(events: seq<Event>, x: Session) returns (g: nat)
    requires x in After(events).sessions
    ensures LastFiling(events, |events|, x, g)
    ensures After(events[..g]).pending[events[g].request] == After(events).sessions[x]
    decreases |events|
  {
    if events == [] {
      assert false;
    } else {
      hide After, Step, Files;
      var n := |events| - 1;
      var front := events[..n];
      AfterLast(events);
      SessionsStep(After(front), events[n], x);
      if FilesOn(events, n, x) {
        g := n;
      } else {
        g := StateFiled(front, x);
        assert front[..g] == events[..g];
        forall k | 0 <= k < n ensures FilesOn(front, k, x) <==> FilesOn(events, k, x) { FilesOnPrefix(events, n, k, x); }
      }
    }
  }

  lemma PendingStep(s: State, e: Event, q: nat)
    requires q in Step(s, e).pending
    ensures !(e.File? && e.request == q)
    ensures if Stores(s, e) && e.request == q then Step(s, e).pending[q] == |s.commits|
            else q in s.pending && Step(s, e).pending[q] == s.pending[q]
  {
  }

  /** A commit not filed yet stored its nonce at some position, and its request has not gone on since. */
  lemma {:induction false} PendingStored(events: seq<Event>, q: nat) returns (j: nat)
    requires q in After(events).pending
    ensures j < |events| && Stores(After(events[..j]), events[j]) && events[j].request == q
    ensures After(events).pending[q] == |After(events[..j]).commits|
    ensures forall k :: j < k < |events| ==> !(events[k].File? && events[k].request == q)
    decreases |events|
  {
    if events == [] {
      assert false;
    } else {
      hide After, Step, Stores;
      var n := |events| - 1;
      var front := events[..n];
      AfterLast(events);
      PendingStep(After(front), events[n], q);
      if Stores(After(front), events[n]) && events[n].request == q {
        j := n;
      } else {
        j := PendingStored(front, q);
        assert front[..j] == events[..j];
      }
    }
  }

  /** A commit that stores its nonce is the session's latest, for the time being. */
  lemma StoredLatest(events: seq<Event>, j: nat)
    requires j < |events| && Stores(After(events[..j]), events[j])
    ensures var before, commits := After(events[..j]).commits, After(events[..j + 1]).commits;
            && commits == before + [Commit(events[j].session, events[j].message)]
            && Latest(commits, events[j].session, |before|)
  {
    hide After, Step, Stores;
    assert events[..j + 1][..j] == events[..j];
    AfterLast(events[..j + 1]);
    CommitsStep(After(events[..j]), events[j]);
  }

  /** From the moment a commit stores its nonce, it is its session's latest until another stores one. */
  lemma StoredSince(events: seq<Event>, j: nat, hi: nat)
    requires j < hi <= |events| && Stores(After(events[..j]), events[j])
    ensures var n, commits := |After(events[..j]).commits|, After(events[..hi]).commits;
            && n < |commits| && commits[n] == Commit(events[j].session, events[j].message)
            && (Latest(commits, events[j].session, n) <==> !CommittedBetween(events, j + 1, hi, events[j].session))
  {
    StoredLatest(events, j);
    hide After, Step, Stores, CommittedBetween;
    var front := events[..hi];
    assert front[..j + 1] == events[..j + 1];
    LatestSince(front, j + 1, events[j].session, |After(events[..j]).commits|);
    BetweenPrefix(events, hi, j + 1, hi, events[j].session);
  }

  /** Where the state a request finds came from: filed at `filed`, by the commit whose nonce was stored at `taken`. */
  lemma StateBehind(events: seq<Event>, b: nat, x: Session) returns (taken: nat, filed: nat)
    requires b <= |events| && x in After(events[..b]).sessions
    ensures LastFiling(events, b, x, filed) && GoesOn(events, taken, filed) && events[taken].session == x
    ensures After(events[..b]).sessions[x] == |After(events[..taken]).commits|
  {
    hide After, Step, Stores;
    var front := events[..b];
    filed := StateFiled(front, x);
    assert front[..filed] == events[..filed];
    FilingPrefix(events, b, x, filed);
    taken := PendingStored(events[..filed], events[filed].request);
    assert events[..filed][..taken] == events[..taken];
    StoredSince(events, taken, filed);
  }

  lemma FilingPrefix(events: seq<Event>, b: nat, x: Session, g: nat)
    requires b <= |events| && LastFiling(events[..b], b, x, g)
    ensures LastFiling(events, b, x, g)
  {
    hide FilesOn;
    forall k | 0 <= k < b ensures FilesOn(events[..b], k, x) <==> FilesOn(events, k, x) { FilesOnPrefix(events, b, k, x); }
  }

  /**
    For every share of every run: it was released by a request that took its
    state at `b` and its nonce at `f`.  The state was filed by the last filing
    before `b`, of the commit that stored its nonce at `taken`; the nonce was
    stored by the last commit to do so before `f`.  These are the same commit
    exactly when none stored a nonce on the session after `taken` and before `f`,
    and the share is over the message its nonce was authorised for exactly when
    those two commits carry the same message.
   */
  lemma MessageBoundIff(events: seq<Event>, i: nat) returns (b: nat, f: nat, taken: nat, filed: nat, made: nat)
    requires i < |After(events).released|
    ensures SignedDuring(events, i, b, f)
    ensures LastFiling(events, b, events[b].session, filed) && GoesOn(events, taken, filed)
    ensures events[taken].session == events[b].session
    ensures LastCommit(events, f, events[b].session, made) && events[made].Persist?
    ensures var s := After(events);
            var r := s.released[i];
            && r.nonce < |s.commits| && r.commit < |s.commits|
            && (r.nonce == r.commit <==> !CommittedBetween(events, taken + 1, f, events[b].session))
            && s.commits[r.commit].message == events[taken].message && s.commits[r.nonce].message == events[made].message
            && (s.commits[r.nonce].message == s.commits[r.commit].message <==> events[made].message == events[taken].message)
  {
    b, f := RequestBehind(events, i);
    var x, r := events[b].session, After(events).released[i];
    RunKeeps(events[..f]);
    hide After, Step, Stores;
    assert Latest(After(events[..f]).commits, x, r.nonce);
    taken, filed := StateBehind(events, b, x);
    StoredSince(events, taken, f);
    made := LatestCommitted(events[..f], x, r.nonce);
    LastPrefix(events, f, x, made);
  }

  lemma LastPrefix(events: seq<Event>, n: nat, session: Session, j: nat)
    requires n <= |events| && LastCommit(events[..n], n, session, j)
    ensures LastCommit(events, n, session, j)
  {
    hide Succeeds, CommittedBetween;
    SucceedsPrefix(events, n, j, session);
    BetweenPrefix(events, n, j + 1, n, session);
  }

  // --- one request at a time ------------------------------------------------------------------------------------

  /** Requests handled to completion one by one, as the dispatch loop does. */
  datatype Request =
    | CommitRequest(session: Session, authorised: bool, splits: bool, message: Message)
    | SignRequest(session: Session, packageOk: bool, signs: bool)
    | AbortRequest(session: Session, dropsState: bool)

  function Events(r: Request): seq<Event> {
    match r
    case CommitRequest(session, authorised, splits, message) => [Persist(0, session, authorised, message), File(0, splits)]
    case SignRequest(session, packageOk, signs) => [Begin(0, session), Finish(0, packageOk, signs)]
    case AbortRequest(session, dropsState) => if dropsState then [Abort(session), Drop(session)] else [Abort(session)]
  }

  function AllEvents(requests: seq<Request>): seq<Event> {
    if requests == [] then [] else AllEvents(requests[..|requests| - 1]) + Events(requests[|requests| - 1])
  }

  /** The participant once the requests have been handled. */
  function Served(requests: seq<Request>): State {
    After(AllEvents(requests))
  }

  function Handle(s: State, r: Request): State {
    match r
    case CommitRequest(session, authorised, splits, message) =>
      Step(Step(s, Persist(0, session, authorised, message)), File(0, splits))
    case SignRequest(session, packageOk, signs) => Step(Step(s, Begin(0, session)), Finish(0, packageOk, signs))
    case AbortRequest(session, dropsState) =>
      if dropsState then Step(Step(s, Abort(session)), Drop(session)) else Step(s, Abort(session))
  }

  lemma AfterOne(events: seq<Event>, e: Event)
    ensures After(events + [e]) == Step(After(events), e)
  {
    var all := events + [e];
    assert all[..|all| - 1] == events;
  }

  lemma AfterTwo(events: seq<Event>, d: Event, e: Event)
    ensures After(events + [d, e]) == Step(Step(After(events), d), e)
  {
    hide After, Step;
    AfterOne(events, d);
    AfterOne(events + [d], e);
    assert events + [d] + [e] == events + [d, e];
  }

  lemma ServedLast(requests: seq<Request>)
    requires requests != []
    ensures Served(requests) == Handle(Served(requests[..|requests| - 1]), requests[|requests| - 1])
  {
    hide After, Step;
    var before, r := AllEvents(requests[..|requests| - 1]), requests[|requests| - 1];
    match r
    case CommitRequest(session, authorised, splits, message) =>
      AfterTwo(before, Persist(0, session, authorised, message), File(0, splits));
    case SignRequest(session, packageOk, signs) => AfterTwo(before, Begin(0, session), Finish(0, packageOk, signs));
    case AbortRequest(session, dropsState) =>
      if dropsState { AfterTwo(before, Abort(session), Drop(session)); } else { AfterOne(before, Abort(session)); }
  }

  /** Nothing is half done. */
  predicate Idle(s: State) {
    s.inFlight == map[] && s.pending == map[]
  }

  /** Does this request store a nonce? */
  predicate Keeps(s: State, r: Request) {
    r.CommitRequest? && r.authorised && r.session !in s.nonces
  }

  /** Does this request release a share? */
  predicate Signs(s: State, r: Request) {
    r.SignRequest? && r.packageOk && r.signs && r.session in s.sessions && r.session in s.nonces
  }

  lemma CommitHandled(s: State, r: Request)
    requires Idle(s) && r.CommitRequest?
    ensures var s' := Handle(s, r);
            if !Keeps(s, r) then s' == s
            else
              var n := |s.commits|;
              s' == s.(commits := s.commits + [Commit(r.session, r.message)], nonces := s.nonces[r.session := n],
                       sessions := if r.splits then s.sessions[r.session := n] else s.sessions)
  {
    var n := |s.commits|;
    assert map[0 := n] - {0} == map[];
  }

  lemma SignHandled(s: State, r: Request)
    requires Idle(s) && r.SignRequest?
    ensures var s' := Handle(s, r);
            && Idle(s') && s'.commits == s.commits && s'.sessions == s.sessions - {r.session}
            && s'.nonces == (if r.session in s.sessions && r.packageOk then s.nonces - {r.session} else s.nonces)
            && s'.released == if Signs(s, r) then s.released + [Release(s.nonces[r.session], s.sessions[r.session])] else s.released
  {
    var b := Step(s, Begin(0, r.session));
    if r.session in s.sessions {
      assert b.inFlight - {0} == map[];
      if r.session !in s.nonces { assert s.nonces - {r.session} == s.nonces; }
    } else {
      assert s.sessions - {r.session} == s.sessions;
    }
  }

  /**
    An attempt to sign uses the nonce up, whatever the library answers, so the
    session can be committed to again; only a package that cannot be built leaves
    the nonce where it was.
   */
  lemma AttemptUsesNonce(s: State, r: Request, again: Request)
    requires Idle(s) && r.SignRequest? && r.session in s.sessions
    requires again.CommitRequest? && again.session == r.session && again.authorised
    ensures var s' := Handle(s, r);
            && (r.packageOk ==> r.session !in s'.nonces && Keeps(s', again))
            && (!r.packageOk ==> s'.nonces == s.nonces)
  {
    SignHandled(s, r);
  }

  /** What a request does to an idle participant. */
  lemma Handled(s: State, r: Request)
    requires Idle(s)
    ensures var s' := Handle(s, r);
            && Idle(s')
            && s'.commits == (if Keeps(s, r) then s.commits + [Commit(r.session, r.message)] else s.commits)
            && (forall x :: x in s'.sessions ==>
                  if Keeps(s, r) && r.splits && x == r.session then s'.sessions[x] == |s.commits|
                  else x in s.sessions && s'.sessions[x] == s.sessions[x])
            && s'.released == if Signs(s, r) then s.released + [Release(s.nonces[r.session], s.sessions[r.session])] else s.released
  {
    match r
    case CommitRequest(_, _, _, _) => CommitHandled(s, r);
    case SignRequest(_, _, _) =>
      SignHandled(s, r);
      hide Handle;
    case AbortRequest(_, _) =>
  }

  lemma {:induction false} ServedIdle(requests: seq<Request>)
    ensures Idle(Served(requests))
  {
    hide Handle;
    if requests == [] {
      EmptyRun();
    } else {
      hide Served;
      ServedIdle(requests[..|requests| - 1]);
      ServedLast(requests);
      Handled(Served(requests[..|requests| - 1]), requests[|requests| - 1]);
    }
  }

  /** The a-th request stores a nonce on the session. */
  predicate Persists(requests: seq<Request>, a: nat, session: Session) {
    a < |requests| && Keeps(Served(requests[..a]), requests[a]) && requests[a].session == session
  }

  /** The last request before the k-th to store a nonce on the session. */
  predicate LastPersisted(requests: seq<Request>, k: nat, session: Session, a: nat) {
    a < k && Persists(requests, a, session) && forall j :: a < j < k ==> !Persists(requests, j, session)
  }

  lemma PersistsPrefix(requests: seq<Request>, k: nat, session: Session)
    requires k <= |requests|
    ensures forall j :: 0 <= j < k ==> (Persists(requests[..k], j, session) <==> Persists(requests, j, session))
  {
    hide Served;
    forall j | 0 <= j < k
      ensures Persists(requests[..k], j, session) <==> Persists(requests, j, session)
    {
      assert requests[..k][..j] == requests[..j];
    }
  }

  /** One request: the latest commit of a session changes only if it stores a nonce there, and is filed only if it splits. */
  lemma LatestHandled(s: State, r: Request, x: Session, n: nat)
    requires Inv(s) && Idle(s) && Latest(Handle(s, r).commits, x, n)
    ensures var s' := Handle(s, r);
            if Keeps(s, r) && r.session == x then x in s'.sessions ==> (s'.sessions[x] == n <==> r.splits)
            else Latest(s.commits, x, n) && (x in s'.sessions ==> x in s.sessions && s'.sessions[x] == s.sessions[x])
  {
    Handled(s, r);
    hide Handle;
    if Keeps(s, r) && r.session == x {
      assert Handle(s, r).commits[|s.commits|].session == x;
      if x in s.sessions { assert MadeOn(s.commits, x, s.sessions[x]); }
    } else {
      assert n < |s.commits|;
      SessionStays(s.commits, Handle(s, r).commits, x, n);
    }
  }

  lemma ServedKeeps(requests: seq<Request>)
    ensures Inv(Served(requests)) && Idle(Served(requests))
  {
    RunKeeps(AllEvents(requests));
    ServedIdle(requests);
  }

  lemma NothingLatest(x: Session, n: nat)
    ensures !Latest(Served([]).commits, x, n)
  {
    EmptyRun();
  }

  /** The state filed for a session is that of its latest commit exactly when that commit could be split. */
  lemma {:induction false} FiledIffSplit(requests: seq<Request>, x: Session, n: nat) returns (a: nat)
    requires Latest(Served(requests).commits, x, n)
    ensures LastPersisted(requests, |requests|, x, a) && requests[a].CommitRequest?
    ensures x in Served(requests).sessions ==> (Served(requests).sessions[x] == n <==> requests[a].splits)
    decreases |requests|
  {
    hide Served, Handle, Inv, Latest, Idle;
    if requests == [] {
      NothingLatest(x, n);
      assert false;
    } else {
      var k := |requests| - 1;
      var front := requests[..k];
      ServedKeeps(front);
      ServedLast(requests);
      LatestHandled(Served(front), requests[k], x, n);
      if Persists(requests, k, x) {
        a := k;
      } else {
        a := FiledIffSplit(front, x, n);
        PersistsPrefix(requests, k, x);
      }
    }
  }

  /** The request that released the i-th share. */
  lemma {:induction false} ReleasedBy(requests: seq<Request>, i: nat) returns (k: nat)
    requires i < |Served(requests).released|
    ensures k < |requests| && Signs(Served(requests[..k]), requests[k]) && |Served(requests[..k]).released| == i
    ensures var s, x := Served(requests[..k]), requests[k].session;
            Served(requests).released[i] == Release(s.nonces[x], s.sessions[x])
    decreases |requests|
  {
    if requests == [] {
      EmptyRun();
      assert false;
    } else {
      var n := |requests| - 1;
      var front := requests[..n];
      ServedIdle(front);
      ServedLast(requests);
      Handled(Served(front), requests[n]);
      hide Served, Handle;
      if i < |Served(front).released| {
        k := ReleasedBy(front, i);
        assert front[..k] == requests[..k];
      } else {
        k := n;
      }
    }
  }

  /**
    One request at a time: the share is under the nonce of the commit whose
    message it signs exactly when the last commit request to store a nonce on the
    session before it could split its commitments, and so filed its state.
   */
  lemma DispatchBindsMessages(requests: seq<Request>, i: nat) returns (k: nat, a: nat)
    requires i < |Served(requests).released|
    ensures k < |requests| && Signs(Served(requests[..k]), requests[k]) && |Served(requests[..k]).released| == i
    ensures LastPersisted(requests, k, requests[k].session, a) && requests[a].CommitRequest?
    ensures Served(requests).released[i].nonce == Served(requests).released[i].commit <==> requests[a].splits
  {
    k := ReleasedBy(requests, i);
    var x := requests[k].session;
    var front := requests[..k];
    RunKeeps(AllEvents(front));
    assert Latest(Served(front).commits, x, Served(front).nonces[x]);
    hide Served, Inv;
    a := FiledIffSplit(front, x, Served(front).nonces[x]);
    PersistsPrefix(requests, k, x);
  }

  // --- runs in which the two commits differ -----------------------------------------------------------------------

  lemma EmptyRun()
    ensures After([]) == State([], map[], map[], map[], map[], [])
  {
  }

  /** A session with a commit stored and filed, from nothing. */
  lemma FirstCommit(m: Message)
    ensures After([Persist(0, 1, true, m), File(0, true)]) == State([Commit(1, m)], map[1 := 0], map[], map[1 := 0], map[], [])
  {
    var d, e := Persist(0, 1, true, m), File(0, true);
    AfterTwo([], d, e);
    assert [] + [d, e] == [d, e];
    EmptyRun();
    hide After;
    assert map[0 := 0] - {0} == map[];
  }

  /** An abort and a new commit while a sign request is being handled. */
  lemma OvertakenRequest(m: Message, n: Message)
    ensures var events := [Persist(0, 1, true, m), File(0, true)] + [Begin(0, 1), Abort(1)]
                          + [Persist(0, 1, true, n), File(0, true)] + [Finish(0, true, true)];
            After(events) == State([Commit(1, m), Commit(1, n)], map[], map[], map[1 := 1], map[], [Release(1, 0)])
  {
    FirstCommit(m);
    var a := [Persist(0, 1, true, m), File(0, true)];
    AfterTwo(a, Begin(0, 1), Abort(1));
    var b := a + [Begin(0, 1), Abort(1)];
    AfterTwo(b, Persist(0, 1, true, n), File(0, true));
    AfterOne(b + [Persist(0, 1, true, n), File(0, true)], Finish(0, true, true));
    hide After;
    assert After(b) == State([Commit(1, m)], map[], map[], map[], map[0 := Ticket(1, 0)], []);
    assert map[0 := 1] - {0} == map[] && map[1 := 1] - {1} == map[] && map[0 := Ticket(1, 0)] - {0} == map[];
  }

  /** After an abort, a sign request between a commit storing its nonce and filing its state. */
  lemma UnfiledNonce(m: Message, n: Message)
    ensures var events := [Persist(0, 1, true, m), File(0, true)] + [Abort(1), Persist(0, 1, true, n)]
                          + [Begin(0, 1), Finish(0, true, true)];
            After(events) == State([Commit(1, m), Commit(1, n)], map[], map[0 := 1], map[], map[], [Release(1, 0)])
  {
    FirstCommit(m);
    var a := [Persist(0, 1, true, m), File(0, true)];
    AfterTwo(a, Abort(1), Persist(0, 1, true, n));
    AfterTwo(a + [Abort(1), Persist(0, 1, true, n)], Begin(0, 1), Finish(0, true, true));
    hide After;
    assert map[1 := 0] - {1} == map[] && map[1 := 1] - {1} == map[] && map[0 := Ticket(1, 0)] - {0} == map[];
  }

  /** The same one request at a time, when splitting fails. */
  lemma StrandedNonce(m: Message, n: Message)
    ensures var requests := [CommitRequest(1, true, true, m), AbortRequest(1, false), CommitRequest(1, true, false, n), SignRequest(1, true, true)];
            Served(requests) == State([Commit(1, m), Commit(1, n)], map[], map[], map[], map[], [Release(1, 0)])
  {
    var a, b, c, d := CommitRequest(1, true, true, m), AbortRequest(1, false), CommitRequest(1, true, false, n), SignRequest(1, true, true);
    ServedLast([a]);
    ServedLast([a, b]);
    ServedLast([a, b, c]);
    ServedLast([a, b, c, d]);
    assert [a][..0] == [] && [a, b][..1] == [a] && [a, b, c][..2] == [a, b] && [a, b, c, d][..3] == [a, b, c];
    EmptyRun();
    assert Served([]) == State([], map[], map[], map[], map[], []);
    hide Served, After;
    CommitHandled(Served([]), a);
    var s2 := State([Commit(1, m)], map[], map[], map[1 := 0], map[], []);
    assert map[1 := 0] - {1} == map[];
    assert Served([a, b]) == s2;
    CommitHandled(s2, c);
    assert map[1 := 1] - {1} == map[] && map[0 := Ticket(1, 0)] - {0} == map[];
  }

  /** A sign after an abort uses up the state the abort left behind, and releases nothing. */
  lemma SignAfterAbort(s: State, session: Session, t: nat, packageOk: bool, signs: bool)
    requires t !in s.inFlight
    ensures var aborted := Step(s, Abort(session));
            && aborted.sessions == s.sessions
            && Step(Step(aborted, Begin(t, session)), Finish(t, packageOk, signs))
            == s.(nonces := s.nonces - {session}, sessions := s.sessions - {session})
  {
    var begun := Step(Step(s, Abort(session)), Begin(t, session));
    if session in s.sessions {
      assert begun.inFlight - {t} == s.inFlight;
    } else {
      assert s.sessions - {session} == s.sessions;
    }
  }

  // --- the handlers as the code runs them ---------------------------------------------------------------------

  datatype ParticipantError = DeadlinePassed | UnknownGroup | Refused | NoSuchSession | NonceUnavailable | Crypto

  class Participant {
    const store: InMemoryNonceStore<nat>
    var sessions: map<Session, nat>
    var commits: seq<Commit>
    var released: seq<Release>

    /** The participant between requests, as a state of the machine. */
    ghost function Now(): State
      reads this, store
    {
      State(commits, store.nonces, map[], sessions, map[], released)
    }

    constructor ()
      ensures fresh(store) && Now() == After([])
    {
      store := new InMemoryNonceStore();
      sessions, commits, released := map[], [], [];
    }

    /**
      `handle_threshold_commit`, and the dispatch loop filing its state.  When
      splitting the commitments fails, the nonce stays stored and nothing is filed.
     */
    method HandleCommit(session: Session, deadline: nat, now: nat, groupKnown: bool, refused: bool, splits: bool, message: Message)
      returns (r: Result<nat, ParticipantError>)
      modifies this, store
      ensures Now() == Handle(old(Now()), CommitRequest(session, deadline > now && groupKnown && !refused, splits, message))
      ensures r.Ok? <==> deadline > now && groupKnown && !refused && session !in old(store.nonces) && splits
      ensures r.Ok? ==> r.value == |old(commits)| && store.nonces[session] == r.value && session in sessions && sessions[session] == r.value
      ensures !splits ==> sessions == old(sessions)
      ensures r == Err(DeadlinePassed) <==> deadline <= now
      ensures r == Err(UnknownGroup) <==> deadline > now && !groupKnown
      ensures r == Err(Refused) <==> deadline > now && groupKnown && refused
      ensures r == Err(Crypto) <==> deadline > now && groupKnown && !refused && (session in old(store.nonces) || !splits)
    {
      ghost var request := CommitRequest(session, deadline > now && groupKnown && !refused, splits, message);
      CommitHandled(Now(), request);
      if deadline <= now { return Err(DeadlinePassed); }
      if !groupKnown { return Err(UnknownGroup); }
      if refused { return Err(Refused); }
      var nonce := |commits|;
      var persisted := store.Persist(session, nonce);
      if persisted.Err? { return Err(Crypto); }
      commits := commits + [Commit(session, message)];
      if !splits { return Err(Crypto); }
      sessions := sessions[session := nonce];
      return Ok(nonce);
    }

    /** The dispatch loop taking the session's state, then `handle_threshold_sign`. */
    method HandleSign(session: Session, packageOk: bool, signs: bool) returns (r: Result<Release, ParticipantError>)
      modifies this, store
      ensures Now() == Handle(old(Now()), SignRequest(session, packageOk, signs))
      ensures r.Ok? <==> session in old(sessions) && packageOk && session in old(store.nonces) && signs
      ensures r == Err(NoSuchSession) <==> session !in old(sessions)
      ensures r == Err(Crypto) <==> session in old(sessions) && !packageOk
      ensures sessions == old(sessions) - {session}
      ensures store.nonces == if session in old(sessions) && packageOk then old(store.nonces) - {session} else old(store.nonces)
      ensures r.Ok? ==> r.value == Release(old(store.nonces)[session], old(sessions)[session])
    {
      if session !in sessions {
        assert sessions - {session} == sessions;
        return Err(NoSuchSession);
      }
      var commit := sessions[session];
      sessions := sessions - {session};
      ghost var ticket := Ticket(session, commit);
      assert map[0 := ticket] - {0} == map[];
      if !packageOk { return Err(Crypto); }
      var nonce := store.Take(session);
      if nonce.Err? {
        assert store.nonces == old(store.nonces);
        return Err(NonceUnavailable);
      }
      if !signs { return Err(NonceUnavailable); }
      var share := Release(nonce.value, commit);
      released := released + [share];
      return Ok(share);
    }

    /** `handle_threshold_abort`: the nonce goes, the session's state stays. */
    method HandleAbort(session: Session)
      modifies store
      ensures Now() == Handle(old(Now()), AbortRequest(session, false))
      ensures store.nonces == old(store.nonces) - {session}
    {
      store.Discard(session);
    }
  }
}
