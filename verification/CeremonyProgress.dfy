/**
  When every device is honest and no connection breaks, a ceremony cannot get
  stuck: whatever the interleaving, some step is enabled until every device
  has finished, all finish after the same number of steps, and all with the
  same packages and key.
 */
module CeremonyProgress {
  import opened Common
  import opened Transcript
  import opened Ceremony

  ghost predicate AllHonest<P>(env: Env<P>) {
    env.honest == env.members + env.dealers
  }

  /** Everyone's own packages: what every view converges to. */
  function Full<P>(env: Env<P>): map<Dev, P> {
    map q | q in env.dealers :: env.package(q)
  }

  function FullShares<P>(env: Env<P>, d: Dev): map<Dev, Share> {
    map q | q in env.dealers && q != d :: env.share(q, d)
  }

  function FullOutcome<P>(env: Env<P>): Outcome<P> {
    Outcome(Full(env), env.groupKey(Full(env)))
  }

  /** The library accepts what honest devices produce. */
  ghost predicate HonestData<P>(env: Env<P>) {
    RoundOneOk(env, Full(env)) && forall d :: d in env.members ==> env.sharesOk(d, Full(env), FullShares(env, d))
  }

  ghost predicate Quiet<P(!new)>(env: Env<P>, s: State<P>, s': State<P>) {
    exists step: Step<P> :: (step.Run? || step.Deal?) && Enabled(env, s, step) && s' == Apply(env, s, step)
  }

  ghost predicate CanContinue<P(!new)>(env: Env<P>, s: State<P>) {
    exists step: Step<P> :: (step.Run? || step.Deal?) && Enabled(env, s, step)
  }

  ghost predicate IsQuietRun<P(!new)>(env: Env<P>, run: seq<State<P>>) {
    run != [] && run[0] == Init(env) && forall i :: 0 <= i < |run| - 1 ==> Quiet(env, run[i], run[i + 1])
  }

  // --- what quiet runs keep ----------------------------------------------------------------------

  /** The device sent this message already. */
  predicate Sent<P>(env: Env<P>, l: Local<P>, p: Dev, kind: Kind, d: Dev)
    requires l.pc <= |env.program(p)| && l.dealt <= |env.dealing(p)|
  {
    Send(kind, d) in env.program(p)[..l.pc] || Send(kind, d) in env.dealing(p)[..l.dealt]
  }

  function Expected<P>(env: Env<P>, kind: Kind, p: Dev, d: Dev): Msg<P> {
    match kind
    case Round1 => Package(env.package(p))
    case Round2 => SubShare(env.share(p, d))
    case Confirm => Confirmed(OwnDigest(env, FullOutcome(env)), FullOutcome(env).key)
  }

  ghost predicate SharesRight<P>(env: Env<P>, d: Dev, l: Local<P>)
    requires l.pc <= |env.program(d)|
  {
    && (forall q :: q in l.shares <==> Ran(env, l, d, Await(Round2, q)))
    && (forall q :: q in l.shares ==> l.shares[q] == env.share(q, d))
  }

  ghost predicate QuietLocal<P>(env: Env<P>, d: Dev, l: Local<P>)
    requires l.pc <= |env.program(d)|
  {
    && !l.failed && l.dealt <= |env.dealing(d)|
    && (forall q :: q in l.view ==> l.view[q] == env.package(q))
    && SharesRight(env, d, l)
    && (l.outcome.Yes? ==> l.outcome.value == FullOutcome(env))
  }

  /** A message sent and not yet taken is in its box; a box holds what its sender sends. */
  predicate QuietBox<P(==)>(env: Env<P>, s: State<P>, d: Dev, p: Dev, kind: Kind)
    requires d in s.locals && p in s.locals
    requires s.locals[d].pc <= |env.program(d)| && s.locals[p].pc <= |env.program(p)| && s.locals[p].dealt <= |env.dealing(p)|
  {
    && (Sent(env, s.locals[p], p, kind, d) && !Ran(env, s.locals[d], d, Await(kind, p)) ==> Box(d, kind, p) in s.boxes)
    && (Box(d, kind, p) in s.boxes ==> s.boxes[Box(d, kind, p)] == Expected(env, kind, p, d))
  }

  ghost predicate QuietInv<P(!new)>(env: Env<P>, s: State<P>) {
    && Inv(env, s)
    && (forall d :: d in env.honest ==> QuietLocal(env, d, s.locals[d]))
    && (forall d, p, kind :: d in env.honest && p in env.honest ==> QuietBox(env, s, d, p, kind))
  }

  lemma QuietInit<P(!new)>(env: Env<P>)
    ensures QuietInv(env, Init(env))
  {
    InitInv(env);
  }

  lemma OpenQuiet<P(!new)>(env: Env<P>, s: State<P>, d: Dev)
    requires QuietInv(env, s) && d in env.honest
    ensures d in s.locals && s.locals[d].pc <= |env.program(d)| && LocalInv(env, d, s.locals[d]) && QuietLocal(env, d, s.locals[d])
    ensures s.locals[d].dealt <= |env.dealing(d)|
  {
    OpenInv(env, s, d);
  }

  lemma OpenBox<P(!new)>(env: Env<P>, s: State<P>, d: Dev, p: Dev, kind: Kind)
    requires QuietInv(env, s) && d in env.honest && p in env.honest
    ensures d in s.locals && p in s.locals && s.locals[d].pc <= |env.program(d)|
    ensures s.locals[p].pc <= |env.program(p)| && s.locals[p].dealt <= |env.dealing(p)|
    ensures QuietBox(env, s, d, p, kind)
  {
    OpenQuiet(env, s, d);
    OpenQuiet(env, s, p);
  }

  // --- an honest step succeeds ------------------------------------------------------------------------

  /** After round 1 the view is complete, and in a quiet run it is everyone's own package. */
  lemma ViewIsFull<P>(env: Env<P>, d: Dev, l: Local<P>, op: Op)
    requires AtOp(env, d, l, op) && QuietLocal(env, d, l) && Rank(op) > 1
    ensures l.view == Full(env)
  {
    var prog := env.program(d);
    forall q
      ensures q in l.view <==> q in env.dealers
    {
      EarlierRan(prog, l.pc, Await(Round1, q));
      if Ran(env, l, d, Await(Round1, q)) { assert Await(Round1, q) in prog; }
    }
  }

  lemma SharesAreFull<P>(env: Env<P>, d: Dev, l: Local<P>)
    requires AtOp(env, d, l, Derive) && QuietLocal(env, d, l)
    ensures l.shares == FullShares(env, d)
  {
    PcBelow(env, d, l, Derive);
    hide AtOp, LocalInv, Ran, RoundOneOk;
    forall q
      ensures q in l.shares <==> q in env.dealers && q != d
    {
      AwaitedAll(env, d, l, Derive, Round2, q);
      RoundTwoFrom(env, d, l, Derive, q);
    }
  }

  lemma RoundTwoFrom<P>(env: Env<P>, d: Dev, l: Local<P>, op: Op, q: Dev)
    requires AtOp(env, d, l, op)
    ensures Await(Round2, q) in env.program(d) <==> q in env.dealers && q != d
  {
    hide LocalInv;
  }

  /** Every await of an earlier rank in the program has been made. */
  lemma AwaitedAll<P>(env: Env<P>, d: Dev, l: Local<P>, op: Op, kind: Kind, q: Dev)
    requires AtOp(env, d, l, op) && Rank(Await(kind, q)) < Rank(op)
    ensures l.pc <= |env.program(d)| && (Ran(env, l, d, Await(kind, q)) <==> Await(kind, q) in env.program(d))
  {
    hide LocalInv;
    EarlierRan(env.program(d), l.pc, Await(kind, q));
    if Ran(env, l, d, Await(kind, q)) { assert Await(kind, q) in env.program(d)[..l.pc]; }
  }

  /** The next operation of a quiet run succeeds and leaves a quiet record. */
  lemma QuietExec<P(!new)>(env: Env<P>, s: State<P>, d: Dev, op: Op)
    requires HonestData(env) && d in s.locals && AtOp(env, d, s.locals[d], op) && QuietLocal(env, d, s.locals[d])
    requires op.Await? ==> Box(d, op.kind, op.peer) in s.boxes && s.boxes[Box(d, op.kind, op.peer)] == Expected(env, op.kind, op.peer, d)
    ensures var l' := Exec(env, s, d, op).locals[d];
            l'.pc == s.locals[d].pc + 1 && l'.dealt == s.locals[d].dealt && l'.pc <= |env.program(d)| && QuietLocal(env, d, l')
  {
    var l := s.locals[d];
    match op
    case Send(_, _) => QuietAdvance(env, d, l, l.(pc := l.pc + 1), op);
    case Await(kind, peer) => QuietAwait(env, d, l, kind, peer);
    case Verify =>
      ViewIsFull(env, d, l, op);
      QuietAdvance(env, d, l, l.(pc := l.pc + 1), op);
    case Derive =>
      ViewIsFull(env, d, l, op);
      SharesAreFull(env, d, l);
      QuietAdvance(env, d, l, l.(pc := l.pc + 1, outcome := Yes(FullOutcome(env))), op);
  }

  /** Advancing without touching view or shares. */
  lemma QuietAdvance<P>(env: Env<P>, d: Dev, l: Local<P>, l': Local<P>, op: Op)
    requires AtOp(env, d, l, op) && QuietLocal(env, d, l) && !(op.Await? && op.kind.Round2?)
    requires l'.pc == l.pc + 1 && !l'.failed && l'.dealt == l.dealt && l'.view == l.view && l'.shares == l.shares
    requires l'.outcome == l.outcome || l'.outcome == Yes(FullOutcome(env))
    ensures l'.pc <= |env.program(d)| && QuietLocal(env, d, l')
  {
    Advances(env, d, l, l', op);
    hide MemberProgram, LocalInv, Ran, FullOutcome;
  }

  lemma QuietAwait<P>(env: Env<P>, d: Dev, l: Local<P>, kind: Kind, peer: Dev)
    requires AtOp(env, d, l, Await(kind, peer)) && QuietLocal(env, d, l)
    ensures var l' := Receive(env, l, kind, peer, Expected(env, kind, peer, d));
            l'.pc == l.pc + 1 && l'.dealt == l.dealt && l'.pc <= |env.program(d)| && QuietLocal(env, d, l')
  {
    match kind
    case Round1 => QuietPackage(env, d, l, peer);
    case Round2 => QuietShare(env, d, l, peer);
    case Confirm =>
      DeriveOnce(env, d, l, Await(kind, peer));
      QuietAdvance(env, d, l, l.(pc := l.pc + 1), Await(kind, peer));
  }

  lemma QuietPackage<P>(env: Env<P>, d: Dev, l: Local<P>, peer: Dev)
    requires AtOp(env, d, l, Await(Round1, peer)) && QuietLocal(env, d, l)
    ensures var l' := l.(pc := l.pc + 1, view := l.view[peer := env.package(peer)]);
            l'.pc <= |env.program(d)| && QuietLocal(env, d, l')
  {
    var l' := l.(pc := l.pc + 1, view := l.view[peer := env.package(peer)]);
    Advances(env, d, l, l', Await(Round1, peer));
    hide MemberProgram, LocalInv, Ran, FullOutcome;
  }

  lemma QuietShare<P>(env: Env<P>, d: Dev, l: Local<P>, peer: Dev)
    requires AtOp(env, d, l, Await(Round2, peer)) && QuietLocal(env, d, l)
    ensures var l' := l.(pc := l.pc + 1, shares := l.shares[peer := env.share(peer, d)]);
            l'.pc <= |env.program(d)| && QuietLocal(env, d, l')
  {
    var l' := l.(pc := l.pc + 1, shares := l.shares[peer := env.share(peer, d)]);
    Advances(env, d, l, l', Await(Round2, peer));
    NoneConfirmed(env, d, l, Await(Round2, peer), peer);
    hide AtOp, Ran, FullOutcome;
    SharesNext(env, d, l, l', peer);
  }

  lemma SharesNext<P>(env: Env<P>, d: Dev, l: Local<P>, l': Local<P>, peer: Dev)
    requires l.pc < |env.program(d)| && l'.pc == l.pc + 1 && SharesRight(env, d, l)
    requires l'.shares == l.shares[peer := env.share(peer, d)]
    requires forall o :: Ran(env, l', d, o) <==> Ran(env, l, d, o) || o == Await(Round2, peer)
    ensures SharesRight(env, d, l')
  {
    hide Ran;
    forall q
      ensures q in l'.shares <==> Ran(env, l', d, Await(Round2, q))
    {
      assert q in l.shares <==> Ran(env, l, d, Await(Round2, q));
    }
  }

  // --- boxes ---------------------------------------------------------------------------------------------

  lemma OutgoingExpected<P>(env: Env<P>, d: Dev, l: Local<P>, op: Op)
    requires AtOp(env, d, l, op) && op.Send? && QuietLocal(env, d, l)
    ensures Outgoing(env, d, l, op.kind, op.peer) == Expected(env, op.kind, d, op.peer)
  {
    DeriveOnce(env, d, l, op);
  }

  /** An operation keeps every box right. */
  lemma QuietBoxStep<P(!new)>(env: Env<P>, s: State<P>, d: Dev, op: Op, a: Dev, b: Dev, kind: Kind)
    requires d in s.locals && a in s.locals && b in s.locals
    requires s.locals[a].pc <= |env.program(a)| && s.locals[b].pc <= |env.program(b)| && s.locals[b].dealt <= |env.dealing(b)|
    requires s.locals[d].pc < |env.program(d)| && env.program(d)[s.locals[d].pc] == op && QuietBox(env, s, a, b, kind)
    requires op.Await? ==> Box(d, op.kind, op.peer) in s.boxes
    requires op.Send? ==> Outgoing(env, d, s.locals[d], op.kind, op.peer) == Expected(env, op.kind, d, op.peer)
    requires var l' := Exec(env, s, d, op).locals[d]; l'.pc == s.locals[d].pc + 1 && l'.dealt == s.locals[d].dealt
    ensures var s' := Exec(env, s, d, op);
            && a in s'.locals && b in s'.locals && s'.locals[a].pc <= |env.program(a)|
            && s'.locals[b].pc <= |env.program(b)| && s'.locals[b].dealt <= |env.dealing(b)| && QuietBox(env, s', a, b, kind)
  {
    ExecLocal(env, s, d, op);
    ExecBox(env, s, d, op, Box(a, kind, b));
    RanNext(env.program(d), s.locals[d].pc, Await(kind, b));
    RanNext(env.program(d), s.locals[d].pc, Send(kind, a));
    hide Exec, Outgoing, Expected, OwnDigest;
  }

  lemma ExecBox<P>(env: Env<P>, s: State<P>, d: Dev, op: Op, box: Box)
    requires d in s.locals && (op.Await? ==> Box(d, op.kind, op.peer) in s.boxes)
    ensures var s' := Exec(env, s, d, op);
            if op.Send? && box == Box(op.peer, op.kind, d) then
              box in s'.boxes && s'.boxes[box] == Outgoing(env, d, s.locals[d], op.kind, op.peer)
            else if op.Await? && box == Box(d, op.kind, op.peer) then box !in s'.boxes
            else (box in s'.boxes <==> box in s.boxes) && (box in s.boxes ==> s'.boxes[box] == s.boxes[box])
  {
    hide Outgoing, OwnDigest, RoundOneOk;
  }

  /** The device at its next operation, with the message it takes or sends. */
  lemma OpenStep<P(!new)>(env: Env<P>, s: State<P>, d: Dev)
    requires Choreography(env) && AllHonest(env) && HonestData(env) && QuietInv(env, s) && CanRun(env, s, d)
    ensures d in s.locals && s.locals[d].pc < |env.program(d)|
    ensures var op, l := env.program(d)[s.locals[d].pc], s.locals[d];
            && AtOp(env, d, l, op) && QuietLocal(env, d, l)
            && (op.Await? ==> Box(d, op.kind, op.peer) in s.boxes && s.boxes[Box(d, op.kind, op.peer)] == Expected(env, op.kind, op.peer, d))
            && (op.Send? ==> Outgoing(env, d, l, op.kind, op.peer) == Expected(env, op.kind, d, op.peer))
  {
    hide LocalInv, QuietLocal, QuietBox, Choreography, HonestData, Expected, Outgoing, MemberProgram;
    var op := env.program(d)[s.locals[d].pc];
    CanRunParts(env, s, d);
    OpenRun(env, s, d);
    OpenQuiet(env, s, d);
    if op.Await? {
      AwaitedIsHonest(env, s.locals[d], d, op);
      OpenBox(env, s, d, op.peer, op.kind);
      BoxContent(env, s, d, op.peer, op.kind);
    }
    if op.Send? { OutgoingExpected(env, d, s.locals[d], op); }
  }

  /** The state after a device's next operation. */
  function RunState<P>(env: Env<P>, s: State<P>, d: Dev): State<P>
    requires CanRun(env, s, d)
  {
    Exec(env, s, d, env.program(d)[s.locals[d].pc])
  }

  /** One device moved by one operation, the main program or the concurrent sends. */
  predicate Moved<P>(s: State<P>, s': State<P>, d: Dev) {
    && d in s.locals && s'.locals.Keys == s.locals.Keys
    && s'.locals[d].pc + s'.locals[d].dealt == s.locals[d].pc + s.locals[d].dealt + 1
    && forall a :: a in s.locals && a != d ==> s'.locals[a].pc == s.locals[a].pc && s'.locals[a].dealt == s.locals[a].dealt
  }

  lemma QuietRunMoves<P(!new)>(env: Env<P>, s: State<P>, d: Dev)
    requires Choreography(env) && AllHonest(env) && HonestData(env) && QuietInv(env, s) && CanRun(env, s, d)
    ensures Moved(s, RunState(env, s, d), d)
  {
    hide Choreography, HonestData, QuietInv, AtOp, QuietLocal, Expected, Outgoing, Exec;
    OpenStep(env, s, d);
    RunTouchesOne(env, s, d);
    QuietExec(env, s, d, env.program(d)[s.locals[d].pc]);
  }

  lemma QuietRunLocals<P(!new)>(env: Env<P>, s: State<P>, d: Dev, a: Dev)
    requires Choreography(env) && AllHonest(env) && HonestData(env) && QuietInv(env, s) && CanRun(env, s, d) && a in env.honest
    ensures var s' := RunState(env, s, d);
            a in s'.locals && s'.locals[a].pc <= |env.program(a)| && QuietLocal(env, a, s'.locals[a])
  {
    hide Choreography, HonestData, QuietInv, AtOp, QuietLocal, Expected, Outgoing, Exec;
    OpenStep(env, s, d);
    OpenQuiet(env, s, a);
    RunTouchesOne(env, s, d);
    QuietExec(env, s, d, env.program(d)[s.locals[d].pc]);
  }

  lemma QuietRunBoxes<P(!new)>(env: Env<P>, s: State<P>, d: Dev, a: Dev, b: Dev, kind: Kind)
    requires Choreography(env) && AllHonest(env) && HonestData(env) && QuietInv(env, s) && CanRun(env, s, d)
    requires a in env.honest && b in env.honest
    ensures BoxRight(env, RunState(env, s, d), a, b, kind)
  {
    hide Choreography, HonestData, QuietInv, AtOp, QuietLocal, QuietBox, Expected, Outgoing, Exec;
    OpenStep(env, s, d);
    OpenBox(env, s, a, b, kind);
    var op := env.program(d)[s.locals[d].pc];
    QuietExec(env, s, d, op);
    QuietBoxStep(env, s, d, op, a, b, kind);
  }

  /** A device's step in a quiet run. */
  lemma QuietRunStep<P(!new)>(env: Env<P>, s: State<P>, d: Dev)
    requires Choreography(env) && AllHonest(env) && HonestData(env) && QuietInv(env, s) && CanRun(env, s, d)
    ensures QuietInv(env, RunState(env, s, d))
  {
    hide Choreography, HonestData, QuietLocal, BoxRight, Exec, Inv;
    QuietInvIsInv(env, s);
    RunKeeps(env, s, d);
    var s' := RunState(env, s, d);
    forall a | a in env.honest
      ensures a in s'.locals && s'.locals[a].pc <= |env.program(a)| && QuietLocal(env, a, s'.locals[a])
    {
      QuietRunLocals(env, s, d, a);
    }
    forall a, b, kind | a in env.honest && b in env.honest
      ensures BoxRight(env, s', a, b, kind)
    {
      QuietRunBoxes(env, s, d, a, b, kind);
    }
    MakeQuiet(env, s');
  }

  /** `QuietBox` with its side conditions. */
  ghost predicate BoxRight<P(!new)>(env: Env<P>, s: State<P>, a: Dev, b: Dev, kind: Kind) {
    && a in s.locals && b in s.locals && s.locals[a].pc <= |env.program(a)|
    && s.locals[b].pc <= |env.program(b)| && s.locals[b].dealt <= |env.dealing(b)| && QuietBox(env, s, a, b, kind)
  }

  lemma MakeQuiet<P(!new)>(env: Env<P>, s: State<P>)
    requires Inv(env, s)
    requires forall a :: a in env.honest ==> a in s.locals && s.locals[a].pc <= |env.program(a)| && QuietLocal(env, a, s.locals[a])
    requires forall a, b, kind :: a in env.honest && b in env.honest ==> BoxRight(env, s, a, b, kind)
    ensures QuietInv(env, s)
  {
    hide LocalInv, QuietLocal, QuietBox;
    forall a, b, kind | a in env.honest && b in env.honest
      ensures a in s.locals && b in s.locals && s.locals[a].pc <= |env.program(a)|
      ensures s.locals[b].pc <= |env.program(b)| && s.locals[b].dealt <= |env.dealing(b)| && QuietBox(env, s, a, b, kind)
    {
      assert BoxRight(env, s, a, b, kind);
    }
  }

  lemma QuietInvIsInv<P(!new)>(env: Env<P>, s: State<P>)
    requires QuietInv(env, s)
    ensures Inv(env, s) && s.locals.Keys == env.honest
  {
  }

  lemma BoxContent<P(!new)>(env: Env<P>, s: State<P>, d: Dev, p: Dev, kind: Kind)
    requires d in s.locals && p in s.locals && s.locals[d].pc <= |env.program(d)|
    requires s.locals[p].pc <= |env.program(p)| && s.locals[p].dealt <= |env.dealing(p)|
    requires QuietBox(env, s, d, p, kind) && Box(d, kind, p) in s.boxes
    ensures s.boxes[Box(d, kind, p)] == Expected(env, kind, p, d)
  {
  }

  lemma AwaitedIsHonest<P>(env: Env<P>, l: Local<P>, d: Dev, op: Op)
    requires AllHonest(env) && AtOp(env, d, l, op) && op.Await?
    ensures op.peer in env.honest && op.peer != d
  {
    hide LocalInv;
    assert op in env.program(d);
  }

  lemma QuietDealLocals<P(!new)>(env: Env<P>, s: State<P>, d: Dev, a: Dev)
    requires QuietInv(env, s) && Enabled(env, s, Deal(d)) && a in env.honest
    ensures var s' := DealState(env, s, d);
            a in s'.locals && s'.locals[a].pc <= |env.program(a)| && QuietLocal(env, a, s'.locals[a])
  {
    hide QuietInv, LocalInv, Outgoing;
    OpenQuiet(env, s, a);
  }

  lemma QuietDealBoxes<P(!new)>(env: Env<P>, s: State<P>, d: Dev, a: Dev, b: Dev, kind: Kind)
    requires Choreography(env) && QuietInv(env, s) && Enabled(env, s, Deal(d)) && a in env.honest && b in env.honest
    ensures BoxRight(env, DealState(env, s, d), a, b, kind)
  {
    hide Choreography, QuietInv, LocalInv, QuietLocal, QuietBox, Outgoing;
    NoConfirmDealt(env, d, s.locals[d].dealt);
    OpenBox(env, s, a, b, kind);
    DealtBox(env, s, d, env.dealing(d)[s.locals[d].dealt], a, b, kind);
  }

  /** A survivor's concurrent send in a quiet run. */
  lemma QuietDealStep<P(!new)>(env: Env<P>, s: State<P>, d: Dev)
    requires Choreography(env) && QuietInv(env, s) && Enabled(env, s, Deal(d))
    ensures QuietInv(env, DealState(env, s, d)) && Moved(s, DealState(env, s, d), d)
  {
    hide Choreography, QuietLocal, BoxRight, Inv, Outgoing;
    QuietInvIsInv(env, s);
    DealKeeps(env, s, d);
    var s' := DealState(env, s, d);
    forall a | a in env.honest
      ensures a in s'.locals && s'.locals[a].pc <= |env.program(a)| && QuietLocal(env, a, s'.locals[a])
    {
      QuietDealLocals(env, s, d, a);
    }
    forall a, b, kind | a in env.honest && b in env.honest
      ensures BoxRight(env, s', a, b, kind)
    {
      QuietDealBoxes(env, s, d, a, b, kind);
    }
    MakeQuiet(env, s');
  }

  lemma DealtBox<P(!new)>(env: Env<P>, s: State<P>, d: Dev, op: Op, a: Dev, b: Dev, kind: Kind)
    requires d in s.locals && a in s.locals && b in s.locals && op.Send? && !op.kind.Confirm?
    requires s.locals[a].pc <= |env.program(a)| && s.locals[b].pc <= |env.program(b)| && s.locals[b].dealt <= |env.dealing(b)|
    requires s.locals[d].dealt < |env.dealing(d)| && env.dealing(d)[s.locals[d].dealt] == op && QuietBox(env, s, a, b, kind)
    ensures var l := s.locals[d];
            var s' := State(s.locals[d := l.(dealt := l.dealt + 1)],
                            s.boxes[Box(op.peer, op.kind, d) := Outgoing(env, d, l, op.kind, op.peer)]);
            && s'.locals[a].pc <= |env.program(a)| && s'.locals[b].pc <= |env.program(b)|
            && s'.locals[b].dealt <= |env.dealing(b)| && QuietBox(env, s', a, b, kind)
  {
    RanNext(env.dealing(d), s.locals[d].dealt, Send(kind, a));
  }

  // --- no deadlock ------------------------------------------------------------------------------------------

  predicate Finished<P>(env: Env<P>, s: State<P>, d: Dev) {
    d in s.locals && s.locals[d].pc == |env.program(d)| && s.locals[d].dealt == |env.dealing(d)|
  }

  /** Whoever a member awaits runs a matching send, in its program or beside it. */
  lemma SenderExists<P>(env: Env<P>, d: Dev, l: Local<P>, kind: Kind, p: Dev)
    requires Choreography(env) && AllHonest(env) && AtOp(env, d, l, Await(kind, p))
    ensures p in env.honest && (Send(kind, d) in env.program(p) || Send(kind, d) in env.dealing(p))
    ensures Send(kind, d) in env.program(p) ==> InOrder(env.program(p))
  {
    hide LocalInv, AtOp;
    AtOpIn(env, d, l, Await(kind, p));
    match kind
    case Round1 => assert p in env.dealers; assert DealerProgram(env, p);
    case Round2 => assert p in env.dealers; assert DealerProgram(env, p);
    case Confirm => assert p in env.members; assert MemberProgram(env, p);
    if p in env.members { assert MemberProgram(env, p); }
  }

  lemma AtOpIn<P>(env: Env<P>, d: Dev, l: Local<P>, op: Op)
    requires AtOp(env, d, l, op)
    ensures d in env.members && MemberProgram(env, d) && op in env.program(d)
    ensures l.pc < |env.program(d)| && env.program(d)[l.pc] == op && !Ran(env, l, d, op)
  {
    hide LocalInv;
    NotYet(env.program(d), l.pc);
  }

  /** A send not made yet is at or after the sender's current operation. */
  lemma UnsentAhead(prog: seq<Op>, pc: nat, op: Op)
    requires InOrder(prog) && pc <= |prog| && op in prog && op !in prog[..pc]
    ensures pc < |prog| && Rank(prog[pc]) <= Rank(op)
  {
    var k :| 0 <= k < |prog| && prog[k] == op;
  }

  /**
    An unfinished program can move, or waits for one that is behind it: following
    the waits leads to ever earlier operations, so to one that can move.
   */
  lemma {:induction false} Descend<P(!new)>(env: Env<P>, s: State<P>, d: Dev) returns (step: Step<P>)
    requires Choreography(env) && AllHonest(env) && QuietInv(env, s) && d in env.honest && d in s.locals
    requires s.locals[d].pc < |env.program(d)|
    ensures (step.Run? || step.Deal?) && Enabled(env, s, step)
    decreases Rank(env.program(d)[s.locals[d].pc])
  {
    hide Choreography, QuietInv, LocalInv, QuietBox, AtOp, Ran;
    var op := env.program(d)[s.locals[d].pc];
    NotFailed(env, s, d);
    if CanRun(env, s, d) { return Run(d); }
    MemberAt(env, s, d);
    var p, kind := op.peer, op.kind;
    SenderExists(env, d, s.locals[d], kind, p);
    Unsent(env, s, d, p, kind);
    if Send(kind, d) in env.dealing(p) && s.locals[p].dealt < |env.dealing(p)| {
      NoConfirmDealt(env, p, s.locals[p].dealt);
      return Deal(p);
    }
    DealtAll(env, s, d, p, kind);
    UnsentAhead(env.program(p), s.locals[p].pc, Send(kind, d));
    step := Descend(env, s, p);
  }

  lemma NotFailed<P(!new)>(env: Env<P>, s: State<P>, d: Dev)
    requires QuietInv(env, s) && d in env.honest
    ensures d in s.locals && !s.locals[d].failed
  {
    OpenQuiet(env, s, d);
  }

  lemma MemberAt<P(!new)>(env: Env<P>, s: State<P>, d: Dev)
    requires Choreography(env) && QuietInv(env, s) && d in env.honest && d in s.locals && s.locals[d].pc < |env.program(d)|
    ensures AtOp(env, d, s.locals[d], env.program(d)[s.locals[d].pc])
  {
    hide LocalInv, MemberProgram;
    OpenQuiet(env, s, d);
    RunningIsMember(env, d);
  }

  /** A message that is not in its box, and was not taken, was not sent. */
  lemma Unsent<P(!new)>(env: Env<P>, s: State<P>, d: Dev, p: Dev, kind: Kind)
    requires QuietInv(env, s) && d in env.honest && p in env.honest && d in s.locals
    requires AtOp(env, d, s.locals[d], Await(kind, p)) && Box(d, kind, p) !in s.boxes
    ensures p in s.locals && s.locals[p].pc <= |env.program(p)| && s.locals[p].dealt <= |env.dealing(p)|
    ensures !Sent(env, s.locals[p], p, kind, d)
  {
    hide LocalInv;
    OpenBox(env, s, d, p, kind);
    AtOpIn(env, d, s.locals[d], Await(kind, p));
  }

  lemma DealtAll<P(!new)>(env: Env<P>, s: State<P>, d: Dev, p: Dev, kind: Kind)
    requires p in s.locals && s.locals[p].pc <= |env.program(p)| && s.locals[p].dealt <= |env.dealing(p)|
    requires !Sent(env, s.locals[p], p, kind, d)
    requires Send(kind, d) in env.program(p) || Send(kind, d) in env.dealing(p)
    requires Send(kind, d) !in env.dealing(p) || s.locals[p].dealt == |env.dealing(p)|
    ensures Send(kind, d) in env.program(p) && Send(kind, d) !in env.program(p)[..s.locals[p].pc]
  {
    if s.locals[p].dealt == |env.dealing(p)| { assert env.dealing(p)[..s.locals[p].dealt] == env.dealing(p); }
  }

  /** Until every device has finished, some step is enabled. */
  lemma NoDeadlock<P(!new)>(env: Env<P>, s: State<P>, d: Dev) returns (step: Step<P>)
    requires Choreography(env) && AllHonest(env) && QuietInv(env, s) && d in env.honest && !Finished(env, s, d)
    ensures (step.Run? || step.Deal?) && Enabled(env, s, step)
  {
    hide Choreography, QuietInv, LocalInv;
    OpenQuiet(env, s, d);
    if s.locals[d].dealt < |env.dealing(d)| {
      NoConfirmDealt(env, d, s.locals[d].dealt);
      return Deal(d);
    }
    step := Descend(env, s, d);
  }

  // --- counting steps ---------------------------------------------------------------------------------------

  predicate Present<P>(s: State<P>, ds: seq<Dev>) {
    forall i :: 0 <= i < |ds| ==> ds[i] in s.locals
  }

  function Work<P>(s: State<P>, ds: seq<Dev>): nat
    requires Present(s, ds)
  {
    if ds == [] then 0 else s.locals[ds[0]].pc + s.locals[ds[0]].dealt + Work(s, ds[1..])
  }

  function Total<P>(env: Env<P>, ds: seq<Dev>): nat {
    if ds == [] then 0 else |env.program(ds[0])| + |env.dealing(ds[0])| + Total(env, ds[1..])
  }

  lemma {:induction false} WorkSame<P>(s: State<P>, s': State<P>, ds: seq<Dev>, d: Dev)
    requires Present(s, ds) && Moved(s, s', d) && d !in ds
    ensures Present(s', ds) && Work(s', ds) == Work(s, ds)
  {
    if ds != [] {
      assert ds[0] in s.locals && ds[0] != d;
      WorkSame(s, s', ds[1..], d);
    }
  }

  lemma {:induction false} WorkMoves<P>(s: State<P>, s': State<P>, ds: seq<Dev>, d: Dev)
    requires Present(s, ds) && Moved(s, s', d) && d in ds && Distinct(ds)
    ensures Present(s', ds) && Work(s', ds) == Work(s, ds) + 1
  {
    assert forall i :: 0 <= i < |ds| ==> ds[i] in s'.locals;
    if ds[0] == d {
      WorkSame(s, s', ds[1..], d);
    } else {
      assert ds[0] in s.locals;
      WorkMoves(s, s', ds[1..], d);
    }
  }

  lemma {:induction false} WorkBound<P>(env: Env<P>, s: State<P>, ds: seq<Dev>)
    requires Present(s, ds)
    requires forall d :: d in ds ==> s.locals[d].pc <= |env.program(d)| && s.locals[d].dealt <= |env.dealing(d)|
    ensures Work(s, ds) <= Total(env, ds)
    ensures Work(s, ds) == Total(env, ds) <==> forall d :: d in ds ==> Finished(env, s, d)
  {
    if ds != [] {
      WorkBound(env, s, ds[1..]);
      assert ds[0] in s.locals && ds[0] in ds;
      AllCons(env, s, ds);
    }
  }

  lemma AllCons<P>(env: Env<P>, s: State<P>, ds: seq<Dev>)
    requires ds != []
    ensures (forall d :: d in ds ==> Finished(env, s, d)) <==> Finished(env, s, ds[0]) && forall d :: d in ds[1..] ==> Finished(env, s, d)
  {
    hide Finished;
    assert forall d :: d in ds <==> d == ds[0] || d in ds[1..];
  }

  lemma {:induction false} WorkInit<P>(env: Env<P>, ds: seq<Dev>)
    requires forall d :: d in ds ==> d in env.honest
    ensures Present(Init(env), ds) && Work(Init(env), ds) == 0
  {
    if ds != [] { WorkInit(env, ds[1..]); }
  }

  /** The devices, each listed once. */
  ghost predicate Lists(ds: seq<Dev>, all: set<Dev>) {
    Distinct(ds) && forall d :: d in ds <==> d in all
  }

  lemma {:induction false} CountSteps<P(!new)>(env: Env<P>, run: seq<State<P>>, ds: seq<Dev>, i: nat)
    requires Choreography(env) && AllHonest(env) && HonestData(env) && IsQuietRun(env, run) && Lists(ds, env.honest) && i < |run|
    ensures QuietInv(env, run[i]) && Present(run[i], ds) && Work(run[i], ds) == i
  {
    hide Choreography, HonestData, QuietInv, Exec, Moved, Outgoing, AllHonest;
    if i == 0 {
      QuietInit(env);
      WorkInit(env, ds);
    } else {
      var s := run[i - 1];
      CountSteps(env, run, ds, i - 1);
      assert Quiet(env, run[i - 1], run[i - 1 + 1]);
      var step: Step<P> :| (step.Run? || step.Deal?) && Enabled(env, s, step) && run[i] == Apply(env, s, step);
      if step.Run? {
        QuietRunStep(env, s, step.d);
        QuietRunMoves(env, s, step.d);
      } else {
        QuietDealStep(env, s, step.d);
      }
      WorkMoves(s, run[i], ds, step.d);
    }
  }

  /**
    Every run of an all-honest ceremony: it has at most `Total` steps; it can be
    continued unless it has that many, and then every device has finished.
   */
  lemma EveryRunCompletes<P(!new)>(env: Env<P>, run: seq<State<P>>, ds: seq<Dev>)
    requires Choreography(env) && AllHonest(env) && HonestData(env) && IsQuietRun(env, run) && Lists(ds, env.honest)
    ensures |run| - 1 <= Total(env, ds)
    ensures |run| - 1 == Total(env, ds) <==> forall d :: d in env.honest ==> Finished(env, run[|run| - 1], d)
    ensures |run| - 1 < Total(env, ds) ==> CanContinue(env, run[|run| - 1])
  {
    hide Choreography, HonestData, QuietInv, AllHonest, Enabled, Apply;
    var s := run[|run| - 1];
    CountSteps(env, run, ds, |run| - 1);
    forall d | d in ds
      ensures s.locals[d].pc <= |env.program(d)| && s.locals[d].dealt <= |env.dealing(d)|
    {
      OpenQuiet(env, s, d);
    }
    WorkBound(env, s, ds);
    if |run| - 1 < Total(env, ds) {
      var d :| d in ds && !Finished(env, s, d);
      var step := NoDeadlock(env, s, d);
    }
  }

  /** When all have finished, every member holds the same packages and key. */
  lemma AllFinishAlike<P(!new)>(env: Env<P>, run: seq<State<P>>, ds: seq<Dev>, d: Dev)
    requires Choreography(env) && AllHonest(env) && HonestData(env) && IsQuietRun(env, run) && Lists(ds, env.honest)
    requires d in env.members && Finished(env, run[|run| - 1], d)
    ensures Succeeded(env, run[|run| - 1], d) && run[|run| - 1].locals[d].outcome == Yes(FullOutcome(env))
  {
    var s := run[|run| - 1];
    CountSteps(env, run, ds, |run| - 1);
    hide HonestData, QuietInv, IsQuietRun, FullOutcome;
    MemberRuns(env, d);
    OpenQuiet(env, s, d);
    assert env.program(d)[..|env.program(d)|] == env.program(d);
    assert Ran(env, s.locals[d], d, Derive);
  }
}
