/**
  A key ceremony as a step machine: fresh key generation and the joining side
  of a reshare.  Every honest device runs a straight-line program of sends,
  awaits and local checks against mailboxes its handlers fill; the other
  devices put anything into the mailboxes under their own name, differently
  for each receiver, at any time.
 */
module Ceremony {
  import opened Common
  import opened Transcript

  type Dev = nat
  type Share = nat

  datatype Kind = Round1 | Round2 | Confirm

  /** `Verify` is the local work after round 1, `Derive` the one after round 2. */
  datatype Op = Send(kind: Kind, peer: Dev) | Await(kind: Kind, peer: Dev) | Verify | Derive

  datatype Msg<P> = Package(package: P) | SubShare(share: Share) | Confirmed(digest: Digest, key: Bytes) | Garbage

  datatype Outcome<P> = Outcome(packages: map<Dev, P>, key: Block)

  /** One ceremony: who takes part, who is honest, what they run and what the FROST library answers. */
  datatype Env<!P> = Env(
    honest: set<Dev>,
    dealers: set<Dev>,
    members: set<Dev>,
    program: Dev -> seq<Op>,
    dealing: Dev -> seq<Op>,
    package: Dev -> P,
    share: (Dev, Dev) -> Share,
    proofsOk: map<Dev, P> -> bool,
    sharesOk: (Dev, map<Dev, P>, map<Dev, Share>) -> bool,
    groupKey: map<Dev, P> -> Block,
    fed: (map<Dev, P>, Block) -> Bytes,
    existing: Opt<Block>)

  datatype Local<P> = Local(
    pc: nat, dealt: nat, failed: bool, view: map<Dev, P>, shares: map<Dev, Share>, outcome: Opt<Outcome<P>>)

  datatype Box = Box(to: Dev, kind: Kind, from: Dev)

  datatype State<P> = State(locals: map<Dev, Local<P>>, boxes: map<Box, Msg<P>>)

  // --- steps -----------------------------------------------------------------------------------

  function OwnDigest<P>(env: Env<P>, o: Outcome<P>): Digest {
    Sha256(env.fed(o.packages, o.key))
  }

  function Outgoing<P>(env: Env<P>, d: Dev, l: Local<P>, kind: Kind, peer: Dev): Msg<P> {
    match kind
    case Round1 => Package(env.package(d))
    case Round2 => SubShare(env.share(d, peer))
    case Confirm => if l.outcome.Yes? then Confirmed(OwnDigest(env, l.outcome.value), l.outcome.value.key) else Garbage
  }

  /** What an await makes of the message it takes. */
  function Receive<P>(env: Env<P>, l: Local<P>, kind: Kind, peer: Dev, msg: Msg<P>): Local<P> {
    match kind
    case Round1 => if msg.Package? then l.(pc := l.pc + 1, view := l.view[peer := msg.package]) else l.(failed := true)
    case Round2 => if msg.SubShare? then l.(pc := l.pc + 1, shares := l.shares[peer := msg.share]) else l.(failed := true)
    case Confirm =>
      if msg.Confirmed? && l.outcome.Yes?
         && ConfirmMatches(OwnDigest(env, l.outcome.value), l.outcome.value.key, msg.digest, msg.key)
      then l.(pc := l.pc + 1) else l.(failed := true)
  }

  /** Round-1 packages check out and, in a reshare, give the existing group key. */
  predicate RoundOneOk<P>(env: Env<P>, view: map<Dev, P>) {
    env.proofsOk(view) && (env.existing.Yes? ==> env.groupKey(view) == env.existing.value)
  }

  function Exec<P>(env: Env<P>, s: State<P>, d: Dev, op: Op): State<P>
    requires d in s.locals && (op.Await? ==> Box(d, op.kind, op.peer) in s.boxes)
  {
    var l := s.locals[d];
    match op
    case Send(kind, peer) =>
      State(s.locals[d := l.(pc := l.pc + 1)], s.boxes[Box(peer, kind, d) := Outgoing(env, d, l, kind, peer)])
    case Await(kind, peer) =>
      var box := Box(d, kind, peer);
      State(s.locals[d := Receive(env, l, kind, peer, s.boxes[box])], s.boxes - {box})
    case Verify =>
      s.(locals := s.locals[d := if RoundOneOk(env, l.view) then l.(pc := l.pc + 1) else l.(failed := true)])
    case Derive =>
      s.(locals := s.locals[d := if env.sharesOk(d, l.view, l.shares)
                                 then l.(pc := l.pc + 1, outcome := Yes(Outcome(l.view, env.groupKey(l.view))))
                                 else l.(failed := true)])
  }

  /** `Deal`: a survivor's concurrent sends; `Break`: a transport error; `Inject`: a dishonest peer's message. */
  datatype Step<P> = Run(d: Dev) | Deal(d: Dev) | Break(d: Dev) | Inject(from: Dev, to: Dev, kind: Kind, msg: Msg<P>)

  ghost predicate Enabled<P>(env: Env<P>, s: State<P>, step: Step<P>) {
    match step
    case Run(d) => CanRun(env, s, d)
    case Deal(d) =>
      d in env.honest && d in s.locals && s.locals[d].dealt < |env.dealing(d)| && env.dealing(d)[s.locals[d].dealt].Send?
    case Break(d) => d in env.honest && d in s.locals
    case Inject(from, to, kind, msg) => from !in env.honest
  }

  predicate CanRun<P>(env: Env<P>, s: State<P>, d: Dev) {
    && d in env.honest && d in s.locals && !s.locals[d].failed && s.locals[d].pc < |env.program(d)|
    && var op := env.program(d)[s.locals[d].pc];
       op.Await? ==> Box(d, op.kind, op.peer) in s.boxes
  }

  /** The state after a survivor's next concurrent send. */
  function DealState<P>(env: Env<P>, s: State<P>, d: Dev): State<P>
    requires d in s.locals && s.locals[d].dealt < |env.dealing(d)| && env.dealing(d)[s.locals[d].dealt].Send?
  {
    var l, op := s.locals[d], env.dealing(d)[s.locals[d].dealt];
    State(s.locals[d := l.(dealt := l.dealt + 1)], s.boxes[Box(op.peer, op.kind, d) := Outgoing(env, d, l, op.kind, op.peer)])
  }

  ghost function Apply<P>(env: Env<P>, s: State<P>, step: Step<P>): State<P>
    requires Enabled(env, s, step)
  {
    match step
    case Run(d) => Exec(env, s, d, env.program(d)[s.locals[d].pc])
    case Deal(d) => DealState(env, s, d)
    case Break(d) => s.(locals := s.locals[d := s.locals[d].(failed := true)])
    case Inject(from, to, kind, msg) => s.(boxes := s.boxes[Box(to, kind, from) := msg])
  }

  function StartView<P>(env: Env<P>, d: Dev): map<Dev, P> {
    if d in env.dealers then map[d := env.package(d)] else map[]
  }

  function Init<P>(env: Env<P>): State<P> {
    State(map d | d in env.honest :: Local(0, 0, false, StartView(env, d), map[], No), map[])
  }

  ghost predicate Next<P(!new)>(env: Env<P>, s: State<P>, s': State<P>) {
    exists step :: Enabled(env, s, step) && s' == Apply(env, s, step)
  }

  ghost predicate IsRun<P(!new)>(env: Env<P>, run: seq<State<P>>) {
    run != [] && run[0] == Init(env) && forall i :: 0 <= i < |run| - 1 ==> Next(env, run[i], run[i + 1])
  }

  // --- well-formed programs ------------------------------------------------------------------------

  function Num(kind: Kind): nat {
    match kind
    case Round1 => 0
    case Round2 => 1
    case Confirm => 2
  }

  function Rank(op: Op): nat {
    match op
    case Send(kind, _) => 3 * Num(kind)
    case Await(kind, _) => 3 * Num(kind) + 1
    case Verify => 2
    case Derive => 5
  }

  /** Rounds in order: sends, then awaits, then the local work. */
  predicate InOrder(prog: seq<Op>) {
    forall i, j :: 0 <= i < j < |prog| ==> Rank(prog[i]) <= Rank(prog[j])
  }

  ghost predicate MemberProgram<P>(env: Env<P>, d: Dev) {
    var prog := env.program(d);
    && Distinct(prog) && InOrder(prog) && Verify in prog && Derive in prog
    && (forall q :: Await(Round1, q) in prog <==> q in env.dealers && q != d)
    && (forall q :: Await(Round2, q) in prog <==> q in env.dealers && q != d)
    && (forall q :: Await(Confirm, q) in prog <==> q in env.members && q != d)
    && (forall q :: Send(Confirm, q) in prog <==> q in env.members && q != d)
  }

  /** Round 1 and 2 go to every member but oneself, from the main program or the concurrent sends. */
  ghost predicate DealerProgram<P>(env: Env<P>, d: Dev) {
    var prog, dealing := env.program(d), env.dealing(d);
    && Distinct(dealing)
    && (forall i :: 0 <= i < |dealing| ==> dealing[i].Send? && !dealing[i].kind.Confirm?)
    && (forall q :: Send(Round1, q) in prog || Send(Round1, q) in dealing <==> d in env.dealers && q in env.members && q != d)
    && (forall q :: Send(Round2, q) in prog || Send(Round2, q) in dealing <==> d in env.dealers && q in env.members && q != d)
    && (forall op :: op in prog ==> op !in dealing)
  }

  ghost predicate Choreography<P>(env: Env<P>) {
    && env.honest <= env.members + env.dealers
    && (forall d :: d in env.honest ==> DealerProgram(env, d) && if d in env.members then MemberProgram(env, d) else env.program(d) == [])
  }

  /** Packages that passed round 1 and a key are determined by what is hashed of them. */
  ghost predicate TranscriptBinds<P(!new)>(env: Env<P>) {
    forall v, w, k, l :: BindsPair(env, v, w, k, l)
  }

  ghost predicate BindsPair<P>(env: Env<P>, v: map<Dev, P>, w: map<Dev, P>, k: Block, l: Block) {
    v.Keys == env.dealers && w.Keys == env.dealers && env.proofsOk(v) && env.proofsOk(w) && env.fed(v, k) == env.fed(w, l)
    ==> v == w && k == l
  }

  // --- what every run keeps -----------------------------------------------------------------------

  /** Operation `op` of the device's program has been executed. */
  predicate Ran<P>(env: Env<P>, l: Local<P>, d: Dev, op: Op)
    requires l.pc <= |env.program(d)|
  {
    op in env.program(d)[..l.pc]
  }

  /** The device's own record is what its program so far produces. */
  ghost predicate LocalInv<P>(env: Env<P>, d: Dev, l: Local<P>) {
    && l.pc <= |env.program(d)|
    && (l.outcome.Yes? <==> Ran(env, l, d, Derive))
    && (forall q :: q in l.view <==> (q == d && d in env.dealers) || Ran(env, l, d, Await(Round1, q)))
    && (Ran(env, l, d, Verify) ==> RoundOneOk(env, l.view))
    && (l.outcome.Yes? ==> GoodOutcome(env, l.outcome.value))
  }

  ghost predicate GoodOutcome<P>(env: Env<P>, o: Outcome<P>) {
    o.packages.Keys == env.dealers && RoundOneOk(env, o.packages) && o.key == env.groupKey(o.packages)
  }

  /** A confirm waiting under an honest name is that device's own. */
  predicate BoxInv<P(==)>(env: Env<P>, s: State<P>, d: Dev, p: Dev)
    requires p in s.locals
  {
    Box(d, Confirm, p) in s.boxes ==>
      s.locals[p].outcome.Yes? && s.boxes[Box(d, Confirm, p)] == Outgoing(env, p, s.locals[p], Confirm, d)
  }

  predicate Agree<P>(env: Env<P>, a: Local<P>, b: Local<P>) {
    && a.outcome.Yes? && b.outcome.Yes?
    && OwnDigest(env, a.outcome.value) == OwnDigest(env, b.outcome.value) && a.outcome.value.key == b.outcome.value.key
  }

  /** A confirm taken from an honest peer matched. */
  ghost predicate ConfirmInv<P>(env: Env<P>, s: State<P>, d: Dev, p: Dev)
    requires d in s.locals && p in s.locals && s.locals[d].pc <= |env.program(d)|
  {
    Ran(env, s.locals[d], d, Await(Confirm, p)) ==> Agree(env, s.locals[d], s.locals[p])
  }

  ghost predicate Inv<P(!new)>(env: Env<P>, s: State<P>) {
    && s.locals.Keys == env.honest
    && (forall d :: d in env.honest ==> LocalInv(env, d, s.locals[d]))
    && (forall d, p :: d in env.honest && p in env.honest ==> BoxInv(env, s, d, p) && ConfirmInv(env, s, d, p))
  }

  lemma InitInv<P(!new)>(env: Env<P>)
    ensures Inv(env, Init(env))
  {
  }

  // --- positions in a program ---------------------------------------------------------------------------

  lemma RanNext(prog: seq<Op>, pc: nat, op: Op)
    requires pc < |prog|
    ensures op in prog[..pc + 1] <==> op in prog[..pc] || op == prog[pc]
  {
    assert prog[..pc + 1] == prog[..pc] + [prog[pc]];
  }

  /** An operation is not repeated. */
  lemma NotYet(prog: seq<Op>, pc: nat)
    requires Distinct(prog) && pc < |prog|
    ensures prog[pc] !in prog[..pc]
  {
  }

  /** Operations of earlier rank have been executed, operations of later rank have not. */
  lemma EarlierRan(prog: seq<Op>, pc: nat, op: Op)
    requires InOrder(prog) && pc < |prog|
    ensures op in prog && Rank(op) < Rank(prog[pc]) ==> op in prog[..pc]
    ensures Rank(op) > Rank(prog[pc]) ==> op !in prog[..pc]
  {
    if op in prog {
      var k :| 0 <= k < |prog| && prog[k] == op;
      if k < pc { assert prog[..pc][k] == op; }
    }
  }

  // --- steps keep the invariant -----------------------------------------------------------------------------

  /** A member about to execute its next operation. */
  ghost predicate AtOp<P>(env: Env<P>, d: Dev, l: Local<P>, op: Op) {
    && d in env.members && MemberProgram(env, d) && LocalInv(env, d, l)
    && l.pc < |env.program(d)| && env.program(d)[l.pc] == op
  }

  lemma Advances<P>(env: Env<P>, d: Dev, l: Local<P>, l': Local<P>, op: Op)
    requires AtOp(env, d, l, op) && l'.pc == l.pc + 1
    ensures forall o :: Ran(env, l', d, o) <==> Ran(env, l, d, o) || o == op
    ensures !Ran(env, l, d, op)
    ensures Rank(op) < Rank(Verify) ==> !Ran(env, l, d, Verify)
  {
    hide LocalInv;
    var prog := env.program(d);
    forall o ensures Ran(env, l', d, o) <==> Ran(env, l, d, o) || o == op { RanNext(prog, l.pc, o); }
    NotYet(prog, l.pc);
    EarlierRan(prog, l.pc, Verify);
  }

  lemma KeepsSend<P>(env: Env<P>, d: Dev, l: Local<P>, op: Op)
    requires AtOp(env, d, l, op) && op.Send?
    ensures LocalInv(env, d, l.(pc := l.pc + 1))
  {
    Advances(env, d, l, l.(pc := l.pc + 1), op);
    hide MemberProgram, Ran, GoodOutcome, RoundOneOk;
    PcBound(env, d, l);
  }

  lemma PcBound<P>(env: Env<P>, d: Dev, l: Local<P>)
    requires LocalInv(env, d, l)
    ensures l.pc <= |env.program(d)|
  {
  }

  lemma KeepsPackage<P>(env: Env<P>, d: Dev, l: Local<P>, peer: Dev, package: P)
    requires AtOp(env, d, l, Await(Round1, peer))
    ensures LocalInv(env, d, l.(pc := l.pc + 1, view := l.view[peer := package]))
  {
    var l' := l.(pc := l.pc + 1, view := l.view[peer := package]);
    Advances(env, d, l, l', Await(Round1, peer));
    PcBelow(env, d, l, Await(Round1, peer));
    hide AtOp, GoodOutcome, RoundOneOk, Ran;
    forall q
      ensures q in l'.view <==> (q == d && d in env.dealers) || Ran(env, l', d, Await(Round1, q))
    {
      assert q in l.view <==> (q == d && d in env.dealers) || Ran(env, l, d, Await(Round1, q));
    }
  }

  lemma PcBelow<P>(env: Env<P>, d: Dev, l: Local<P>, op: Op)
    requires AtOp(env, d, l, op)
    ensures LocalInv(env, d, l) && l.pc < |env.program(d)|
  {
  }

  /** An await that leaves the view alone. */
  lemma KeepsOther<P>(env: Env<P>, d: Dev, l: Local<P>, l': Local<P>, op: Op)
    requires AtOp(env, d, l, op) && op.Await? && !op.kind.Round1?
    requires l'.pc == l.pc + 1 && l'.view == l.view && l'.outcome == l.outcome
    ensures LocalInv(env, d, l')
  {
    Advances(env, d, l, l', op);
    PcBelow(env, d, l, op);
    hide AtOp, GoodOutcome, RoundOneOk, Ran;
  }

  lemma KeepsAwait<P>(env: Env<P>, d: Dev, l: Local<P>, op: Op, msg: Msg<P>)
    requires AtOp(env, d, l, op) && op.Await?
    ensures LocalInv(env, d, Receive(env, l, op.kind, op.peer, msg))
  {
    var l' := Receive(env, l, op.kind, op.peer, msg);
    PcBelow(env, d, l, op);
    hide AtOp, LocalInv, OwnDigest;
    if l'.pc == l.pc + 1 {
      if op.kind.Round1? { KeepsPackage(env, d, l, op.peer, msg.package); } else { KeepsOther(env, d, l, l', op); }
    } else {
      FailingKeeps(env, d, l);
    }
  }

  lemma KeepsVerify<P>(env: Env<P>, d: Dev, l: Local<P>)
    requires AtOp(env, d, l, Verify) && RoundOneOk(env, l.view)
    ensures LocalInv(env, d, l.(pc := l.pc + 1))
  {
    Advances(env, d, l, l.(pc := l.pc + 1), Verify);
    hide MemberProgram, GoodOutcome, RoundOneOk;
  }

  lemma KeepsDerive<P>(env: Env<P>, d: Dev, l: Local<P>)
    requires AtOp(env, d, l, Derive)
    ensures LocalInv(env, d, l.(pc := l.pc + 1, outcome := Yes(Outcome(l.view, env.groupKey(l.view)))))
  {
    DerivedComplete(env, d, l);
    Advances(env, d, l, l.(pc := l.pc + 1, outcome := Yes(Outcome(l.view, env.groupKey(l.view)))), Derive);
    hide MemberProgram, RoundOneOk;
  }

  /** A device's own step keeps its own record right. */
  lemma RunKeepsLocal<P(!new)>(env: Env<P>, s: State<P>, d: Dev)
    requires Choreography(env) && Inv(env, s) && CanRun(env, s, d)
    ensures LocalInv(env, d, Exec(env, s, d, env.program(d)[s.locals[d].pc]).locals[d])
  {
    var l, op := s.locals[d], env.program(d)[s.locals[d].pc];
    RunningIsMember(env, d);
    assert LocalInv(env, d, l);
    hide LocalInv, MemberProgram, RoundOneOk, Receive;
    match op
    case Send(_, _) => KeepsSend(env, d, l, op);
    case Await(kind, peer) => KeepsAwait(env, d, l, op, s.boxes[Box(d, kind, peer)]);
    case Verify => if RoundOneOk(env, l.view) { KeepsVerify(env, d, l); } else { FailingKeeps(env, d, l); }
    case Derive => if env.sharesOk(d, l.view, l.shares) { KeepsDerive(env, d, l); } else { FailingKeeps(env, d, l); }
  }

  lemma FailingKeeps<P>(env: Env<P>, d: Dev, l: Local<P>)
    requires LocalInv(env, d, l)
    ensures LocalInv(env, d, l.(failed := true))
    ensures forall n: nat :: LocalInv(env, d, l.(dealt := n))
  {
  }

  lemma RunningIsMember<P>(env: Env<P>, d: Dev)
    requires Choreography(env) && d in env.honest && env.program(d) != []
    ensures d in env.members && MemberProgram(env, d)
  {
  }

  /** By the time a member derives the key it holds a package of every dealer. */
  lemma DerivedComplete<P>(env: Env<P>, d: Dev, l: Local<P>)
    requires d in env.members && MemberProgram(env, d) && LocalInv(env, d, l)
    requires l.pc < |env.program(d)| && env.program(d)[l.pc] == Derive
    ensures l.view.Keys == env.dealers && RoundOneOk(env, l.view)
  {
    var prog := env.program(d);
    EarlierRan(prog, l.pc, Verify);
    forall q
      ensures q in l.view <==> q in env.dealers
    {
      EarlierRan(prog, l.pc, Await(Round1, q));
      if Ran(env, l, d, Await(Round1, q)) { assert Await(Round1, q) in prog; }
    }
  }

  // Opening the invariant at one device or one pair keeps its quantifiers out of the proofs below.

  lemma OpenInv<P(!new)>(env: Env<P>, s: State<P>, d: Dev)
    requires Inv(env, s) && d in env.honest
    ensures d in s.locals && LocalInv(env, d, s.locals[d]) && s.locals[d].pc <= |env.program(d)|
  {
  }

  lemma OpenPair<P(!new)>(env: Env<P>, s: State<P>, a: Dev, b: Dev)
    requires Inv(env, s) && a in env.honest && b in env.honest
    ensures a in s.locals && b in s.locals && s.locals[a].pc <= |env.program(a)|
    ensures BoxInv(env, s, a, b) && ConfirmInv(env, s, a, b)
  {
    OpenInv(env, s, a);
    OpenInv(env, s, b);
  }

  lemma OpenRun<P(!new)>(env: Env<P>, s: State<P>, d: Dev)
    requires Choreography(env) && Inv(env, s) && CanRun(env, s, d)
    ensures AtOp(env, d, s.locals[d], env.program(d)[s.locals[d].pc])
  {
    hide LocalInv, MemberProgram;
    OpenInv(env, s, d);
    RunningIsMember(env, d);
  }

  /** The key is derived once, before any confirm is sent or taken. */
  lemma AtOpFacts<P>(env: Env<P>, d: Dev, l: Local<P>, op: Op)
    requires AtOp(env, d, l, op)
    ensures op == Derive ==> l.outcome.No?
    ensures Rank(op) > 5 ==> l.outcome.Yes?
    ensures op == Derive ==> forall p :: !Ran(env, l, d, Await(Confirm, p))
  {
    var prog := env.program(d);
    NotYet(prog, l.pc);
    EarlierRan(prog, l.pc, Derive);
    forall p ensures op == Derive ==> !Ran(env, l, d, Await(Confirm, p)) { EarlierRan(prog, l.pc, Await(Confirm, p)); }
  }

  /** What an operation does to confirms and outcomes. */
  lemma ExecEffect<P>(env: Env<P>, s: State<P>, d: Dev, op: Op, a: Dev, b: Dev)
    requires d in s.locals && a in s.locals && b in s.locals && (op.Await? ==> Box(d, op.kind, op.peer) in s.boxes)
    ensures var s', box := Exec(env, s, d, op), Box(a, Confirm, b);
            && a in s'.locals && b in s'.locals
            && (s'.locals[b].outcome == s.locals[b].outcome || (b == d && op == Derive))
            && (box in s'.boxes ==>
                  || (box in s.boxes && s'.boxes[box] == s.boxes[box])
                  || (b == d && op == Send(Confirm, a) && s'.boxes[box] == Outgoing(env, d, s.locals[d], Confirm, a)))
  {
    hide OwnDigest, RoundOneOk, ConfirmMatches, Outgoing;
  }

  lemma BoxStep<P(!new)>(env: Env<P>, s: State<P>, d: Dev, op: Op, a: Dev, b: Dev)
    requires d in s.locals && a in s.locals && b in s.locals && (op.Await? ==> Box(d, op.kind, op.peer) in s.boxes)
    requires op == Derive ==> s.locals[d].outcome.No?
    requires Rank(op) > 5 ==> s.locals[d].outcome.Yes?
    requires BoxInv(env, s, a, b)
    ensures b in Exec(env, s, d, op).locals && BoxInv(env, Exec(env, s, d, op), a, b)
  {
    hide Exec, Outgoing;
    ExecEffect(env, s, d, op, a, b);
    var l' := Exec(env, s, d, op).locals[b];
    if l'.outcome == s.locals[b].outcome { OutgoingSame(env, b, s.locals[b], l', a); }
  }

  lemma OutgoingSame<P>(env: Env<P>, p: Dev, l: Local<P>, l': Local<P>, d: Dev)
    requires l.outcome == l'.outcome
    ensures Outgoing(env, p, l, Confirm, d) == Outgoing(env, p, l', Confirm, d)
  {
  }

  lemma DeriveOnce<P>(env: Env<P>, d: Dev, l: Local<P>, op: Op)
    requires AtOp(env, d, l, op)
    ensures op == Derive ==> l.outcome.No?
    ensures Rank(op) > 5 ==> l.outcome.Yes?
  {
    AtOpFacts(env, d, l, op);
  }

  lemma CanRunParts<P>(env: Env<P>, s: State<P>, d: Dev)
    requires CanRun(env, s, d)
    ensures d in env.honest && d in s.locals && s.locals[d].pc < |env.program(d)|
    ensures var op := env.program(d)[s.locals[d].pc]; op.Await? ==> Box(d, op.kind, op.peer) in s.boxes
  {
  }

  /** What an operation does to the device's own counter and outcome. */
  lemma ExecLocal<P>(env: Env<P>, s: State<P>, d: Dev, op: Op)
    requires d in s.locals && (op.Await? ==> Box(d, op.kind, op.peer) in s.boxes)
    ensures var s', l := Exec(env, s, d, op), s.locals[d];
            && d in s'.locals && (s'.locals[d].pc == l.pc || s'.locals[d].pc == l.pc + 1)
            && (s'.locals[d].outcome == l.outcome || op == Derive)
            && (op.Await? && op.kind.Confirm? && s'.locals[d].pc == l.pc + 1 ==>
                  var msg := s.boxes[Box(d, Confirm, op.peer)];
                  && l.outcome.Yes? && msg.Confirmed? && msg.digest == OwnDigest(env, l.outcome.value) && msg.key == l.outcome.value.key)
            && forall a :: a in s.locals && a != d ==> a in s'.locals && s'.locals[a] == s.locals[a]
  {
    hide OwnDigest, RoundOneOk, Outgoing;
  }

  lemma ConfirmStep<P(!new)>(env: Env<P>, s: State<P>, d: Dev, op: Op, a: Dev, b: Dev)
    requires d in s.locals && a in s.locals && b in s.locals && (op.Await? ==> Box(d, op.kind, op.peer) in s.boxes)
    requires AtOp(env, d, s.locals[d], op) && s.locals[a].pc <= |env.program(a)|
    requires BoxInv(env, s, a, b) && ConfirmInv(env, s, a, b)
    ensures var s' := Exec(env, s, d, op);
            a in s'.locals && b in s'.locals && s'.locals[a].pc <= |env.program(a)| && ConfirmInv(env, s', a, b)
  {
    ExecLocal(env, s, d, op);
    DeriveOnce(env, d, s.locals[d], op);
    NoneConfirmed(env, d, s.locals[d], op, b);
    RanNext(env.program(d), s.locals[d].pc, Await(Confirm, b));
    hide AtOp, OwnDigest, Exec;
    if a == d && op == Await(Confirm, b) {
      var s' := Exec(env, s, d, op);
      if s'.locals[d].pc == s.locals[d].pc + 1 {
        assert s.locals[b].outcome.Yes?;
        assert Agree(env, s.locals[d], s.locals[b]);
      }
    }
  }

  lemma NoneConfirmed<P>(env: Env<P>, d: Dev, l: Local<P>, op: Op, p: Dev)
    requires AtOp(env, d, l, op)
    ensures op == Derive ==> !Ran(env, l, d, Await(Confirm, p))
    ensures l.pc < |env.program(d)| && env.program(d)[l.pc] == op
  {
    AtOpFacts(env, d, l, op);
  }

  /** Every step keeps the invariants: records match programs, confirms match outcomes, contents are genuine and checked. */
  lemma StepKeeps<P(!new)>(env: Env<P>, s: State<P>, step: Step<P>)
    requires Choreography(env) && Inv(env, s) && Genuine(env, s) && Enabled(env, s, step)
    ensures Inv(env, Apply(env, s, step)) && Genuine(env, Apply(env, s, step))
  {
    InvStep(env, s, step);
    GenuineStep(env, s, step);
  }

  lemma InvStep<P(!new)>(env: Env<P>, s: State<P>, step: Step<P>)
    requires Choreography(env) && Inv(env, s) && Enabled(env, s, step)
    ensures Inv(env, Apply(env, s, step))
  {
    hide Inv, Choreography;
    match step
    case Run(d) => RunKeeps(env, s, d);
    case Deal(d) => DealKeeps(env, s, d);
    case Break(d) => BreakKeeps(env, s, d);
    case Inject(from, to, kind, msg) => InjectKeeps(env, s, from, to, kind, msg);
  }

  lemma RunKeeps<P(!new)>(env: Env<P>, s: State<P>, d: Dev)
    requires Choreography(env) && Inv(env, s) && CanRun(env, s, d)
    ensures Inv(env, Exec(env, s, d, env.program(d)[s.locals[d].pc]))
  {
    hide Choreography, LocalInv, BoxInv, ConfirmInv, Exec, AtOp;
    var op := env.program(d)[s.locals[d].pc];
    var s' := Exec(env, s, d, op);
    CanRunParts(env, s, d);
    OpenRun(env, s, d);
    DeriveOnce(env, d, s.locals[d], op);
    RunTouchesOne(env, s, d);
    RunKeepsLocal(env, s, d);
    forall a | a in env.honest
      ensures LocalInv(env, a, s'.locals[a])
    {
      OpenInv(env, s, a);
    }
    forall a, b | a in env.honest && b in env.honest
      ensures s'.locals[a].pc <= |env.program(a)| && BoxInv(env, s', a, b) && ConfirmInv(env, s', a, b)
    {
      OpenPair(env, s, a, b);
      BoxStep(env, s, d, op, a, b);
      ConfirmStep(env, s, d, op, a, b);
    }
  }

  lemma RunTouchesOne<P>(env: Env<P>, s: State<P>, d: Dev)
    requires CanRun(env, s, d)
    ensures var s' := Exec(env, s, d, env.program(d)[s.locals[d].pc]);
            s'.locals.Keys == s.locals.Keys && forall a :: a in s.locals && a != d ==> s'.locals[a] == s.locals[a]
  {
  }

  lemma DealKeeps<P(!new)>(env: Env<P>, s: State<P>, d: Dev)
    requires Choreography(env) && Inv(env, s) && Enabled(env, s, Deal(d))
    ensures Inv(env, Apply(env, s, Deal(d)))
  {
    NoConfirmDealt(env, d, s.locals[d].dealt);
    DealTouchesOne(env, s, d);
    var s' := DealState(env, s, d);
    hide Choreography, LocalInv, BoxInv, ConfirmInv, SameConfirms, DealState;
    forall a, b | a in env.honest && b in env.honest
      ensures SameConfirms(env, s, s', a, b)
    {
      DealtPair(env, s, d, a, b);
    }
    OthersKeep(env, s, s', d);
  }

  lemma DealTouchesOne<P>(env: Env<P>, s: State<P>, d: Dev)
    requires d in s.locals && s.locals[d].dealt < |env.dealing(d)| && env.dealing(d)[s.locals[d].dealt].Send?
    ensures var s', l := DealState(env, s, d), s.locals[d];
            && s'.locals.Keys == s.locals.Keys && s'.locals[d] == l.(dealt := l.dealt + 1)
            && forall a :: a in s.locals && a != d ==> s'.locals[a] == s.locals[a]
  {
    hide Outgoing;
  }

  lemma DealtPair<P(!new)>(env: Env<P>, s: State<P>, d: Dev, a: Dev, b: Dev)
    requires d in s.locals && s.locals[d].dealt < |env.dealing(d)|
    requires env.dealing(d)[s.locals[d].dealt].Send? && !env.dealing(d)[s.locals[d].dealt].kind.Confirm?
    requires a in s.locals && b in s.locals
    ensures SameConfirms(env, s, DealState(env, s, d), a, b)
  {
    hide Outgoing;
  }

  lemma NoConfirmDealt<P>(env: Env<P>, d: Dev, i: nat)
    requires Choreography(env) && d in env.honest && i < |env.dealing(d)|
    ensures env.dealing(d)[i].Send? && !env.dealing(d)[i].kind.Confirm?
  {
    assert DealerProgram(env, d);
  }

  lemma BreakKeeps<P(!new)>(env: Env<P>, s: State<P>, d: Dev)
    requires Inv(env, s) && Enabled(env, s, Break(d))
    ensures Inv(env, Apply(env, s, Break(d)))
  {
    OthersKeep(env, s, Apply(env, s, Break(d)), d);
  }

  lemma InjectKeeps<P(!new)>(env: Env<P>, s: State<P>, from: Dev, to: Dev, kind: Kind, msg: Msg<P>)
    requires Inv(env, s) && from !in env.honest
    ensures Inv(env, Apply(env, s, Inject(from, to, kind, msg)))
  {
    hide LocalInv, BoxInv, ConfirmInv;
    var s' := Apply(env, s, Inject(from, to, kind, msg));
    forall a, b | a in env.honest && b in env.honest
      ensures s'.locals[a].pc <= |env.program(a)| && BoxInv(env, s', a, b) && ConfirmInv(env, s', a, b)
    {
      OpenPair(env, s, a, b);
      SamePair(env, s, s', a, b);
    }
  }

  /** Nothing the pair invariants speak of changed. */
  ghost predicate SameConfirms<P(!new)>(env: Env<P>, s: State<P>, s': State<P>, a: Dev, b: Dev) {
    && a in s.locals && b in s.locals && a in s'.locals && b in s'.locals
    && s'.locals[a].pc == s.locals[a].pc && s'.locals[a].outcome == s.locals[a].outcome && s'.locals[b].outcome == s.locals[b].outcome
    && (Box(a, Confirm, b) in s'.boxes <==> Box(a, Confirm, b) in s.boxes)
    && (Box(a, Confirm, b) in s.boxes ==> s'.boxes[Box(a, Confirm, b)] == s.boxes[Box(a, Confirm, b)])
  }

  lemma SamePair<P(!new)>(env: Env<P>, s: State<P>, s': State<P>, a: Dev, b: Dev)
    requires SameConfirms(env, s, s', a, b) && s.locals[a].pc <= |env.program(a)|
    requires BoxInv(env, s, a, b) && ConfirmInv(env, s, a, b)
    ensures s'.locals[a].pc <= |env.program(a)| && BoxInv(env, s', a, b) && ConfirmInv(env, s', a, b)
  {
    hide OwnDigest;
  }

  /** A step that only touches one device's send counter or failure flag and no confirm. */
  lemma OthersKeep<P(!new)>(env: Env<P>, s: State<P>, s': State<P>, d: Dev)
    requires Inv(env, s) && d in env.honest && s'.locals.Keys == s.locals.Keys
    requires forall a :: a in s.locals && a != d ==> s'.locals[a] == s.locals[a]
    requires s'.locals[d] == s.locals[d].(failed := true) || s'.locals[d] == s.locals[d].(dealt := s.locals[d].dealt + 1)
    requires forall a, b :: a in env.honest && b in env.honest ==> SameConfirms(env, s, s', a, b)
    ensures Inv(env, s')
  {
    hide LocalInv, BoxInv, ConfirmInv, SameConfirms;
    OpenInv(env, s, d);
    FailingKeeps(env, d, s.locals[d]);
    forall a | a in env.honest
      ensures LocalInv(env, a, s'.locals[a])
    {
      OpenInv(env, s, a);
      if a == d && s'.locals[d] != s.locals[d].(failed := true) {
        var n := s.locals[d].dealt + 1;
        assert LocalInv(env, d, s.locals[d].(dealt := n));
      }
    }
    forall a, b | a in env.honest && b in env.honest
      ensures s'.locals[a].pc <= |env.program(a)| && BoxInv(env, s', a, b) && ConfirmInv(env, s', a, b)
    {
      OpenPair(env, s, a, b);
      SamePair(env, s, s', a, b);
    }
  }

  // --- what was received, and that it was checked ---------------------------------------------------------

  /** The key was derived from the packages held, with a share of every other dealer that the library accepted. */
  ghost predicate Checked<P>(env: Env<P>, d: Dev, l: Local<P>)
    requires l.outcome.Yes?
  {
    && l.outcome.value.packages == l.view
    && l.shares.Keys == env.dealers - {d} && env.sharesOk(d, l.view, l.shares)
  }

  /** What was taken under an honest name is what that device sent. */
  ghost predicate FromHonest<P>(env: Env<P>, d: Dev, l: Local<P>) {
    && (forall q :: q in l.view && q in env.honest ==> l.view[q] == env.package(q))
    && (forall q :: q in l.shares && q in env.honest ==> l.shares[q] == env.share(q, d))
  }

  ghost predicate Inbound<P>(env: Env<P>, d: Dev, l: Local<P>) {
    && l.pc <= |env.program(d)|
    && (forall q :: q in l.shares <==> Ran(env, l, d, Await(Round2, q)))
    && FromHonest(env, d, l)
    && (l.outcome.Yes? ==> Checked(env, d, l))
  }

  /** A box under an honest name holds what that device sends. */
  predicate HonestBox<P(==)>(env: Env<P>, s: State<P>, d: Dev, p: Dev) {
    && (Box(d, Round1, p) in s.boxes ==> s.boxes[Box(d, Round1, p)] == Package(env.package(p)))
    && (Box(d, Round2, p) in s.boxes ==> s.boxes[Box(d, Round2, p)] == SubShare(env.share(p, d)))
  }

  ghost predicate Genuine<P(!new)>(env: Env<P>, s: State<P>) {
    && s.locals.Keys == env.honest
    && (forall d :: d in env.honest ==> Inbound(env, d, s.locals[d]))
    && (forall d, p :: p in env.honest ==> HonestBox(env, s, d, p))
  }

  lemma InitGenuine<P(!new)>(env: Env<P>)
    ensures Genuine(env, Init(env))
  {
  }

  /** Operations before the derivation find no outcome. */
  lemma NotDerived<P>(env: Env<P>, d: Dev, l: Local<P>, op: Op)
    requires AtOp(env, d, l, op) && Rank(op) <= 5
    ensures l.outcome.No?
  {
    AtOpFacts(env, d, l, op);
    EarlierRan(env.program(d), l.pc, Derive);
  }

  /** At the derivation a share of every other dealer is held. */
  lemma SharesComplete<P>(env: Env<P>, d: Dev, l: Local<P>)
    requires AtOp(env, d, l, Derive) && Inbound(env, d, l)
    ensures l.shares.Keys == env.dealers - {d}
  {
    forall q
      ensures q in l.shares <==> q in env.dealers && q != d
    {
      ShareAwaited(env, d, l, q);
    }
  }

  lemma ShareAwaited<P>(env: Env<P>, d: Dev, l: Local<P>, q: Dev)
    requires AtOp(env, d, l, Derive) && l.pc <= |env.program(d)|
    ensures Ran(env, l, d, Await(Round2, q)) <==> q in env.dealers && q != d
  {
    hide LocalInv;
    EarlierRan(env.program(d), l.pc, Await(Round2, q));
    if Ran(env, l, d, Await(Round2, q)) { assert Await(Round2, q) in env.program(d); }
  }

  lemma InboundPackage<P>(env: Env<P>, d: Dev, l: Local<P>, peer: Dev, package: P)
    requires AtOp(env, d, l, Await(Round1, peer)) && Inbound(env, d, l)
    requires peer in env.honest ==> package == env.package(peer)
    ensures Inbound(env, d, l.(pc := l.pc + 1, view := l.view[peer := package]))
  {
    var l' := l.(pc := l.pc + 1, view := l.view[peer := package]);
    NotDerived(env, d, l, Await(Round1, peer));
    Advances(env, d, l, l', Await(Round1, peer));
    PcBelow(env, d, l, Await(Round1, peer));
    hide AtOp, LocalInv, Ran, Checked;
  }

  lemma InboundShare<P>(env: Env<P>, d: Dev, l: Local<P>, peer: Dev, share: Share)
    requires AtOp(env, d, l, Await(Round2, peer)) && Inbound(env, d, l)
    requires peer in env.honest ==> share == env.share(peer, d)
    ensures Inbound(env, d, l.(pc := l.pc + 1, shares := l.shares[peer := share]))
  {
    var l' := l.(pc := l.pc + 1, shares := l.shares[peer := share]);
    hide AtOp, LocalInv, Ran, Checked, FromHonest, MemberProgram;
    NotDerived(env, d, l, Await(Round2, peer));
    Advances(env, d, l, l', Await(Round2, peer));
    PcBelow(env, d, l, Await(Round2, peer));
    ShareFromHonest(env, d, l, peer, share);
    forall q
      ensures q in l'.shares <==> Ran(env, l', d, Await(Round2, q))
    {
      assert q in l.shares <==> Ran(env, l, d, Await(Round2, q));
    }
  }

  lemma ShareFromHonest<P>(env: Env<P>, d: Dev, l: Local<P>, peer: Dev, share: Share)
    requires FromHonest(env, d, l) && (peer in env.honest ==> share == env.share(peer, d))
    ensures FromHonest(env, d, l.(pc := l.pc + 1, shares := l.shares[peer := share]))
  {
  }

  lemma InboundAwait<P>(env: Env<P>, d: Dev, l: Local<P>, op: Op, msg: Msg<P>)
    requires AtOp(env, d, l, op) && op.Await? && Inbound(env, d, l)
    requires op.peer in env.honest && op.kind.Round1? ==> msg == Package(env.package(op.peer))
    requires op.peer in env.honest && op.kind.Round2? ==> msg == SubShare(env.share(op.peer, d))
    ensures Inbound(env, d, Receive(env, l, op.kind, op.peer, msg))
  {
    hide AtOp, Inbound, OwnDigest, ConfirmMatches;
    InboundFailing(env, d, l);
    match op.kind
    case Round1 => if msg.Package? { InboundPackage(env, d, l, op.peer, msg.package); }
    case Round2 => if msg.SubShare? { InboundShare(env, d, l, op.peer, msg.share); }
    case Confirm => InboundStays(env, d, l, op);
  }

  lemma InboundStays<P>(env: Env<P>, d: Dev, l: Local<P>, op: Op)
    requires AtOp(env, d, l, op) && Inbound(env, d, l) && op != Derive && !(op.Await? && !op.kind.Confirm?)
    ensures Inbound(env, d, l.(pc := l.pc + 1))
  {
    hide AtOp, LocalInv, Ran, Checked, FromHonest, MemberProgram;
    var l' := l.(pc := l.pc + 1);
    Advances(env, d, l, l', op);
    PcBelow(env, d, l, op);
    CheckedSame(env, d, l, l');
    forall q
      ensures q in l'.shares <==> Ran(env, l', d, Await(Round2, q))
    {
      assert q in l.shares <==> Ran(env, l, d, Await(Round2, q));
    }
  }

  lemma CheckedSame<P>(env: Env<P>, d: Dev, l: Local<P>, l': Local<P>)
    requires l'.view == l.view && l'.shares == l.shares && l'.outcome == l.outcome
    ensures FromHonest(env, d, l) <==> FromHonest(env, d, l')
    ensures l.outcome.Yes? ==> (Checked(env, d, l) <==> Checked(env, d, l'))
  {
  }

  lemma InboundDerive<P>(env: Env<P>, d: Dev, l: Local<P>)
    requires AtOp(env, d, l, Derive) && Inbound(env, d, l) && env.sharesOk(d, l.view, l.shares)
    ensures Inbound(env, d, l.(pc := l.pc + 1, outcome := Yes(Outcome(l.view, env.groupKey(l.view)))))
  {
    hide AtOp, LocalInv, Ran, FromHonest, MemberProgram;
    var l' := l.(pc := l.pc + 1, outcome := Yes(Outcome(l.view, env.groupKey(l.view))));
    SharesComplete(env, d, l);
    Advances(env, d, l, l', Derive);
    PcBelow(env, d, l, Derive);
    SameFromHonest(env, d, l, l');
    forall q
      ensures q in l'.shares <==> Ran(env, l', d, Await(Round2, q))
    {
      assert q in l.shares <==> Ran(env, l, d, Await(Round2, q));
    }
  }

  lemma SameFromHonest<P>(env: Env<P>, d: Dev, l: Local<P>, l': Local<P>)
    requires l'.view == l.view && l'.shares == l.shares && FromHonest(env, d, l)
    ensures FromHonest(env, d, l')
  {
  }

  lemma InboundFailing<P>(env: Env<P>, d: Dev, l: Local<P>)
    requires Inbound(env, d, l)
    ensures Inbound(env, d, l.(failed := true))
    ensures forall n: nat :: Inbound(env, d, l.(dealt := n))
  {
  }

  lemma InboundRun<P(!new)>(env: Env<P>, s: State<P>, d: Dev, op: Op)
    requires d in s.locals && (op.Await? ==> Box(d, op.kind, op.peer) in s.boxes)
    requires AtOp(env, d, s.locals[d], op) && Inbound(env, d, s.locals[d])
    requires op.Await? && op.peer in env.honest ==> HonestBox(env, s, d, op.peer)
    ensures Inbound(env, d, Exec(env, s, d, op).locals[d])
  {
    hide Inbound, AtOp, Receive, RoundOneOk, Outgoing;
    var l := s.locals[d];
    InboundFailing(env, d, l);
    match op
    case Send(_, _) => InboundStays(env, d, l, op);
    case Await(kind, peer) => InboundAwait(env, d, l, op, s.boxes[Box(d, kind, peer)]);
    case Verify => if RoundOneOk(env, l.view) { InboundStays(env, d, l, op); }
    case Derive => if env.sharesOk(d, l.view, l.shares) { InboundDerive(env, d, l); }
  }

  /** What an operation does to the packages and shares waiting in boxes. */
  lemma BoxesAfter<P>(env: Env<P>, s: State<P>, d: Dev, op: Op, a: Dev, p: Dev)
    requires d in s.locals && (op.Await? ==> Box(d, op.kind, op.peer) in s.boxes) && HonestBox(env, s, a, p)
    ensures HonestBox(env, Exec(env, s, d, op), a, p)
  {
    hide OwnDigest, RoundOneOk, ConfirmMatches, Receive;
  }

  lemma GenuineStep<P(!new)>(env: Env<P>, s: State<P>, step: Step<P>)
    requires Choreography(env) && Inv(env, s) && Genuine(env, s) && Enabled(env, s, step)
    ensures Genuine(env, Apply(env, s, step))
  {
    hide Genuine, Inv, Choreography, Exec, DealState;
    match step
    case Run(d) => GenuineRun(env, s, d);
    case Deal(d) => GenuineDeal(env, s, d);
    case Break(d) => GenuineBreak(env, s, d);
    case Inject(from, to, kind, msg) => GenuineInject(env, s, from, to, kind, msg);
  }

  lemma GenuineBreak<P(!new)>(env: Env<P>, s: State<P>, d: Dev)
    requires Genuine(env, s) && d in env.honest && d in s.locals
    ensures Genuine(env, s.(locals := s.locals[d := s.locals[d].(failed := true)]))
  {
    assert Inbound(env, d, s.locals[d]);
    InboundFailing(env, d, s.locals[d]);
    hide Inbound;
    var s' := s.(locals := s.locals[d := s.locals[d].(failed := true)]);
    forall a, p | p in env.honest
      ensures HonestBox(env, s', a, p)
    {
      assert HonestBox(env, s, a, p);
    }
  }

  lemma GenuineInject<P(!new)>(env: Env<P>, s: State<P>, from: Dev, to: Dev, kind: Kind, msg: Msg<P>)
    requires Genuine(env, s) && from !in env.honest
    ensures Genuine(env, s.(boxes := s.boxes[Box(to, kind, from) := msg]))
  {
    hide Inbound;
    var s' := s.(boxes := s.boxes[Box(to, kind, from) := msg]);
    forall a, p | p in env.honest
      ensures HonestBox(env, s', a, p)
    {
      assert HonestBox(env, s, a, p);
    }
  }

  lemma GenuineRun<P(!new)>(env: Env<P>, s: State<P>, d: Dev)
    requires Choreography(env) && Inv(env, s) && Genuine(env, s) && CanRun(env, s, d)
    ensures Genuine(env, Exec(env, s, d, env.program(d)[s.locals[d].pc]))
  {
    hide Inbound, Inv, Choreography, HonestBox, Exec;
    var op := env.program(d)[s.locals[d].pc];
    var s' := Exec(env, s, d, op);
    CanRunParts(env, s, d);
    OpenRun(env, s, d);
    InboundRun(env, s, d, op);
    RunTouchesOne(env, s, d);
    forall a, p | p in env.honest
      ensures HonestBox(env, s', a, p)
    {
      BoxesAfter(env, s, d, op, a, p);
    }
  }

  lemma DealtBox<P(!new)>(env: Env<P>, s: State<P>, d: Dev, a: Dev, p: Dev)
    requires d in s.locals && s.locals[d].dealt < |env.dealing(d)|
    requires env.dealing(d)[s.locals[d].dealt].Send? && !env.dealing(d)[s.locals[d].dealt].kind.Confirm?
    requires HonestBox(env, s, a, p)
    ensures HonestBox(env, DealState(env, s, d), a, p)
  {
    hide OwnDigest;
  }

  lemma DealtInbound<P>(env: Env<P>, s: State<P>, d: Dev)
    requires d in s.locals && Inbound(env, d, s.locals[d])
    requires s.locals[d].dealt < |env.dealing(d)| && env.dealing(d)[s.locals[d].dealt].Send?
    ensures Inbound(env, d, DealState(env, s, d).locals[d])
  {
    InboundFailing(env, d, s.locals[d]);
    hide Inbound, Outgoing;
    var n := s.locals[d].dealt + 1;
    assert Inbound(env, d, s.locals[d].(dealt := n));
  }

  lemma GenuineDeal<P(!new)>(env: Env<P>, s: State<P>, d: Dev)
    requires Genuine(env, s) && Enabled(env, s, Deal(d)) && Choreography(env)
    ensures Genuine(env, DealState(env, s, d))
  {
    hide Inbound, Choreography, DealState, HonestBox;
    NoConfirmDealt(env, d, s.locals[d].dealt);
    DealTouchesOne(env, s, d);
    DealtInbound(env, s, d);
    var s' := DealState(env, s, d);
    forall a, p | p in env.honest
      ensures HonestBox(env, s', a, p)
    {
      DealtBox(env, s, d, a, p);
    }
  }

  /** A member whose shares the library refuses does not get past the derivation: it fails, without a key. */
  lemma RefusedSharesFail<P(!new)>(env: Env<P>, s: State<P>, d: Dev)
    requires CanRun(env, s, d) && env.program(d)[s.locals[d].pc] == Derive
    requires !env.sharesOk(d, s.locals[d].view, s.locals[d].shares)
    ensures Apply(env, s, Run(d)) == s.(locals := s.locals[d := s.locals[d].(failed := true)])
  {
  }

  lemma {:induction false} RunKeepsInv<P(!new)>(env: Env<P>, run: seq<State<P>>, i: nat)
    requires Choreography(env) && IsRun(env, run) && i < |run|
    ensures Inv(env, run[i]) && Genuine(env, run[i])
  {
    if i == 0 {
      InitInv(env);
      InitGenuine(env);
    } else {
      RunKeepsInv(env, run, i - 1);
      assert Next(env, run[i - 1], run[i - 1 + 1]);
      var step :| Enabled(env, run[i - 1], step) && run[i] == Apply(env, run[i - 1], step);
      StepKeeps(env, run[i - 1], step);
    }
  }

  // --- agreement -----------------------------------------------------------------------------------------

  /** The device's ceremony returned a key. */
  predicate Succeeded<P>(env: Env<P>, s: State<P>, d: Dev) {
    d in s.locals && !s.locals[d].failed && s.locals[d].pc == |env.program(d)|
  }

  /**
    In every state of every run, an honest member that holds a key derived it
    from a package of every dealer and a share of every other dealer, which the
    library accepted together; the package and share of an honest dealer are the
    ones that dealer sent.
   */
  lemma OutcomeChecked<P(!new)>(env: Env<P>, run: seq<State<P>>, i: nat, d: Dev)
    requires Choreography(env) && IsRun(env, run) && i < |run| && d in env.honest
    requires d in run[i].locals && run[i].locals[d].outcome.Yes?
    ensures var l := run[i].locals[d];
            var packages := l.outcome.value.packages;
            && packages.Keys == env.dealers && l.shares.Keys == env.dealers - {d}
            && env.proofsOk(packages) && env.sharesOk(d, packages, l.shares)
            && l.outcome.value.key == env.groupKey(packages)
            && (forall q :: q in env.dealers && q in env.honest ==> packages[q] == env.package(q))
            && (forall q :: q in env.dealers && q in env.honest && q != d ==> l.shares[q] == env.share(q, d))
  {
    RunKeepsInv(env, run, i);
    OpenInv(env, run[i], d);
    assert Inbound(env, d, run[i].locals[d]);
    hide *;
    CheckedFacts(env, d, run[i].locals[d]);
  }

  lemma CheckedFacts<P>(env: Env<P>, d: Dev, l: Local<P>)
    requires LocalInv(env, d, l) && Inbound(env, d, l) && l.outcome.Yes?
    ensures var packages := l.outcome.value.packages;
            && packages.Keys == env.dealers && l.shares.Keys == env.dealers - {d}
            && env.proofsOk(packages) && env.sharesOk(d, packages, l.shares)
            && l.outcome.value.key == env.groupKey(packages)
            && (forall q :: q in env.dealers && q in env.honest ==> packages[q] == env.package(q))
            && (forall q :: q in env.dealers && q in env.honest && q != d ==> l.shares[q] == env.share(q, d))
  {
    hide Ran;
    assert GoodOutcome(env, l.outcome.value) && Checked(env, d, l) && FromHonest(env, d, l);
    var packages := l.outcome.value.packages;
    forall q | q in env.dealers && q in env.honest ensures packages[q] == env.package(q) { assert q in l.view; }
    forall q | q in env.dealers && q in env.honest && q != d ensures l.shares[q] == env.share(q, d) { assert q in l.shares; }
  }

  /**
    In every state of every run: if one honest member's ceremony returned a key,
    every other honest member derived it from the same packages, whatever the
    dishonest devices sent to whom, and each checked shares of its own; in a
    reshare it is the existing key.
   */
  lemma Agreement<P(!new)>(env: Env<P>, run: seq<State<P>>, i: nat, d: Dev, p: Dev)
    requires Choreography(env) && TranscriptBinds(env) && IsRun(env, run) && i < |run|
    requires d in env.honest && d in env.members && Succeeded(env, run[i], d)
    requires p in env.honest && p in env.members
    ensures p in run[i].locals && run[i].locals[d].outcome.Yes? && run[i].locals[p].outcome == run[i].locals[d].outcome
    ensures run[i].locals[d].outcome.value.packages.Keys == env.dealers
    ensures var l := run[i].locals[p];
            l.shares.Keys == env.dealers - {p} && env.sharesOk(p, l.outcome.value.packages, l.shares)
    ensures forall q :: q in env.dealers && q in env.honest ==> run[i].locals[d].outcome.value.packages[q] == env.package(q)
    ensures env.existing.Yes? ==> run[i].locals[d].outcome.value.key == env.existing.value
  {
    RunKeepsInv(env, run, i);
    var s, prog := run[i], env.program(d);
    MemberRuns(env, d);
    OpenInv(env, s, d);
    OpenInv(env, s, p);
    OpenPair(env, s, d, p);
    hide Inv, IsRun, Choreography, RoundOneOk;
    assert prog[..|prog|] == prog;
    if p != d {
      assert Await(Confirm, p) in prog;
      var o, q := s.locals[d].outcome.value, s.locals[p].outcome.value;
      OutcomesBind(env, o, q);
    }
    OutcomeKey(env, s.locals[d].outcome.value);
    OutcomeChecked(env, run, i, p);
  }

  lemma MemberRuns<P>(env: Env<P>, d: Dev)
    requires Choreography(env) && d in env.honest && d in env.members
    ensures MemberProgram(env, d)
  {
  }

  lemma OutcomeKey<P>(env: Env<P>, o: Outcome<P>)
    requires GoodOutcome(env, o)
    ensures o.packages.Keys == env.dealers && (env.existing.Yes? ==> o.key == env.existing.value)
  {
  }

  lemma OutcomesBind<P(!new)>(env: Env<P>, o: Outcome<P>, q: Outcome<P>)
    requires TranscriptBinds(env) && GoodOutcome(env, o) && GoodOutcome(env, q) && OwnDigest(env, o) == OwnDigest(env, q)
    ensures o == q
  {
    assert BindsPair(env, o.packages, q.packages, o.key, q.key);
  }
}
