/**
  The two ceremonies as the code writes them down, and what the general
  results say of each: fresh key generation, and a reshare with its survivors
  dealing beside the members that join.
 */
module CeremonyPrograms {
  import opened Common
  import opened Transcript
  import opened Ceremony
  import opened CeremonyProgress

  function Sends(kind: Kind, peers: seq<Dev>): (r: seq<Op>)
    ensures |r| == |peers| && forall i :: 0 <= i < |peers| ==> r[i] == Send(kind, peers[i])
  {
    seq(|peers|, i requires 0 <= i < |peers| => Send(kind, peers[i]))
  }

  function Awaits(kind: Kind, peers: seq<Dev>): (r: seq<Op>)
    ensures |r| == |peers| && forall i :: 0 <= i < |peers| ==> r[i] == Await(kind, peers[i])
  {
    seq(|peers|, i requires 0 <= i < |peers| => Await(kind, peers[i]))
  }

  /** `run_fresh_threshold_dkg`; round 2 goes out in identifier order. */
  function FreshProgram(others: seq<Dev>, outgoing: seq<Dev>): seq<Op> {
    (Sends(Round1, others) + Awaits(Round1, others) + [Verify])
    + (Sends(Round2, outgoing) + Awaits(Round2, others) + [Derive])
    + (Sends(Confirm, others) + Awaits(Confirm, others))
  }

  /** `join_threshold_reshare`. */
  function JoinProgram(sources: seq<Dev>, others: seq<Dev>): seq<Op> {
    (Awaits(Round1, sources) + [Verify])
    + (Awaits(Round2, sources) + [Derive])
    + (Sends(Confirm, others) + Awaits(Confirm, others))
  }

  /** `send_reshare_contribution`. */
  function DealProgram(recipients: seq<Dev>): seq<Op> {
    Sends(Round1, recipients) + Sends(Round2, recipients)
  }

  // --- order and contents of programs ---------------------------------------------------------

  /** Distinct operations in order, all of rank `lo` to `hi`. */
  predicate Stretch(prog: seq<Op>, lo: nat, hi: nat) {
    Distinct(prog) && InOrder(prog) && forall i :: 0 <= i < |prog| ==> lo <= Rank(prog[i]) <= hi
  }

  lemma Join(p: seq<Op>, q: seq<Op>, lo: nat, a: nat, b: nat, hi: nat)
    requires Stretch(p, lo, a) && Stretch(q, b, hi) && lo <= a < b <= hi
    ensures Stretch(p + q, lo, hi)
  {
    var r := p + q;
    forall i, j | 0 <= i < j < |r|
      ensures r[i] != r[j] && Rank(r[i]) <= Rank(r[j])
    {
      if i < |p| <= j { assert Rank(r[i]) <= a && b <= Rank(r[j]); }
    }
  }

  lemma BlockStretch(kind: Kind, peers: seq<Dev>)
    requires Distinct(peers)
    ensures Stretch(Sends(kind, peers), 3 * Num(kind), 3 * Num(kind))
    ensures Stretch(Awaits(kind, peers), 3 * Num(kind) + 1, 3 * Num(kind) + 1)
  {
  }

  lemma FreshStretch(others: seq<Dev>, outgoing: seq<Dev>)
    requires Distinct(others) && Distinct(outgoing)
    ensures Stretch(FreshProgram(others, outgoing), 0, 7)
  {
    BlockStretch(Round1, others);
    BlockStretch(Round2, others);
    BlockStretch(Round2, outgoing);
    BlockStretch(Confirm, others);
    hide Stretch, Sends, Awaits;
    LocalStretch();
    var a, b, c := Sends(Round1, others) + Awaits(Round1, others), Sends(Round2, outgoing) + Awaits(Round2, others), Sends(Confirm, others);
    Join(Sends(Round1, others), Awaits(Round1, others), 0, 0, 1, 1);
    Join(a, [Verify], 0, 1, 2, 2);
    Join(Sends(Round2, outgoing), Awaits(Round2, others), 3, 3, 4, 4);
    Join(b, [Derive], 3, 4, 5, 5);
    Join(c, Awaits(Confirm, others), 6, 6, 7, 7);
    Join(a + [Verify], b + [Derive], 0, 2, 3, 5);
    Join((a + [Verify]) + (b + [Derive]), c + Awaits(Confirm, others), 0, 5, 6, 7);
  }

  lemma LocalStretch()
    ensures Stretch([Verify], 2, 2) && Stretch([Derive], 5, 5)
  {
  }

  lemma JoinStretch(sources: seq<Dev>, others: seq<Dev>)
    requires Distinct(sources) && Distinct(others)
    ensures Stretch(JoinProgram(sources, others), 1, 7)
  {
    BlockStretch(Round1, sources);
    BlockStretch(Round2, sources);
    BlockStretch(Confirm, others);
    hide Stretch, Sends, Awaits;
    LocalStretch();
    var a, b := Awaits(Round1, sources), Awaits(Round2, sources);
    Join(a, [Verify], 1, 1, 2, 2);
    Join(b, [Derive], 4, 4, 5, 5);
    Join(Sends(Confirm, others), Awaits(Confirm, others), 6, 6, 7, 7);
    Join(a + [Verify], b + [Derive], 1, 2, 4, 5);
    Join((a + [Verify]) + (b + [Derive]), Sends(Confirm, others) + Awaits(Confirm, others), 1, 5, 6, 7);
  }

  lemma InBlock(kind: Kind, peers: seq<Dev>, op: Op)
    ensures op in Sends(kind, peers) <==> op.Send? && op.kind == kind && op.peer in peers
    ensures op in Awaits(kind, peers) <==> op.Await? && op.kind == kind && op.peer in peers
  {
    if op.Send? && op.kind == kind && op.peer in peers {
      var i :| 0 <= i < |peers| && peers[i] == op.peer;
      assert Sends(kind, peers)[i] == op;
    }
    if op.Await? && op.kind == kind && op.peer in peers {
      var i :| 0 <= i < |peers| && peers[i] == op.peer;
      assert Awaits(kind, peers)[i] == op;
    }
  }

  lemma InFresh(others: seq<Dev>, outgoing: seq<Dev>, op: Op)
    ensures op in FreshProgram(others, outgoing) <==>
            match op
            case Send(kind, q) => if kind.Round2? then q in outgoing else q in others
            case Await(_, q) => q in others
            case Verify => true
            case Derive => true
  {
    hide Sends, Awaits;
    InBlock(Round1, others, op);
    InBlock(Round2, others, op);
    InBlock(Round2, outgoing, op);
    InBlock(Confirm, others, op);
  }

  lemma InJoin(sources: seq<Dev>, others: seq<Dev>, op: Op)
    ensures op in JoinProgram(sources, others) <==>
            match op
            case Send(kind, q) => kind.Confirm? && q in others
            case Await(kind, q) => if kind.Confirm? then q in others else q in sources
            case Verify => true
            case Derive => true
  {
    hide Sends, Awaits;
    InBlock(Round1, sources, op);
    InBlock(Round2, sources, op);
    InBlock(Confirm, others, op);
  }

  lemma InDeal(recipients: seq<Dev>, op: Op)
    ensures op in DealProgram(recipients) <==> op.Send? && !op.kind.Confirm? && op.peer in recipients
  {
    hide Sends, Awaits;
    InBlock(Round1, recipients, op);
    InBlock(Round2, recipients, op);
  }

  // --- fresh key generation -----------------------------------------------------------------------

  /** Every participant deals and joins, and lists the others in an order of its own. */
  ghost predicate IsFresh<P>(env: Env<P>, others: Dev -> seq<Dev>, outgoing: Dev -> seq<Dev>) {
    && env.members == env.dealers && env.honest <= env.members && env.existing.No?
    && forall d :: d in env.members ==> FreshDevice(env, others, outgoing, d)
  }

  ghost predicate FreshDevice<P>(env: Env<P>, others: Dev -> seq<Dev>, outgoing: Dev -> seq<Dev>, d: Dev) {
    && Lists(others(d), env.members - {d}) && Lists(outgoing(d), env.members - {d})
    && env.program(d) == FreshProgram(others(d), outgoing(d)) && env.dealing(d) == []
  }

  lemma FreshPrograms<P>(env: Env<P>, others: Dev -> seq<Dev>, outgoing: Dev -> seq<Dev>, d: Dev)
    requires env.members == env.dealers && d in env.members && FreshDevice(env, others, outgoing, d)
    ensures MemberProgram(env, d) && DealerProgram(env, d)
  {
    FreshStretch(others(d), outgoing(d));
    forall op
      ensures op in env.program(d) <==>
              match op
              case Send(kind, q) => if kind.Round2? then q in outgoing(d) else q in others(d)
              case Await(_, q) => q in others(d)
              case Verify => true
              case Derive => true
    {
      InFresh(others(d), outgoing(d), op);
    }
    hide FreshProgram;
  }

  lemma FreshChoreography<P>(env: Env<P>, others: Dev -> seq<Dev>, outgoing: Dev -> seq<Dev>)
    requires IsFresh(env, others, outgoing)
    ensures Choreography(env)
  {
    hide MemberProgram, DealerProgram, FreshDevice;
    forall d | d in env.honest
      ensures DealerProgram(env, d) && MemberProgram(env, d)
    {
      FreshPrograms(env, others, outgoing, d);
    }
  }

  // --- reshare ----------------------------------------------------------------------------------------

  /** Survivors deal, members of the new committee join; a device may do both at once. */
  ghost predicate IsReshare<P>(env: Env<P>, sources: Dev -> seq<Dev>, others: Dev -> seq<Dev>, recipients: Dev -> seq<Dev>) {
    && env.honest <= env.members + env.dealers && env.existing.Yes?
    && forall d :: d in env.honest ==> ReshareDevice(env, sources, others, recipients, d)
  }

  ghost predicate ReshareDevice<P>(env: Env<P>, sources: Dev -> seq<Dev>, others: Dev -> seq<Dev>, recipients: Dev -> seq<Dev>, d: Dev) {
    && Lists(sources(d), env.dealers - {d}) && Lists(others(d), env.members - {d}) && Lists(recipients(d), env.members - {d})
    && env.program(d) == (if d in env.members then JoinProgram(sources(d), others(d)) else [])
    && env.dealing(d) == (if d in env.dealers then DealProgram(recipients(d)) else [])
  }

  lemma ResharePrograms<P>(env: Env<P>, sources: Dev -> seq<Dev>, others: Dev -> seq<Dev>, recipients: Dev -> seq<Dev>, d: Dev)
    requires ReshareDevice(env, sources, others, recipients, d)
    ensures if d in env.members then MemberProgram(env, d) else env.program(d) == []
  {
    if d in env.members {
      JoinStretch(sources(d), others(d));
      forall op
        ensures op in env.program(d) <==>
                match op
                case Send(kind, q) => kind.Confirm? && q in others(d)
                case Await(kind, q) => if kind.Confirm? then q in others(d) else q in sources(d)
                case Verify => true
                case Derive => true
      {
        InJoin(sources(d), others(d), op);
      }
      hide JoinProgram;
    }
  }

  lemma ReshareDeals<P>(env: Env<P>, sources: Dev -> seq<Dev>, others: Dev -> seq<Dev>, recipients: Dev -> seq<Dev>, d: Dev)
    requires ReshareDevice(env, sources, others, recipients, d)
    ensures DealerProgram(env, d)
  {
    forall op
      ensures op in env.program(d) ==> !(op.Send? && !op.kind.Confirm?)
      ensures op in env.dealing(d) <==> d in env.dealers && op.Send? && !op.kind.Confirm? && op.peer in recipients(d)
    {
      InJoin(sources(d), others(d), op);
      InDeal(recipients(d), op);
    }
    DealDistinct(recipients(d));
    hide JoinProgram, DealProgram;
    forall i | 0 <= i < |env.dealing(d)|
      ensures env.dealing(d)[i].Send? && !env.dealing(d)[i].kind.Confirm?
    {
      assert env.dealing(d)[i] in env.dealing(d);
    }
  }

  lemma DealDistinct(recipients: seq<Dev>)
    requires Distinct(recipients)
    ensures Distinct(DealProgram(recipients))
  {
  }

  lemma ReshareChoreography<P>(env: Env<P>, sources: Dev -> seq<Dev>, others: Dev -> seq<Dev>, recipients: Dev -> seq<Dev>)
    requires IsReshare(env, sources, others, recipients)
    ensures Choreography(env)
  {
    hide MemberProgram, DealerProgram, ReshareDevice;
    forall d | d in env.honest
      ensures DealerProgram(env, d) && if d in env.members then MemberProgram(env, d) else env.program(d) == []
    {
      ResharePrograms(env, sources, others, recipients, d);
      ReshareDeals(env, sources, others, recipients, d);
    }
  }

  // --- the transcripts bind -------------------------------------------------------------------------------

  /** Packages filed in identifier order. */
  function Filed(order: seq<Dev>, id: Dev -> Block, v: map<Dev, Bytes>): (r: seq<Entry>)
    ensures |r| == |order|
    ensures forall i :: 0 <= i < |order| ==> r[i] == Entry(id(order[i]), if order[i] in v then v[order[i]] else [])
  {
    seq(|order|, i requires 0 <= i < |order| => Entry(id(order[i]), if order[i] in v then v[order[i]] else []))
  }

  /** A fresh ceremony's digest, over packages whose encodings say where they end. */
  ghost predicate FreshTranscript(env: Env<Bytes>, order: seq<Dev>, id: Dev -> Block, valid: Bytes -> bool) {
    && Lists(order, env.dealers) && PrefixFree(valid)
    && (forall v, k :: env.fed(v, k) == Fed(Filed(order, id, v), k))
    && (forall v :: env.proofsOk(v) ==> forall d :: d in v ==> valid(v[d]) && v[d] != [])
  }

  lemma FreshBinds(env: Env<Bytes>, order: seq<Dev>, id: Dev -> Block, valid: Bytes -> bool)
    requires FreshTranscript(env, order, id, valid)
    ensures TranscriptBinds(env)
  {
    forall v: map<Dev, Bytes>, w: map<Dev, Bytes>, k: Block, l: Block
      ensures BindsPair(env, v, w, k, l)
    {
      if v.Keys == env.dealers && w.Keys == env.dealers && env.proofsOk(v) && env.proofsOk(w) && env.fed(v, k) == env.fed(w, l) {
        FreshBindsPair(env, order, id, valid, v, w, k, l);
      }
    }
  }

  lemma FreshBindsPair(env: Env<Bytes>, order: seq<Dev>, id: Dev -> Block, valid: Bytes -> bool,
                       v: map<Dev, Bytes>, w: map<Dev, Bytes>, k: Block, l: Block)
    requires FreshTranscript(env, order, id, valid)
    requires v.Keys == env.dealers && w.Keys == env.dealers && env.proofsOk(v) && env.proofsOk(w) && env.fed(v, k) == env.fed(w, l)
    ensures v == w && k == l
  {
    var a, b := Filed(order, id, v), Filed(order, id, w);
    forall i | 0 <= i < |order|
      ensures valid(a[i].body) && a[i].body != [] && valid(b[i].body) && b[i].body != []
    {
      assert order[i] in order;
      assert order[i] in v && order[i] in w;
    }
    FreshTranscriptInjective(valid, a, b, k, l);
    forall d | d in env.dealers
      ensures v[d] == w[d]
    {
      assert d in order;
      var i :| 0 <= i < |order| && order[i] == d;
      assert a[i] == b[i];
    }
  }

  /** Commitments filed in identifier order. */
  function FiledPoints(order: seq<Dev>, id: Dev -> Block, v: map<Dev, seq<Block>>): (r: seq<Commitment>)
    ensures |r| == |order|
    ensures forall i :: 0 <= i < |order| ==> r[i] == Commitment(id(order[i]), if order[i] in v then v[order[i]] else [])
  {
    seq(|order|, i requires 0 <= i < |order| => Commitment(id(order[i]), if order[i] in v then v[order[i]] else []))
  }

  ghost predicate OneDegree(v: map<Dev, seq<Block>>, degree: nat) {
    forall d :: d in v ==> |v[d]| == degree
  }

  /** A reshare's digest; combining the commitments checked that they have one length. */
  ghost predicate ReshareTranscript(env: Env<seq<Block>>, order: seq<Dev>, id: Dev -> Block) {
    && Lists(order, env.dealers)
    && (forall v, k :: env.fed(v, k) == Fed(Entries(FiledPoints(order, id, v)), k))
    && (forall v :: env.proofsOk(v) ==> exists degree :: OneDegree(v, degree))
  }

  lemma ReshareBinds(env: Env<seq<Block>>, order: seq<Dev>, id: Dev -> Block)
    requires ReshareTranscript(env, order, id)
    ensures TranscriptBinds(env)
  {
    forall v: map<Dev, seq<Block>>, w: map<Dev, seq<Block>>, k: Block, l: Block
      ensures BindsPair(env, v, w, k, l)
    {
      if v.Keys == env.dealers && w.Keys == env.dealers && env.proofsOk(v) && env.proofsOk(w) && env.fed(v, k) == env.fed(w, l) {
        ReshareBindsPair(env, order, id, v, w, k, l);
      }
    }
  }

  lemma ReshareBindsPair(env: Env<seq<Block>>, order: seq<Dev>, id: Dev -> Block,
                         v: map<Dev, seq<Block>>, w: map<Dev, seq<Block>>, k: Block, l: Block)
    requires ReshareTranscript(env, order, id)
    requires v.Keys == env.dealers && w.Keys == env.dealers && env.proofsOk(v) && env.proofsOk(w) && env.fed(v, k) == env.fed(w, l)
    ensures v == w && k == l
  {
    var a, b := FiledPoints(order, id, v), FiledPoints(order, id, w);
    var m, n :| OneDegree(v, m) && OneDegree(w, n);
    forall i | 0 <= i < |order|
      ensures |a[i].points| == m && |b[i].points| == n
    {
      assert order[i] in order;
      assert order[i] in v && order[i] in w;
    }
    ReshareTranscriptInjective(a, b, k, l, m, n);
    forall d | d in env.dealers
      ensures v[d] == w[d]
    {
      assert d in order;
      var i :| 0 <= i < |order| && order[i] == d;
      assert a[i] == b[i];
    }
  }

  // --- what this says of each ceremony ---------------------------------------------------------------------

  /** If any honest device's fresh ceremony returns, all honest participants hold its packages and key. */
  lemma FreshAgreement(env: Env<Bytes>, others: Dev -> seq<Dev>, outgoing: Dev -> seq<Dev>, order: seq<Dev>, id: Dev -> Block,
                       valid: Bytes -> bool, run: seq<State<Bytes>>, i: nat, d: Dev, p: Dev)
    requires IsFresh(env, others, outgoing) && FreshTranscript(env, order, id, valid) && IsRun(env, run) && i < |run|
    requires d in env.honest && p in env.honest && Succeeded(env, run[i], d)
    ensures p in run[i].locals && run[i].locals[d].outcome.Yes? && run[i].locals[p].outcome == run[i].locals[d].outcome
    ensures run[i].locals[d].outcome.value.packages.Keys == env.members
    ensures var l := run[i].locals[p];
            l.shares.Keys == env.members - {p} && env.sharesOk(p, l.outcome.value.packages, l.shares)
    ensures forall q :: q in env.honest ==> run[i].locals[d].outcome.value.packages[q] == env.package(q)
  {
    hide Choreography, TranscriptBinds, IsRun, Succeeded, FreshTranscript, FreshDevice;
    FreshChoreography(env, others, outgoing);
    FreshBinds(env, order, id, valid);
    Agreement(env, run, i, d, p);
  }

  /** If any honest device's join returns, all honest new members hold its commitments, and the key is the old one. */
  lemma ReshareAgreement(env: Env<seq<Block>>, sources: Dev -> seq<Dev>, others: Dev -> seq<Dev>, recipients: Dev -> seq<Dev>,
                         order: seq<Dev>, id: Dev -> Block, run: seq<State<seq<Block>>>, i: nat, d: Dev, p: Dev)
    requires IsReshare(env, sources, others, recipients) && ReshareTranscript(env, order, id) && IsRun(env, run) && i < |run|
    requires d in env.honest && d in env.members && p in env.honest && p in env.members && Succeeded(env, run[i], d)
    ensures p in run[i].locals && run[i].locals[d].outcome.Yes? && run[i].locals[p].outcome == run[i].locals[d].outcome
    ensures run[i].locals[d].outcome.value.packages.Keys == env.dealers
    ensures run[i].locals[d].outcome.value.key == env.existing.value
    ensures var l := run[i].locals[p];
            l.shares.Keys == env.dealers - {p} && env.sharesOk(p, l.outcome.value.packages, l.shares)
    ensures forall q :: q in env.dealers && q in env.honest ==> run[i].locals[d].outcome.value.packages[q] == env.package(q)
  {
    hide Choreography, TranscriptBinds, IsRun, Succeeded, ReshareTranscript, ReshareDevice;
    ReshareChoreography(env, sources, others, recipients);
    ReshareBinds(env, order, id);
    Agreement(env, run, i, d, p);
  }

  lemma {:induction false} ListedCount(ds: seq<Dev>, all: set<Dev>)
    requires Lists(ds, all)
    ensures |ds| == |all|
    decreases |ds|
  {
    if ds == [] {
      assert all == {};
    } else {
      forall d
        ensures d in ds[1..] <==> d in all - {ds[0]}
      {
        if d in ds && d != ds[0] {
          var i :| 0 <= i < |ds| && ds[i] == d;
          assert ds[1..][i - 1] == d;
        }
      }
      assert ds[0] in all;
      ListedCount(ds[1..], all - {ds[0]});
    }
  }

  /** Three sends and three awaits for each peer, and the two local stages. */
  lemma FreshLength<P>(env: Env<P>, others: Dev -> seq<Dev>, outgoing: Dev -> seq<Dev>, d: Dev)
    requires IsFresh(env, others, outgoing) && d in env.members
    ensures |env.program(d)| == 6 * (|env.members| - 1) + 2 && env.dealing(d) == []
  {
    assert FreshDevice(env, others, outgoing, d);
    ListedCount(others(d), env.members - {d});
    ListedCount(outgoing(d), env.members - {d});
  }

  lemma {:induction false} FreshTotal<P>(env: Env<P>, others: Dev -> seq<Dev>, outgoing: Dev -> seq<Dev>, ds: seq<Dev>)
    requires IsFresh(env, others, outgoing) && forall d :: d in ds ==> d in env.members
    ensures Total(env, ds) == |ds| * (6 * (|env.members| - 1) + 2)
  {
    hide IsFresh;
    if ds != [] {
      FreshLength(env, others, outgoing, ds[0]);
      FreshTotal(env, others, outgoing, ds[1..]);
      Distribute(|ds| - 1, 6 * (|env.members| - 1) + 2);
    }
  }

  lemma Distribute(n: int, k: int)
    ensures k + n * k == (n + 1) * k
  {
  }

  /** Three sends and three awaits between every ordered pair of N devices. */
  function NetworkSteps(n: int): int {
    6 * n * (n - 1)
  }

  lemma StepCount(n: int)
    ensures n * (6 * (n - 1) + 2) == NetworkSteps(n) + 2 * n
  {
  }

  lemma FreshSteps<P>(env: Env<P>, others: Dev -> seq<Dev>, outgoing: Dev -> seq<Dev>, ds: seq<Dev>)
    requires IsFresh(env, others, outgoing) && Lists(ds, env.members)
    ensures Total(env, ds) == NetworkSteps(|env.members|) + 2 * |env.members|
  {
    FreshTotal(env, others, outgoing, ds);
    ListedCount(ds, env.members);
    StepCount(|env.members|);
  }

  /**
    An all-honest fresh ceremony of N devices, under any interleaving: it never
    deadlocks, it ends after exactly 6 N (N - 1) sends and awaits and each
    device's two local stages, and then all hold the same packages and key.
   */
  lemma FreshCompletes<P(!new)>(env: Env<P>, others: Dev -> seq<Dev>, outgoing: Dev -> seq<Dev>, run: seq<State<P>>, ds: seq<Dev>)
    requires IsFresh(env, others, outgoing) && env.honest == env.members && HonestData(env)
    requires IsQuietRun(env, run) && Lists(ds, env.members)
    ensures |run| - 1 <= NetworkSteps(|env.members|) + 2 * |env.members|
    ensures |run| - 1 < NetworkSteps(|env.members|) + 2 * |env.members| ==> CanContinue(env, run[|run| - 1])
    ensures |run| - 1 == NetworkSteps(|env.members|) + 2 * |env.members| ==>
            forall d :: d in env.members ==>
                        && Succeeded(env, run[|run| - 1], d)
                        && run[|run| - 1].locals[d].outcome == Yes(FullOutcome(env))
  {
    var last := run[|run| - 1];
    hide Choreography, HonestData, IsQuietRun, FreshDevice, FullOutcome, CanContinue, Succeeded, NetworkSteps, Total;
    FreshChoreography(env, others, outgoing);
    FreshSteps(env, others, outgoing, ds);
    assert env.members + env.dealers == env.members;
    EveryRunCompletes(env, run, ds);
    if |run| - 1 == Total(env, ds) {
      forall d | d in env.members
        ensures Succeeded(env, last, d) && last.locals[d].outcome == Yes(FullOutcome(env))
      {
        AllFinishAlike(env, run, ds, d);
      }
    }
  }

  /** An all-honest reshare likewise: no deadlock, and all new members end with the survivors' commitments and one key. */
  lemma ReshareCompletes<P(!new)>(env: Env<P>, sources: Dev -> seq<Dev>, others: Dev -> seq<Dev>, recipients: Dev -> seq<Dev>,
                                  run: seq<State<P>>, ds: seq<Dev>)
    requires IsReshare(env, sources, others, recipients) && AllHonest(env) && HonestData(env)
    requires IsQuietRun(env, run) && Lists(ds, env.honest)
    ensures |run| - 1 <= Total(env, ds)
    ensures |run| - 1 < Total(env, ds) ==> CanContinue(env, run[|run| - 1])
    ensures |run| - 1 == Total(env, ds) ==>
            forall d :: d in env.members ==>
                        && Succeeded(env, run[|run| - 1], d)
                        && run[|run| - 1].locals[d].outcome == Yes(FullOutcome(env))
  {
    var last := run[|run| - 1];
    hide Choreography, HonestData, IsQuietRun, ReshareDevice, FullOutcome, CanContinue, Succeeded, Total;
    ReshareChoreography(env, sources, others, recipients);
    EveryRunCompletes(env, run, ds);
    if |run| - 1 == Total(env, ds) {
      forall d | d in env.members
        ensures Succeeded(env, last, d) && last.locals[d].outcome == Yes(FullOutcome(env))
      {
        AllFinishAlike(env, run, ds, d);
      }
    }
  }
}
