/**
  The per-device mailbox a ceremony awaits on: a buffer, the wakers of parked
  waiters and a failure, updated under a lock by `deliver`, `fail` and `poll`.
  Proved: exactly when a parked waiter is woken, and that no delivery is returned
  twice.
 */
module Mailbox {
  import opened Common

  type Dev = nat
  type Waker = nat
  type Reason = string

  datatype Poll<+T> = Ready(value: T) | Aborted(reason: Reason) | Pending

  /** What the mailbox holds. */
  datatype Mail<T> = Mail(ready: map<Dev, T>, wakers: map<Dev, Waker>, failure: Opt<Reason>)

  /** A registered waker has nothing to wait for: no value for its peer, no failure. */
  predicate Parkable<T>(m: Mail<T>) {
    forall p :: p in m.wakers ==> p !in m.ready && m.failure.No?
  }

  // --- the operations on values --------------------------------------------------------------

  function Delivered<T>(m: Mail<T>, peer: Dev, value: T): Mail<T> {
    Mail(m.ready[peer := value], m.wakers - {peer}, m.failure)
  }

  function WokenByDelivery<T>(m: Mail<T>, peer: Dev): set<Waker> {
    if peer in m.wakers then {m.wakers[peer]} else {}
  }

  function Failed<T>(m: Mail<T>, reason: Reason): Mail<T> {
    Mail(m.ready, map[], Yes(reason))
  }

  function Polled<T>(m: Mail<T>, peer: Dev, waker: Waker): (Mail<T>, Poll<T>) {
    if peer in m.ready then (Mail(m.ready - {peer}, m.wakers, m.failure), Ready(m.ready[peer]))
    else if m.failure.Yes? then (m, Aborted(m.failure.value))
    else (Mail(m.ready, m.wakers[peer := waker], m.failure), Pending)
  }

  /** Every operation keeps registered wakers waiting for something. */
  lemma ParkableKept<T>(m: Mail<T>, peer: Dev, value: T, reason: Reason, waker: Waker)
    requires Parkable(m)
    ensures Parkable(Delivered(m, peer, value)) && Parkable(Failed(m, reason)) && Parkable(Polled(m, peer, waker).0)
  {
  }

  // --- the class -----------------------------------------------------------------------------------

  class PerDeviceCollector<T> {
    var ready: map<Dev, T>
    var wakers: map<Dev, Waker>
    var failure: Opt<Reason>

    ghost function Contents(): Mail<T>
      reads this
    {
      Mail(ready, wakers, failure)
    }

    ghost predicate Valid()
      reads this
    {
      Parkable(Contents())
    }

    constructor ()
      ensures Valid() && Contents() == Mail(map[], map[], No)
    {
      ready, wakers, failure := map[], map[], No;
    }

    /** Buffers the value and wakes whoever is parked for this peer. */
    method Deliver(peer: Dev, value: T) returns (woken: set<Waker>)
      requires Valid()
      modifies this
      ensures Valid() && Contents() == Delivered(old(Contents()), peer, value)
      ensures woken == WokenByDelivery(old(Contents()), peer)
    {
      ready := ready[peer := value];
      woken := {};
      if peer in wakers {
        woken := {wakers[peer]};
        wakers := wakers - {peer};
      }
      assert wakers == old(wakers) - {peer};
    }

    /** Aborts every pending and future wait, waking all that are parked. */
    method Fail(reason: Reason) returns (woken: set<Waker>)
      requires Valid()
      modifies this
      ensures Valid() && Contents() == Failed(old(Contents()), reason)
      ensures woken == old(wakers).Values
    {
      failure := Yes(reason);
      woken := {};
      var all := wakers;
      var left := all.Keys;
      while left != {}
        invariant left <= all.Keys && failure == Yes(reason) && ready == old(ready) && all == old(wakers)
        invariant wakers == map p | p in left :: all[p]
        invariant woken == set p | p in all && p !in left :: all[p]
        decreases |left|
      {
        var p :| p in left;
        woken := woken + {all[p]};
        left := left - {p};
        wakers := wakers - {p};
      }
      assert woken == all.Values;
    }

    /** A value first, else the failure, else park. */
    method PollFrom(peer: Dev, waker: Waker) returns (r: Poll<T>)
      requires Valid()
      modifies this
      ensures Valid() && (Contents(), r) == Polled(old(Contents()), peer, waker)
    {
      if peer in ready {
        r := Ready(ready[peer]);
        ready := ready - {peer};
        return;
      }
      if failure.Yes? {
        return Aborted(failure.value);
      }
      wakers := wakers[peer := waker];
      return Pending;
    }
  }

  // --- runs --------------------------------------------------------------------------------------------

  /** A task, known by its waker, asleep until something comes from a peer. */
  datatype Wait = Wait(waker: Waker, peer: Dev)

  /** Deliveries are numbered; `returned` lists the numbers polls gave out. */
  datatype System = System(mail: Mail<nat>, parked: set<Wait>, delivered: nat, returned: seq<nat>)

  datatype Event = Deliver(peer: Dev) | Fail(reason: Reason) | PollBy(peer: Dev, waker: Waker)

  /** A woken task runs again, whatever it was waiting for. */
  function Wake(parked: set<Wait>, woken: set<Waker>): set<Wait> {
    set t | t in parked && t.waker !in woken
  }

  function Step(s: System, e: Event): System {
    match e
    case Deliver(peer) =>
      System(Delivered(s.mail, peer, s.delivered), Wake(s.parked, WokenByDelivery(s.mail, peer)), s.delivered + 1, s.returned)
    case Fail(reason) =>
      System(Failed(s.mail, reason), Wake(s.parked, s.mail.wakers.Values), s.delivered, s.returned)
    case PollBy(peer, waker) =>
      var (mail, r) := Polled(s.mail, peer, waker);
      var t := Wait(waker, peer);
      match r
      case Ready(n) => System(mail, s.parked - {t}, s.delivered, s.returned + [n])
      case Aborted(_) => System(mail, s.parked - {t}, s.delivered, s.returned)
      case Pending => System(mail, s.parked + {t}, s.delivered, s.returned)
  }

  function After(events: seq<Event>): System {
    if events == [] then System(Mail(map[], map[], No), {}, 0, [])
    else Step(After(events[..|events| - 1]), events[|events| - 1])
  }

  /** A registered waker has something to wait for; buffered numbers are fresh; returned ones are distinct. */
  ghost predicate Inv(s: System) {
    Parkable(s.mail) && NumbersFresh(s)
  }

  ghost predicate NumbersFresh(s: System) {
    && (forall p :: p in s.mail.ready ==> s.mail.ready[p] < s.delivered && s.mail.ready[p] !in s.returned)
    && (forall p, q :: p in s.mail.ready && q in s.mail.ready && p != q ==> s.mail.ready[p] != s.mail.ready[q])
    && (forall i :: 0 <= i < |s.returned| ==> s.returned[i] < s.delivered)
    && (forall i, j :: 0 <= i < j < |s.returned| ==> s.returned[i] != s.returned[j])
  }

  lemma DeliverKeeps(s: System, peer: Dev)
    requires Inv(s)
    ensures Inv(Step(s, Deliver(peer)))
  {
    ParkableKept(s.mail, peer, s.delivered, "", 0);
    hide Parkable;
  }

  lemma FailKeeps(s: System, reason: Reason)
    requires Inv(s)
    ensures Inv(Step(s, Fail(reason)))
  {
    ParkableKept(s.mail, 0, 0, reason, 0);
    hide Parkable;
  }

  lemma PollKeeps(s: System, peer: Dev, waker: Waker)
    requires Inv(s)
    ensures Inv(Step(s, PollBy(peer, waker)))
  {
    ParkableKept(s.mail, peer, 0, "", waker);
    hide Parkable;
  }

  lemma StepKeeps(s: System, e: Event)
    requires Inv(s)
    ensures Inv(Step(s, e))
  {
    hide Inv, Step;
    match e
    case Deliver(peer) => DeliverKeeps(s, peer);
    case Fail(reason) => FailKeeps(s, reason);
    case PollBy(peer, waker) => PollKeeps(s, peer, waker);
  }

  lemma {:induction false} RunKeeps(events: seq<Event>)
    ensures Inv(After(events))
  {
    if events != [] {
      RunKeeps(events[..|events| - 1]);
      StepKeeps(After(events[..|events| - 1]), events[|events| - 1]);
    }
  }

  // --- who is woken ----------------------------------------------------------------------------------------

  predicate PollParks(s: System, e: Event, p: Dev) {
    e.PollBy? && e.peer == p && Polled(s.mail, p, e.waker).1.Pending?
  }

  /** The j-th event is a poll for the peer that parks. */
  predicate Parks(events: seq<Event>, j: nat, p: Dev) {
    j < |events| && PollParks(After(events[..j]), events[j], p)
  }

  /** A poll for the peer parked after position `k`. */
  predicate Overtaken(events: seq<Event>, k: nat, p: Dev) {
    exists j :: k < j < |events| && Parks(events, j, p)
  }

  /** The last time this waiter parked. */
  predicate ParkedAt(events: seq<Event>, k: nat, t: Wait) {
    && k < |events| && Parks(events, k, t.peer) && events[k] == PollBy(t.peer, t.waker)
    && forall j :: k < j < |events| && Parks(events, j, t.peer) ==> events[j] != PollBy(t.peer, t.waker)
  }

  predicate Registered(m: Mail<nat>, t: Wait) {
    t.peer in m.wakers && m.wakers[t.peer] == t.waker
  }

  /** A waiter still parked was registered by this event, or stays as registered as it was unless another parks. */
  lemma WaitStep(s: System, e: Event, t: Wait)
    requires t in Step(s, e).parked
    ensures var s' := Step(s, e);
            if PollParks(s, e, t.peer) && e == PollBy(t.peer, t.waker) then Registered(s'.mail, t)
            else t in s.parked && (Registered(s'.mail, t) <==> Registered(s.mail, t) && !PollParks(s, e, t.peer))
  {
    if Registered(s.mail, t) { assert s.mail.wakers[t.peer] in s.mail.wakers.Values; }
  }

  lemma AfterLast(events: seq<Event>)
    requires events != []
    ensures After(events) == Step(After(events[..|events| - 1]), events[|events| - 1])
  {
  }

  lemma ParksPrefix(events: seq<Event>, n: nat, p: Dev)
    requires n <= |events|
    ensures forall j :: 0 <= j < n ==> (Parks(events[..n], j, p) <==> Parks(events, j, p))
  {
    hide After, PollParks;
    forall j | 0 <= j < n
      ensures Parks(events[..n], j, p) <==> Parks(events, j, p)
    {
      assert events[..n][..j] == events[..j];
    }
  }

  /** One more event, other than this waiter parking again. */
  lemma ParkedStays(events: seq<Event>, k: nat, t: Wait)
    requires events != [] && ParkedAt(events[..|events| - 1], k, t)
    requires Parks(events, |events| - 1, t.peer) ==> events[|events| - 1] != PollBy(t.peer, t.waker)
    ensures ParkedAt(events, k, t)
  {
    hide Parks;
    ParksPrefix(events, |events| - 1, t.peer);
  }

  lemma OvertakenStep(events: seq<Event>, k: nat, p: Dev)
    requires k < |events| - 1
    ensures Overtaken(events, k, p) <==> Overtaken(events[..|events| - 1], k, p) || Parks(events, |events| - 1, p)
  {
    hide Parks;
    ParksPrefix(events, |events| - 1, p);
  }

  /** A parked waiter's waker is registered exactly when no poll for its peer has parked since. */
  lemma {:induction false} RegisteredIff(events: seq<Event>, t: Wait) returns (k: nat)
    requires t in After(events).parked
    ensures ParkedAt(events, k, t)
    ensures Registered(After(events).mail, t) <==> !Overtaken(events, k, t.peer)
    decreases |events|
  {
    if events == [] {
      assert false;
    } else {
      hide After, Step, PollParks, Registered;
      var n := |events| - 1;
      var front := events[..n];
      AfterLast(events);
      WaitStep(After(front), events[n], t);
      if Parks(events, n, t.peer) && events[n] == PollBy(t.peer, t.waker) {
        k := n;
      } else {
        k := RegisteredIff(front, t);
        hide Overtaken;
        ParkedStays(events, k, t);
        OvertakenStep(events, k, t.peer);
      }
    }
  }

  /**
    For every waiter parked after any run: the next delivery from its peer wakes
    it exactly when no other poll for that peer has parked since it did.  Then
    nothing is buffered for it and nothing has failed, so it has missed nothing,
    and the next failure wakes it too.
   */
  lemma NoLostWakeup(events: seq<Event>, t: Wait, reason: Reason) returns (k: nat)
    requires t in After(events).parked
    ensures ParkedAt(events, k, t)
    ensures var s := After(events);
            && (t !in Step(s, Deliver(t.peer)).parked <==> !Overtaken(events, k, t.peer))
            && (!Overtaken(events, k, t.peer) ==>
                  t.peer !in s.mail.ready && s.mail.failure.No? && t !in Step(s, Fail(reason)).parked)
  {
    k := RegisteredIff(events, t);
    RunKeeps(events);
    var s := After(events);
    hide After, Overtaken, ParkedAt;
    if Registered(s.mail, t) { assert s.mail.wakers[t.peer] in s.mail.wakers.Values; }
  }

  /** Two tasks waiting for one peer: the first sleeps through the delivery. */
  lemma SleepsThrough(p: Dev, v: Waker, w: Waker)
    requires v != w
    ensures var s := After([PollBy(p, v), PollBy(p, w), Deliver(p)]);
            s.parked == {Wait(v, p)} && p in s.mail.ready
  {
    var a, b, c := PollBy(p, v), PollBy(p, w), Deliver(p);
    assert [a, b, c][..2] == [a, b] && [a, b][..1] == [a] && [a][..0] == [];
    AfterLast([a, b, c]);
    AfterLast([a, b]);
    AfterLast([a]);
    var s0 := System(Mail(map[], map[], No), {}, 0, []);
    assert After([]) == s0;
    hide After;
    var s1 := System(Mail(map[], map[p := v], No), {Wait(v, p)}, 0, []);
    assert Step(s0, a) == s1;
    var s2 := System(Mail(map[], map[p := w], No), {Wait(v, p), Wait(w, p)}, 0, []);
    assert Step(s1, b) == s2;
  }

  /** No delivery is returned twice, in any run. */
  lemma ReturnedOnce(events: seq<Event>, i: nat, j: nat)
    requires i < j < |After(events).returned|
    ensures After(events).returned[i] != After(events).returned[j]
  {
    RunKeeps(events);
  }

  lemma AfterOne(events: seq<Event>, e: Event)
    ensures After(events + [e]) == Step(After(events), e)
  {
    var all := events + [e];
    assert all[..|all| - 1] == events;
  }

  /** The newest delivery is what the next poll for its peer returns, whatever was buffered before. */
  lemma NewestReturned(events: seq<Event>, p: Dev, waker: Waker)
    ensures Polled(After(events + [Deliver(p)]).mail, p, waker).1 == Ready(After(events).delivered)
    ensures After(events + [Deliver(p), PollBy(p, waker)]).returned == After(events).returned + [After(events).delivered]
  {
    AfterOne(events, Deliver(p));
    AfterOne(events + [Deliver(p)], PollBy(p, waker));
    assert events + [Deliver(p)] + [PollBy(p, waker)] == events + [Deliver(p), PollBy(p, waker)];
  }

  /** After a failure a poll with nothing buffered reports the reason, the newest one. */
  lemma FailureReported(events: seq<Event>, reason: Reason, p: Dev, waker: Waker)
    requires p !in After(events).mail.ready
    ensures Polled(After(events + [Fail(reason)]).mail, p, waker).1 == Aborted(reason)
  {
    AfterOne(events, Fail(reason));
  }

  /** Neither a delivery to the peer nor a poll for it. */
  predicate Elsewhere(e: Event, p: Dev) {
    e.Fail? || e.peer != p
  }

  /** A value buffered for a peer is what its next poll returns, whatever happened elsewhere, failures included. */
  lemma {:induction false} BufferedStays(events: seq<Event>, more: seq<Event>, p: Dev, waker: Waker)
    requires p in After(events).mail.ready && forall i :: 0 <= i < |more| ==> Elsewhere(more[i], p)
    ensures p in After(events + more).mail.ready
    ensures Polled(After(events + more).mail, p, waker).1 == Ready(After(events).mail.ready[p])
    decreases |more|
  {
    if more == [] {
      assert events + more == events;
    } else {
      var front := more[..|more| - 1];
      BufferedStays(events, front, p, waker);
      var all := events + more;
      assert all[..|all| - 1] == events + front && all[|all| - 1] == more[|more| - 1];
    }
  }
}
