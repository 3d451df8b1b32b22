// The ticket lock of dependencies/kernel-sync/src/ticket.rs.
//
// Two atomic counters. Each load, store, addition and compare-and-swap of the source is one event,
// and any number of agents interleave their events in any order. try_lock is a retry loop over a
// load of next_ticket, a load of next_serving and a weak compare-and-swap: three separate events.
module TicketMutex {

  type Agent = nat

  datatype Phase =
    | Waiting(ticket: nat)    // lock() has drawn this ticket
    | TryLoaded(ticket: nat)  // try_lock() has read next_ticket
    | TryChecked(ticket: nat) // ... and has seen next_serving equal to it
    | Holding(ticket: nat)
  {
    predicate HasTicket() { Waiting? || Holding? }
  }

  // `granted` is a history: the tickets of all guards handed out so far, in order.
  datatype State = State(nextTicket: nat, nextServing: nat, agents: map<Agent, Phase>, granted: seq<nat>)

  datatype Event =
    | Draw(a: Agent)                    // lock: fetch_add on next_ticket
    | Poll(a: Agent)                    // lock: one turn of the spin loop
    | TryLoad(a: Agent)
    | TryCheck(a: Agent)
    | TryCas(a: Agent, spurious: bool)  // a weak compare-and-swap may fail spuriously
    | Release(a: Agent)                 // drop of the guard

  predicate Enabled(s: State, e: Event) {
    match e
    case Draw(a) => a !in s.agents
    case Poll(a) => a in s.agents && s.agents[a].Waiting?
    case TryLoad(a) => a !in s.agents
    case TryCheck(a) => a in s.agents && s.agents[a].TryLoaded?
    case TryCas(a, _) => a in s.agents && s.agents[a].TryChecked?
    case Release(a) => a in s.agents && s.agents[a].Holding?
  }

  function Grant(s: State, a: Agent, ticket: nat): State {
    s.(agents := s.agents[a := Holding(ticket)], granted := s.granted + [ticket])
  }

  function Apply(s: State, e: Event): State
    requires Enabled(s, e)
  {
    match e
    case Draw(a) => s.(nextTicket := s.nextTicket + 1, agents := s.agents[a := Waiting(s.nextTicket)])
    case Poll(a) =>
      var ticket := s.agents[a].ticket;
      if s.nextServing == ticket then Grant(s, a, ticket) else s
    case TryLoad(a) => s.(agents := s.agents[a := TryLoaded(s.nextTicket)])
    case TryCheck(a) =>
      var ticket := s.agents[a].ticket;
      if s.nextServing == ticket then s.(agents := s.agents[a := TryChecked(ticket)])
      else s.(agents := s.agents - {a})  // try_lock returns None
    case TryCas(a, spurious) =>
      var ticket := s.agents[a].ticket;
      if s.nextTicket == ticket && !spurious then
        Grant(s.(nextTicket := ticket + 1), a, ticket)
      else
        s.(agents := s.agents[a := TryLoaded(s.nextTicket)])  // fetch_update retries with the value it saw
    case Release(a) =>
      s.(nextServing := s.agents[a].ticket + 1, agents := s.agents - {a})
  }

  predicate ValidRun(s: State, events: seq<Event>)
    decreases |events|
  {
    events == [] || (Enabled(s, events[0]) && ValidRun(Apply(s, events[0]), events[1..]))
  }

  function Run(s: State, events: seq<Event>): State
    requires ValidRun(s, events)
    decreases |events|
  {
    if events == [] then s else Run(Apply(s, events[0]), events[1..])
  }

  const INIT := State(0, 0, map[], [])

  // --- The invariant: a first-come first-served queue of agents ---

  // q lists the agents with a ticket, in ticket order; only its head may hold the guard. A ticket that
  // try_lock has seen being served has already come up, and the tickets granted so far are 0, 1, 2, ...
  ghost predicate Queued(s: State, q: seq<Agent>) {
    && s.nextTicket == s.nextServing + |q|
    && (forall i | 0 <= i < |q| :: q[i] in s.agents && s.agents[q[i]].HasTicket()
                                   && s.agents[q[i]].ticket == s.nextServing + i)
    && (forall a | a in s.agents && s.agents[a].HasTicket() ::
          s.nextServing <= s.agents[a].ticket < s.nextTicket && q[s.agents[a].ticket - s.nextServing] == a)
    && (forall a | a in s.agents && s.agents[a].Holding? :: s.agents[a].ticket == s.nextServing)
    && (forall a | a in s.agents && s.agents[a].TryChecked? :: s.agents[a].ticket <= s.nextServing)
    && s.granted == UpTo(s.nextServing + if Held(s, q) then 1 else 0)
  }

  ghost predicate Held(s: State, q: seq<Agent>) {
    q != [] && q[0] in s.agents && s.agents[q[0]].Holding?
  }

  function UpTo(n: nat): seq<nat> { seq(n, i => i) }

  ghost predicate Inv(s: State) { exists q :: Queued(s, q) }

  // What each event does to the queue.
  function QueueAfter(s: State, q: seq<Agent>, e: Event): seq<Agent>
    requires Enabled(s, e)
  {
    match e
    case Draw(a) => q + [a]
    case TryCas(a, spurious) => if s.nextTicket == s.agents[a].ticket && !spurious then q + [a] else q
    case Release(_) => if q != [] then q[1..] else q
    case _ => q
  }

  lemma StepRefinesQueue(s: State, q: seq<Agent>, e: Event)
    requires Queued(s, q) && Enabled(s, e)
    ensures Queued(Apply(s, e), QueueAfter(s, q, e))
  {
    match e {
      case Draw(a) => DrawJoins(s, q, a);
      case Poll(a) => PollKeeps(s, q, a);
      case TryLoad(a) => TryKeeps(s, q, a, TryLoaded(s.nextTicket));
      case TryCheck(a) => TryCheckKeeps(s, q, a);
      case TryCas(a, spurious) =>
        if s.nextTicket == s.agents[a].ticket && !spurious {
          CasJoinsEmpty(s, q, a);
        } else {
          TryKeeps(s, q, a, TryLoaded(s.nextTicket));
        }
      case Release(a) => ReleaseLeaves(s, q, a);
    }
  }

  lemma DrawJoins(s: State, q: seq<Agent>, a: Agent)
    requires Queued(s, q) && a !in s.agents
    ensures Queued(Apply(s, Draw(a)), q + [a])
  {
  }

  lemma PollKeeps(s: State, q: seq<Agent>, a: Agent)
    requires Queued(s, q) && Enabled(s, Poll(a))
    ensures Queued(Apply(s, Poll(a)), q)
  {
    assert UpTo(s.nextServing) + [s.nextServing] == UpTo(s.nextServing + 1);
  }

  // A try_lock that has not got a ticket is not in the queue.
  lemma TryKeeps(s: State, q: seq<Agent>, a: Agent, p: Phase)
    requires Queued(s, q) && (a in s.agents ==> !s.agents[a].HasTicket())
    requires p.TryLoaded? || (p.TryChecked? && p.ticket <= s.nextServing)
    ensures Queued(s.(agents := s.agents[a := p]), q)
  {
  }

  lemma TryCheckKeeps(s: State, q: seq<Agent>, a: Agent)
    requires Queued(s, q) && Enabled(s, TryCheck(a))
    ensures Queued(Apply(s, TryCheck(a)), q)
  {
    if s.nextServing == s.agents[a].ticket {
      TryKeeps(s, q, a, TryChecked(s.agents[a].ticket));
    }
  }

  // The swap succeeds only when its ticket is both the next one and already served: nobody is queued.
  lemma CasJoinsEmpty(s: State, q: seq<Agent>, a: Agent)
    requires Queued(s, q) && Enabled(s, TryCas(a, false)) && s.nextTicket == s.agents[a].ticket
    ensures q == [] && Queued(Apply(s, TryCas(a, false)), [a])
  {
    assert q == [];
    assert UpTo(s.nextServing) + [s.nextServing] == UpTo(s.nextServing + 1);
  }

  lemma ReleaseLeaves(s: State, q: seq<Agent>, a: Agent)
    requires Queued(s, q) && Enabled(s, Release(a))
    ensures q != [] && q[0] == a && Queued(Apply(s, Release(a)), q[1..])
  {
    assert q[0] == a;
  }

  lemma {:induction false} RunKeepsInv(s: State, events: seq<Event>)
    requires Inv(s) && ValidRun(s, events)
    ensures Inv(Run(s, events))
    decreases |events|
  {
    if events != [] {
      var q :| Queued(s, q);
      StepRefinesQueue(s, q, events[0]);
      RunKeepsInv(Apply(s, events[0]), events[1..]);
    }
  }

  // --- What holds in every interleaving, from a new lock ---

  predicate HasTicketNo(s: State, a: Agent, t: nat) {
    a in s.agents && s.agents[a].HasTicket() && s.agents[a].ticket == t
  }

  lemma InvFromInit(events: seq<Event>)
    requires ValidRun(INIT, events)
    ensures Inv(Run(INIT, events))
  {
    assert Queued(INIT, []);
    RunKeepsInv(INIT, events);
  }

  // The outstanding tickets are exactly those from nextServing up to nextTicket, each with one owner.
  lemma TicketsExactlyCover(events: seq<Event>, t: nat)
    requires ValidRun(INIT, events)
    ensures var s := Run(INIT, events);
            && ((exists a :: HasTicketNo(s, a, t)) <==> s.nextServing <= t < s.nextTicket)
            && (forall a, b :: HasTicketNo(s, a, t) && HasTicketNo(s, b, t) ==> a == b)
  {
    InvFromInit(events);
    var s := Run(INIT, events);
    var q :| Queued(s, q);
    if s.nextServing <= t < s.nextTicket {
      assert HasTicketNo(s, q[t - s.nextServing], t);
    }
  }

  // There is at most one guard; its ticket is the one being served, so everyone who drew earlier is
  // done and everyone waiting drew later; guards have been handed out in ticket order, none skipped.
  lemma MutualExclusionInOrder(events: seq<Event>)
    requires ValidRun(INIT, events)
    ensures var s := Run(INIT, events);
            && (forall a, b | a in s.agents && s.agents[a].Holding? && b in s.agents && s.agents[b].Holding? :: a == b)
            && (forall a | a in s.agents && s.agents[a].Holding? :: s.agents[a].ticket == s.nextServing)
            && (forall a, b | a in s.agents && s.agents[a].Holding? && b in s.agents && s.agents[b].HasTicket() ::
                  a == b || s.agents[a].ticket < s.agents[b].ticket)
            && var held := exists a :: a in s.agents && s.agents[a].Holding?;
               s.granted == UpTo(s.nextServing + if held then 1 else 0)
  {
    InvFromInit(events);
    var s := Run(INIT, events);
    var q :| Queued(s, q);
    assert Held(s, q) ==> q[0] in s.agents && s.agents[q[0]].Holding?;
    assert Held(s, q) <==> exists a :: a in s.agents && s.agents[a].Holding?;
  }

  // try_lock never overtakes: when its swap succeeds nobody holds or waits for the lock.
  lemma TryLockNeverOvertakes(events: seq<Event>, a: Agent)
    requires ValidRun(INIT, events) && Enabled(Run(INIT, events), TryCas(a, false))
    requires var s := Run(INIT, events); var t := Apply(s, TryCas(a, false)); t.agents[a].Holding?
    ensures var s := Run(INIT, events); forall b | b in s.agents :: !s.agents[b].HasTicket()
  {
    InvFromInit(events);
    var s := Run(INIT, events);
    var q :| Queued(s, q);
    CasJoinsEmpty(s, q, a);
  }

  // A try_lock that runs without interruption gets the guard iff the lock is idle.
  lemma TryLockSucceedsIffIdle(s: State, a: Agent)
    requires Inv(s) && a !in s.agents
    ensures var s1 := Apply(s, TryLoad(a)); var s2 := Apply(s1, TryCheck(a));
            if forall b | b in s.agents :: !s.agents[b].HasTicket() then
              Enabled(s2, TryCas(a, false)) && Apply(s2, TryCas(a, false)).agents[a].Holding?
            else
              s2 == s
  {
    var q :| Queued(s, q);
    if q == [] {
      assert s.nextServing == s.nextTicket;
    } else {
      assert q[0] in s.agents && s.agents[q[0]].HasTicket();
      assert s.agents[a := TryLoaded(s.nextTicket)] - {a} == s.agents;
    }
  }

  // The lock never gets stuck: if anyone has a ticket, then either some guard is held and can be
  // released, or the next poll of the eldest waiter gets it one.
  lemma EldestCanProceed(s: State, b: Agent)
    requires Inv(s) && b in s.agents && s.agents[b].HasTicket()
    ensures exists a :: Enabled(s, Release(a)) || (Enabled(s, Poll(a)) && Enabled(Apply(s, Poll(a)), Release(a)))
  {
    var q :| Queued(s, q);
    assert q[0] in s.agents && s.agents[q[0]].HasTicket();
    if s.agents[q[0]].Holding? {
      assert Enabled(s, Release(q[0]));
    } else {
      assert Enabled(s, Poll(q[0])) && Enabled(Apply(s, Poll(q[0])), Release(q[0]));
    }
  }

  // Bounded waiting: only a release moves nextServing, and by one, so whoever still has ticket t after
  // some run has seen at most t - nextServing guards released in front of it.
  lemma {:induction false} ServingCountsReleases(s: State, events: seq<Event>, a: Agent, t: nat)
    requires Inv(s) && ValidRun(s, events)
    ensures var s' := Run(s, events);
            && s'.nextServing == s.nextServing + Releases(events)
            && (HasTicketNo(s', a, t) ==> Releases(events) <= t - s.nextServing)
    decreases |events|
  {
    var q :| Queued(s, q);
    if events != [] {
      StepRefinesQueue(s, q, events[0]);
      ServingCountsReleases(Apply(s, events[0]), events[1..], a, t);
    }
  }

  function Releases(events: seq<Event>): nat {
    if events == [] then 0 else (if events[0].Release? then 1 else 0) + Releases(events[1..])
  }
}
