/**
 The event bus as a protocol: `publish` split at its awaits, consumers, subscriptions and
 cancellations, with any number of publishes interleaved.
 */
module BusProtocol {
  import opened SharedTypes

  datatype Event = Event(eventType: string, payload: string)

  const WILDCARD := "*"

  // ----- one bounded queue -----

  /** `Queue.full()`; a queue without a positive size is unbounded. */
  predicate Full(q: seq<Event>, capacity: int) {
    0 < capacity <= |q|
  }

  /** What fanout does to one queue: drop the oldest when full, then put unless still full.
      Returns the queue, the events it dropped, and whether the event got in. */
  datatype Offered = Offered(queue: seq<Event>, dropped: seq<Event>, accepted: bool)

  function Offer(q: seq<Event>, capacity: int, e: Event): Offered {
    var dropped := if Full(q, capacity) then [q[0]] else [];
    var rest := if Full(q, capacity) then q[1..] else q;
    if Full(rest, capacity) then Offered(rest, dropped, false) else Offered(rest + [e], dropped, true)
  }

  /** On a queue within its capacity the second drop branch is unreachable. */
  lemma OfferAccepts(q: seq<Event>, capacity: int, e: Event)
    requires capacity > 0 ==> |q| <= capacity
    ensures var o := Offer(q, capacity, e);
      && o.accepted && o.dropped + o.queue == q + [e]
      && (capacity > 0 ==> |o.queue| <= capacity)
      && |o.dropped| == (if Full(q, capacity) then 1 else 0)
  {
  }

  // ----- state -----

  /** How an event left a queue. */
  datatype Exit = Exit(event: Event, consumed: bool)

  /** A subscription. `since` and `until` say which fanouts it could see; `matched` and
      `exits` record what was offered to it and what left its queue. */
  datatype Sub = Sub(
    eventType: string,
    callback: nat,
    capacity: int,
    queue: seq<Event>,
    handling: Option<Event>,
    live: bool,
    cancelled: bool,
    stopped: bool,
    since: nat,
    until: nat,
    matched: seq<Event>,
    exits: seq<Exit>)

  /** Where a call of `publish` is. */
  datatype Phase =
    | InBefore(event: Event)
    | InPersist(event: Event)
    | Unpersisted(event: Event)
    | Logged(event: Event)
    | PersistFailed(event: Event)
    | InAfter
    | Ended

  /** How a publish got past persistence: fanned out, or cancelled after being logged. */
  datatype Outcome = FannedOut(event: Event, logged: bool) | Abandoned(event: Event)

  /** The log stands for the persistence; `failed` and `trail`, like `callbackErrors` and
      `interrupted` (callbacks that raised, and those cut short by a cancellation), record
      what happened for the sake of the laws. */
  datatype Bus = Bus(
    persistence: bool,
    initialized: bool,
    publishes: seq<Phase>,
    subs: seq<Sub>,
    log: seq<Event>,
    failed: seq<Event>,
    trail: seq<Outcome>,
    eventsPublished: nat,
    eventsDelivered: nat,
    eventsDropped: nat,
    persistenceErrors: nat,
    callbackErrors: nat,
    interrupted: nat)

  function Start(persistence: bool): Bus {
    Bus(persistence, false, [], [], [], [], [], 0, 0, 0, 0, 0, 0)
  }

  predicate Matches(s: Sub, e: Event) {
    s.live && (s.eventType == WILDCARD || s.eventType == e.eventType)
  }

  function FanToOne(s: Sub, e: Event, now: nat): Sub {
    if !s.live then s
    else if !Matches(s, e) then s.(until := now)
    else
      var o := Offer(s.queue, s.capacity, e);
      s.(queue := o.queue, until := now, matched := s.matched + [e],
         exits := s.exits + Dropping(o.dropped) + (if o.accepted then [] else [Exit(e, false)]))
  }

  function Dropping(events: seq<Event>): seq<Exit> {
    seq(|events|, i requires 0 <= i < |events| => Exit(events[i], false))
  }

  function FanToAll(subs: seq<Sub>, e: Event, now: nat): (r: seq<Sub>)
    ensures |r| == |subs|
  {
    seq(|subs|, i requires 0 <= i < |subs| => FanToOne(subs[i], e, now))
  }

  /** Drops counted by one fanout. */
  function Drops(subs: seq<Sub>, e: Event): nat {
    if subs == [] then 0
    else
      var s := subs[|subs| - 1];
      var o := Offer(s.queue, s.capacity, e);
      Drops(subs[..|subs| - 1], e)
      + (if Matches(s, e) then |o.dropped| + (if o.accepted then 0 else 1) else 0)
  }

  // ----- steps -----

  datatype Step =
    | Initialize
    | Close
    | Begin(event: Event)
    | Middleware(p: nat, processed: Option<Event>)
    | PersistOk(p: nat)
    | PersistFail(p: nat)
    | Fanout(p: nat)
    | Finish(p: nat)
    | CancelPublish(p: nat)
    | Subscribe(eventType: string, callback: nat, capacity: int)
    | Unsubscribe(i: nat)
    | CancelConsumer(i: nat)
    | Get(i: nat)
    | CallbackDone(i: nat, ok: bool)
    | Stop(i: nat)

  /** The live subscription that `unsubscribe` removes is the first of its type with the
      given callback. */
  predicate IsFirst(subs: seq<Sub>, i: nat)
    requires i < |subs|
  {
    subs[i].live &&
    forall j :: 0 <= j < i ==>
      !(subs[j].live && subs[j].eventType == subs[i].eventType && subs[j].callback == subs[i].callback)
  }

  predicate Enabled(b: Bus, step: Step) {
    match step
    case Initialize => true
    case Close => true
    case Begin(e) => b.initialized
    case Middleware(p, r) => p < |b.publishes| && b.publishes[p].InBefore?
    case PersistOk(p) => p < |b.publishes| && b.publishes[p].InPersist?
    case PersistFail(p) => p < |b.publishes| && b.publishes[p].InPersist?
    case Fanout(p) =>
      p < |b.publishes| && (b.publishes[p].Unpersisted? || b.publishes[p].Logged? || b.publishes[p].PersistFailed?)
    case Finish(p) => p < |b.publishes| && b.publishes[p].InAfter?
    case CancelPublish(p) =>
      p < |b.publishes| &&
      (b.publishes[p].InBefore? || b.publishes[p].InPersist? || b.publishes[p].Logged? || b.publishes[p].InAfter?)
    case Subscribe(t, c, n) => true
    case Unsubscribe(i) => i < |b.subs| && IsFirst(b.subs, i)
    case CancelConsumer(i) => i < |b.subs|
    case Get(i) => i < |b.subs| && !b.subs[i].stopped && b.subs[i].handling.None? && b.subs[i].queue != []
    case CallbackDone(i, ok) => i < |b.subs| && b.subs[i].handling.Some?
    case Stop(i) => i < |b.subs| && b.subs[i].cancelled
  }

  /** A dropped event ends the publish; otherwise persistence comes next, if there is any. */
  function AfterMiddleware(b: Bus, processed: Option<Event>): Phase {
    match processed
    case None => Ended
    case Some(e) => if b.persistence then InPersist(e) else Unpersisted(e)
  }

  function Took(b: Bus, step: Step): Bus
    requires Enabled(b, step)
  {
    match step
    case Initialize => b.(initialized := true)
    case Close => b.(initialized := false)
    case Begin(e) => b.(publishes := b.publishes + [InBefore(e)])
    case Middleware(p, processed) =>
      b.(publishes := b.publishes[p := AfterMiddleware(b, processed)])
    case PersistOk(p) =>
      var e := b.publishes[p].event;
      b.(publishes := b.publishes[p := Logged(e)], log := b.log + [e])
    case PersistFail(p) =>
      var e := b.publishes[p].event;
      b.(publishes := b.publishes[p := PersistFailed(e)], failed := b.failed + [e],
         persistenceErrors := b.persistenceErrors + 1)
    case Fanout(p) =>
      var e := b.publishes[p].event;
      b.(publishes := b.publishes[p := InAfter],
         subs := FanToAll(b.subs, e, |b.trail| + 1),
         trail := b.trail + [FannedOut(e, b.publishes[p].Logged?)],
         eventsDropped := b.eventsDropped + Drops(b.subs, e),
         eventsPublished := b.eventsPublished + 1)
    case Finish(p) => b.(publishes := b.publishes[p := Ended])
    case CancelPublish(p) =>
      if b.publishes[p].Logged? then
        b.(publishes := b.publishes[p := Ended],
           subs := PassAll(b.subs, |b.trail| + 1),
           trail := b.trail + [Abandoned(b.publishes[p].event)])
      else b.(publishes := b.publishes[p := Ended])
    case Subscribe(t, c, n) =>
      b.(subs := b.subs + [Sub(t, c, n, [], None, true, false, false, |b.trail|, |b.trail|, [], [])])
    case Unsubscribe(i) => b.(subs := b.subs[i := b.subs[i].(live := false, cancelled := true)])
    case CancelConsumer(i) => b.(subs := b.subs[i := b.subs[i].(cancelled := true)])
    case Get(i) =>
      var s := b.subs[i];
      b.(subs := b.subs[i := s.(queue := s.queue[1..], handling := Some(s.queue[0]),
                                exits := s.exits + [Exit(s.queue[0], true)])])
    case CallbackDone(i, ok) =>
      b.(subs := b.subs[i := b.subs[i].(handling := None)],
         eventsDelivered := b.eventsDelivered + (if ok then 1 else 0),
         callbackErrors := b.callbackErrors + (if ok then 0 else 1))
    case Stop(i) =>
      b.(subs := b.subs[i := b.subs[i].(stopped := true, handling := None)],
         interrupted := b.interrupted + (if b.subs[i].handling.Some? then 1 else 0))
  }

  /** Time passes without a fanout for the live subscriptions. */
  function PassAll(subs: seq<Sub>, now: nat): (r: seq<Sub>)
    ensures |r| == |subs|
  {
    seq(|subs|, i requires 0 <= i < |subs| => if subs[i].live then subs[i].(until := now) else subs[i])
  }

  /** A step that is not enabled does nothing. */
  function Next(b: Bus, step: Step): Bus {
    if Enabled(b, step) then Took(b, step) else b
  }

  function Run(b: Bus, steps: seq<Step>): Bus {
    if steps == [] then b else Next(Run(b, steps[..|steps| - 1]), steps[|steps| - 1])
  }

  // ----- persistence before fanout -----

  /** Events that were persisted, or failed to be, and have not been fanned out yet. */
  function PendingOf(phase: Phase): multiset<Event> {
    if phase.Logged? || phase.PersistFailed? then multiset{phase.event} else multiset{}
  }

  function Pending(publishes: seq<Phase>): multiset<Event> {
    if publishes == [] then multiset{}
    else Pending(publishes[..|publishes| - 1]) + PendingOf(publishes[|publishes| - 1])
  }

  lemma SameAddend(x': multiset<Event>, before: multiset<Event>, x: multiset<Event>, after: multiset<Event>,
                   m: multiset<Event>)
    requires x' + before == x + after
    ensures (x' + m) + before == (x + m) + after
  {
    forall e ensures ((x' + m) + before)[e] == ((x + m) + after)[e] {
      assert (x' + before)[e] == (x + after)[e];
    }
  }

  lemma Cancel(x: multiset<Event>, y: multiset<Event>, m: multiset<Event>)
    requires x + m == y + m
    ensures x == y
  {
    forall e ensures x[e] == y[e] {
      assert (x + m)[e] == (y + m)[e];
    }
  }

  lemma {:induction false} PendingUpdate(publishes: seq<Phase>, p: nat, phase: Phase)
    requires p < |publishes|
    ensures Pending(publishes[p := phase]) + PendingOf(publishes[p]) == Pending(publishes) + PendingOf(phase)
  {
    var n := |publishes| - 1;
    if p < n {
      PendingUpdate(publishes[..n], p, phase);
      assert publishes[p := phase][..n] == publishes[..n][p := phase];
      SameAddend(Pending(publishes[..n][p := phase]), PendingOf(publishes[p]), Pending(publishes[..n]),
                 PendingOf(phase), PendingOf(publishes[n]));
    } else {
      assert publishes[p := phase][..n] == publishes[..n];
    }
  }

  /** A publish that is past persistence, or not there yet, before and after. */
  lemma PendingSame(publishes: seq<Phase>, p: nat, phase: Phase)
    requires p < |publishes| && PendingOf(publishes[p]) == PendingOf(phase)
    ensures Pending(publishes[p := phase]) == Pending(publishes)
  {
    PendingUpdate(publishes, p, phase);
    Cancel(Pending(publishes[p := phase]), Pending(publishes), PendingOf(phase));
  }

  lemma PendingGains(publishes: seq<Phase>, p: nat, phase: Phase)
    requires p < |publishes| && PendingOf(publishes[p]) == multiset{}
    ensures Pending(publishes[p := phase]) == Pending(publishes) + PendingOf(phase)
  {
    PendingUpdate(publishes, p, phase);
  }

  lemma PendingLoses(publishes: seq<Phase>, p: nat, phase: Phase)
    requires p < |publishes| && PendingOf(phase) == multiset{}
    ensures Pending(publishes[p := phase]) + PendingOf(publishes[p]) == Pending(publishes)
  {
    PendingUpdate(publishes, p, phase);
  }

  lemma PendingAppend(publishes: seq<Phase>, phase: Phase)
    requires PendingOf(phase) == multiset{}
    ensures Pending(publishes + [phase]) == Pending(publishes)
  {
    assert (publishes + [phase])[..|publishes|] == publishes;
  }

  function EventsOf(trail: seq<Outcome>): seq<Event> {
    seq(|trail|, i requires 0 <= i < |trail| => trail[i].event)
  }

  function FanoutCount(trail: seq<Outcome>): nat {
    if trail == [] then 0
    else FanoutCount(trail[..|trail| - 1]) + (if trail[|trail| - 1].FannedOut? then 1 else 0)
  }

  /** Each event occurs as often among `ended` and `pending` as in the two records. */
  ghost predicate Balanced(ended: seq<Event>, pending: multiset<Event>, log: seq<Event>, failed: seq<Event>) {
    forall e :: multiset(ended)[e] + pending[e] == multiset(log)[e] + multiset(failed)[e]
  }

  /** With persistence on: past the persistence step, nothing appears and nothing vanishes. */
  ghost predicate Conserved(b: Bus) {
    && Balanced(EventsOf(b.trail), Pending(b.publishes), b.log, b.failed)
    && b.persistenceErrors == |b.failed|
    && b.eventsPublished == FanoutCount(b.trail)
  }

  /** Every event is where its phase or its outcome says. */
  ghost predicate Traced(b: Bus) {
    && (forall p :: 0 <= p < |b.publishes| ==> PhaseTraced(b, b.publishes[p]))
    && (forall k :: 0 <= k < |b.trail| ==> OutcomeTraced(b, b.trail[k]))
  }

  ghost predicate PhaseTraced(b: Bus, phase: Phase) {
    match phase
    case Unpersisted(_) => false
    case Logged(e) => e in b.log
    case PersistFailed(e) => e in b.failed
    case _ => true
  }

  ghost predicate OutcomeTraced(b: Bus, o: Outcome) {
    match o
    case FannedOut(e, logged) => if logged then e in b.log else e in b.failed
    case Abandoned(e) => e in b.log
  }

  ghost predicate Accounted(b: Bus) {
    b.persistence && Conserved(b) && Traced(b)
  }

  lemma TrailAppend(trail: seq<Outcome>, o: Outcome)
    ensures multiset(EventsOf(trail + [o])) == multiset(EventsOf(trail)) + multiset{o.event}
    ensures FanoutCount(trail + [o]) == FanoutCount(trail) + (if o.FannedOut? then 1 else 0)
  {
    assert (trail + [o])[..|trail|] == trail;
    assert EventsOf(trail + [o]) == EventsOf(trail) + [o.event];
  }

  lemma ConservedKept(b: Bus, step: Step)
    requires b.persistence && Conserved(b) && Traced(b) && Enabled(b, step)
    ensures Conserved(Took(b, step))
  {
    if step.PersistOk? || step.PersistFail? {
      PersistConserves(b, step);
    } else if step.Fanout? {
      FanoutConserves(b, step.p);
    } else if step.CancelPublish? {
      CancelConserves(b, step.p);
    } else {
      QuietStep(b, step);
    }
  }

  /** The other steps touch nothing that is counted. */
  lemma QuietStep(b: Bus, step: Step)
    requires Enabled(b, step)
    requires !step.PersistOk? && !step.PersistFail? && !step.Fanout? && !step.CancelPublish?
    ensures var after := Took(b, step);
      && after == b.(publishes := after.publishes, subs := after.subs,
                     initialized := after.initialized, eventsDelivered := after.eventsDelivered,
                     callbackErrors := after.callbackErrors, interrupted := after.interrupted)
      && Pending(after.publishes) == Pending(b.publishes)
  {
    match step
    case Begin(e) => BeginStep(b, e);
    case Middleware(p, processed) => MiddlewareStep(b, p, processed);
    case Finish(p) => PendingSame(b.publishes, p, Ended);
    case _ =>
  }

  lemma BeginStep(b: Bus, e: Event)
    requires b.initialized
    ensures Pending(Took(b, Begin(e)).publishes) == Pending(b.publishes)
  {
    PendingAppend(b.publishes, InBefore(e));
  }

  lemma MiddlewareStep(b: Bus, p: nat, processed: Option<Event>)
    requires Enabled(b, Middleware(p, processed))
    ensures Pending(Took(b, Middleware(p, processed)).publishes) == Pending(b.publishes)
  {
    PendingSame(b.publishes, p, AfterMiddleware(b, processed));
  }

  lemma FanoutConserves(b: Bus, p: nat)
    requires Conserved(b) && Traced(b) && Enabled(b, Fanout(p))
    ensures Conserved(Took(b, Fanout(p)))
  {
    assert PhaseTraced(b, b.publishes[p]);
    var o := FannedOut(b.publishes[p].event, b.publishes[p].Logged?);
    Settled(b, p, InAfter, o);
    var after := Took(b, Fanout(p));
    assert after.publishes == b.publishes[p := InAfter] && after.trail == b.trail + [o];
    assert after.log == b.log && after.failed == b.failed;
  }

  lemma CancelConserves(b: Bus, p: nat)
    requires Conserved(b) && Enabled(b, CancelPublish(p))
    ensures Conserved(Took(b, CancelPublish(p)))
  {
    if b.publishes[p].Logged? {
      Settled(b, p, Ended, Abandoned(b.publishes[p].event));
    } else {
      PendingSame(b.publishes, p, Ended);
    }
  }

  lemma PersistConserves(b: Bus, step: Step)
    requires Conserved(b) && Enabled(b, step) && (step.PersistOk? || step.PersistFail?)
    ensures Conserved(Took(b, step))
  {
    var e := b.publishes[step.p].event;
    if step.PersistOk? {
      Persisted(b, step.p, Logged(e), b.log, b.failed);
    } else {
      assert Balanced(EventsOf(b.trail), Pending(b.publishes), b.failed, b.log);
      Persisted(b, step.p, PersistFailed(e), b.failed, b.log);
    }
  }

  /** An event becomes pending and is recorded in one of the two lists. */
  lemma Persisted(b: Bus, p: nat, phase: Phase, records: seq<Event>, others: seq<Event>)
    requires p < |b.publishes| && b.publishes[p].InPersist? && PendingOf(phase) == multiset{b.publishes[p].event}
    requires Balanced(EventsOf(b.trail), Pending(b.publishes), records, others)
    ensures Balanced(EventsOf(b.trail), Pending(b.publishes[p := phase]), records + [b.publishes[p].event], others)
  {
    PendingGains(b.publishes, p, phase);
    assert multiset(records + [b.publishes[p].event]) == multiset(records) + multiset{b.publishes[p].event};
  }

  /** A pending event moves to the trail. */
  lemma Settled(b: Bus, p: nat, phase: Phase, o: Outcome)
    requires p < |b.publishes| && PendingOf(phase) == multiset{}
    requires PendingOf(b.publishes[p]) == multiset{o.event}
    requires Balanced(EventsOf(b.trail), Pending(b.publishes), b.log, b.failed)
    ensures Balanced(EventsOf(b.trail + [o]), Pending(b.publishes[p := phase]), b.log, b.failed)
    ensures FanoutCount(b.trail + [o]) == FanoutCount(b.trail) + (if o.FannedOut? then 1 else 0)
  {
    PendingLoses(b.publishes, p, phase);
    TrailAppend(b.trail, o);
    forall e ensures multiset(EventsOf(b.trail + [o]))[e] + Pending(b.publishes[p := phase])[e]
                     == multiset(b.log)[e] + multiset(b.failed)[e]
    {
      assert (Pending(b.publishes[p := phase]) + PendingOf(b.publishes[p]))[e] == Pending(b.publishes)[e];
    }
  }

  lemma TracedKept(b: Bus, step: Step)
    requires b.persistence && Traced(b) && Enabled(b, step)
    ensures Traced(Took(b, step))
  {
    var after := Took(b, step);
    forall p | 0 <= p < |after.publishes| ensures PhaseTraced(after, after.publishes[p]) {
      if p < |b.publishes| {
        assert PhaseTraced(b, b.publishes[p]);
      }
    }
    forall k | 0 <= k < |after.trail| ensures OutcomeTraced(after, after.trail[k]) {
      if k < |b.trail| {
        assert OutcomeTraced(b, b.trail[k]);
      } else {
        assert step.Fanout? || step.CancelPublish?;
        assert PhaseTraced(b, b.publishes[step.p]);
      }
    }
  }

  lemma AccountedKept(b: Bus, step: Step)
    requires Accounted(b)
    ensures Accounted(Next(b, step))
  {
    if Enabled(b, step) {
      ConservedKept(b, step);
      TracedKept(b, step);
    }
  }

  lemma {:induction false} RunAccounted(steps: seq<Step>)
    ensures Accounted(Run(Start(true), steps))
  {
    if steps != [] {
      RunAccounted(steps[..|steps| - 1]);
      AccountedKept(Run(Start(true), steps[..|steps| - 1]), steps[|steps| - 1]);
    }
  }
}
