/**
 What holds in every reachable state of the event bus, for every interleaving.
 */
module BusLaws {
  import opened SharedTypes
  import opened BusProtocol

  // ----- persistence and the counters -----

  function AbandonCount(trail: seq<Outcome>): nat {
    if trail == [] then 0
    else AbandonCount(trail[..|trail| - 1]) + (if trail[|trail| - 1].Abandoned? then 1 else 0)
  }

  lemma {:induction false} TrailCounts(trail: seq<Outcome>)
    ensures FanoutCount(trail) + AbandonCount(trail) == |trail|
    decreases |trail|
  {
    if trail != [] {
      TrailCounts(trail[..|trail| - 1]);
    }
  }

  lemma BalancedSizes(ended: seq<Event>, pending: multiset<Event>, log: seq<Event>, failed: seq<Event>)
    requires Balanced(ended, pending, log, failed)
    ensures |ended| + |pending| == |log| + |failed|
  {
    var x, y := multiset(ended) + pending, multiset(log) + multiset(failed);
    forall e ensures x[e] == y[e] {
      assert multiset(ended)[e] + pending[e] == multiset(log)[e] + multiset(failed)[e];
    }
    assert x == y;
    assert |x| == |multiset(ended)| + |pending| && |y| == |multiset(log)| + |multiset(failed)|;
    assert |multiset(ended)| == |ended| && |multiset(log)| == |log| && |multiset(failed)| == |failed|;
  }

  /** No publish is between persistence and fanout. */
  ghost predicate NonePending(b: Bus) {
    forall p :: 0 <= p < |b.publishes| ==> !b.publishes[p].Logged? && !b.publishes[p].PersistFailed?
  }

  lemma {:induction false} PendingIsEmptyIff(publishes: seq<Phase>)
    ensures |Pending(publishes)| == 0 <==>
      forall p :: 0 <= p < |publishes| ==> !publishes[p].Logged? && !publishes[p].PersistFailed?
    decreases |publishes|
  {
    if publishes != [] {
      var n := |publishes| - 1;
      PendingIsEmptyIff(publishes[..n]);
      assert |Pending(publishes)| == |Pending(publishes[..n])| + |PendingOf(publishes[n])|;
      LastSplits(publishes);
    }
  }

  lemma LastSplits(publishes: seq<Phase>)
    requires publishes != []
    ensures var n := |publishes| - 1;
      (forall p :: 0 <= p < |publishes| ==> !publishes[p].Logged? && !publishes[p].PersistFailed?) <==>
      (forall p :: 0 <= p < n ==> !publishes[..n][p].Logged? && !publishes[..n][p].PersistFailed?)
        && !publishes[n].Logged? && !publishes[n].PersistFailed?
  {
    var n := |publishes| - 1;
    assert forall p :: 0 <= p < n ==> publishes[..n][p] == publishes[p];
  }

  /** Persist before fanout, for every interleaving of publishes: whatever was fanned out
      is in the log or was counted as an error; the published count never exceeds log plus
      errors, and the difference is exactly the publishes still between persistence and
      fanout and those cancelled there. */
  lemma PersistBeforeFanout(steps: seq<Step>)
    ensures var b := Run(Start(true), steps);
      && (forall k :: 0 <= k < |b.trail| && b.trail[k].FannedOut? ==>
            if b.trail[k].logged then b.trail[k].event in b.log else b.trail[k].event in b.failed)
      && b.persistenceErrors == |b.failed|
      && b.eventsPublished + |Pending(b.publishes)| + AbandonCount(b.trail) == |b.log| + b.persistenceErrors
      && (b.eventsPublished == |b.log| + b.persistenceErrors <==> NonePending(b) && AbandonCount(b.trail) == 0)
  {
    var b := Run(Start(true), steps);
    RunAccounted(steps);
    TrailCounts(b.trail);
    BalancedSizes(EventsOf(b.trail), Pending(b.publishes), b.log, b.failed);
    PendingIsEmptyIff(b.publishes);
    forall k | 0 <= k < |b.trail| && b.trail[k].FannedOut?
      ensures if b.trail[k].logged then b.trail[k].event in b.log else b.trail[k].event in b.failed
    {
      assert OutcomeTraced(b, b.trail[k]);
    }
  }

  // ----- queues -----

  /** The events of the trail that a subscription to `eventType` is offered. */
  function Offers(trail: seq<Outcome>, eventType: string): seq<Event> {
    if trail == [] then []
    else
      var o := trail[|trail| - 1];
      Offers(trail[..|trail| - 1], eventType)
      + (if o.FannedOut? && (eventType == WILDCARD || eventType == o.event.eventType) then [o.event] else [])
  }

  function ExitEvents(exits: seq<Exit>): seq<Event> {
    seq(|exits|, i requires 0 <= i < |exits| => exits[i].event)
  }

  function ExitCount(exits: seq<Exit>, consumed: bool): nat {
    if exits == [] then 0
    else ExitCount(exits[..|exits| - 1], consumed) + (if exits[|exits| - 1].consumed == consumed then 1 else 0)
  }

  lemma ExitAppend(exits: seq<Exit>, x: Exit)
    ensures ExitEvents(exits + [x]) == ExitEvents(exits) + [x.event]
    ensures forall c :: ExitCount(exits + [x], c) == ExitCount(exits, c) + (if x.consumed == c then 1 else 0)
  {
    assert (exits + [x])[..|exits|] == exits;
  }

  lemma {:induction false} ExitTotals(exits: seq<Exit>)
    ensures ExitCount(exits, true) + ExitCount(exits, false) == |exits|
    decreases |exits|
  {
    if exits != [] {
      ExitTotals(exits[..|exits| - 1]);
    }
  }

  /** A subscription saw a window of the trail; what it was offered has left its queue or is
      still in it, in order, within capacity. */
  ghost predicate QueueLaw(s: Sub, trail: seq<Outcome>) {
    && s.since <= s.until <= |trail|
    && (s.live ==> s.until == |trail|)
    && s.matched == Offers(trail[s.since..s.until], s.eventType)
    && s.matched == ExitEvents(s.exits) + s.queue
    && (s.capacity > 0 ==> |s.queue| <= s.capacity)
  }

  ghost predicate QueuesLawful(b: Bus) {
    forall i :: 0 <= i < |b.subs| ==> QueueLaw(b.subs[i], b.trail)
  }

  lemma WindowGrows(trail: seq<Outcome>, o: Outcome, since: nat, until: nat, eventType: string)
    requires since <= until <= |trail|
    ensures (trail + [o])[since..until] == trail[since..until]
    ensures until == |trail| ==>
      Offers((trail + [o])[since..until + 1], eventType) == Offers(trail[since..until], eventType)
        + (if o.FannedOut? && (eventType == WILDCARD || eventType == o.event.eventType) then [o.event] else [])
  {
    if until == |trail| {
      var longer := (trail + [o])[since..until + 1];
      assert longer[..|longer| - 1] == trail[since..until];
      assert longer[|longer| - 1] == o;
    }
  }

  lemma FanKeepsLaw(s: Sub, trail: seq<Outcome>, e: Event, logged: bool)
    requires QueueLaw(s, trail)
    ensures QueueLaw(FanToOne(s, e, |trail| + 1), trail + [FannedOut(e, logged)])
    ensures s.live && Matches(s, e) ==> Offer(s.queue, s.capacity, e).accepted
  {
    WindowGrows(trail, FannedOut(e, logged), s.since, s.until, s.eventType);
    OfferAccepts(s.queue, s.capacity, e);
    var o := Offer(s.queue, s.capacity, e);
    assert ExitEvents(s.exits + Dropping(o.dropped) + []) == ExitEvents(s.exits) + o.dropped;
    assert ExitEvents(s.exits) + o.dropped + o.queue == ExitEvents(s.exits) + (o.dropped + o.queue);
    assert ExitEvents(s.exits) + s.queue + [e] == ExitEvents(s.exits) + (s.queue + [e]);
  }

  lemma PassKeepsLaw(s: Sub, trail: seq<Outcome>, e: Event)
    requires QueueLaw(s, trail)
    ensures QueueLaw(if s.live then s.(until := |trail| + 1) else s, trail + [Abandoned(e)])
  {
    WindowGrows(trail, Abandoned(e), s.since, s.until, s.eventType);
  }

  lemma GetKeepsLaw(s: Sub, trail: seq<Outcome>)
    requires QueueLaw(s, trail) && s.queue != []
    ensures QueueLaw(s.(queue := s.queue[1..], handling := Some(s.queue[0]),
                        exits := s.exits + [Exit(s.queue[0], true)]), trail)
  {
    ExitAppend(s.exits, Exit(s.queue[0], true));
    assert s.queue == [s.queue[0]] + s.queue[1..];
  }

  lemma QueuesKept(b: Bus, step: Step)
    requires QueuesLawful(b) && Enabled(b, step)
    ensures QueuesLawful(Took(b, step))
  {
    var after := Took(b, step);
    forall i | 0 <= i < |after.subs| ensures QueueLaw(after.subs[i], after.trail) {
      if i < |b.subs| {
        SubKept(b, step, i);
      } else {
        assert step.Subscribe?;
        assert b.trail[|b.trail|..|b.trail|] == [];
      }
    }
  }

  lemma SubKept(b: Bus, step: Step, i: nat)
    requires i < |b.subs| && QueueLaw(b.subs[i], b.trail) && Enabled(b, step)
    ensures QueueLaw(Took(b, step).subs[i], Took(b, step).trail)
  {
    if step.Fanout? {
      FanKeepsLaw(b.subs[i], b.trail, b.publishes[step.p].event, b.publishes[step.p].Logged?);
    } else if step.CancelPublish? && b.publishes[step.p].Logged? {
      PassKeepsLaw(b.subs[i], b.trail, b.publishes[step.p].event);
    } else if step == Get(i) {
      GetKeepsLaw(b.subs[i], b.trail);
    } else {
      SubUndisturbed(b, step, i);
    }
  }

  /** The other steps leave what the law speaks of. */
  lemma SubUndisturbed(b: Bus, step: Step, i: nat)
    requires i < |b.subs| && Enabled(b, step)
    requires !step.Fanout? && !(step.CancelPublish? && b.publishes[step.p].Logged?) && step != Get(i)
    ensures var after := Took(b, step);
      && i < |after.subs| && after.trail == b.trail
      && after.subs[i] == b.subs[i].(live := after.subs[i].live, cancelled := after.subs[i].cancelled,
                                     stopped := after.subs[i].stopped, handling := after.subs[i].handling)
      && (after.subs[i].live ==> b.subs[i].live)
  {
  }

  lemma {:induction false} RunQueuesLawful(persistence: bool, steps: seq<Step>)
    ensures QueuesLawful(Run(Start(persistence), steps))
    decreases |steps|
  {
    if steps != [] {
      var b := Run(Start(persistence), steps[..|steps| - 1]);
      RunQueuesLawful(persistence, steps[..|steps| - 1]);
      if Enabled(b, steps[|steps| - 1]) {
        QueuesKept(b, steps[|steps| - 1]);
      }
    }
  }

  /** Per subscription, in every reachable state: events leave the queue, consumed or dropped,
      in the order in which they were matched, and the rest is queued, within capacity; every
      matched event was consumed, dropped or is queued; and the next fanout's second drop
      branch cannot be taken. */
  lemma SubscriptionLaw(persistence: bool, steps: seq<Step>, i: nat, e: Event)
    requires i < |Run(Start(persistence), steps).subs|
    ensures var b := Run(Start(persistence), steps);
      var s := b.subs[i];
      && s.since <= s.until <= |b.trail| && (s.live ==> s.until == |b.trail|)
      && (s.capacity > 0 ==> |s.queue| <= s.capacity)
      && Offer(s.queue, s.capacity, e).accepted
      && (var matched := Offers(b.trail[s.since..s.until], s.eventType);
          && matched == ExitEvents(s.exits) + s.queue
          && |s.queue| <= |matched| && s.queue == matched[|matched| - |s.queue|..]
          && |matched| == ExitCount(s.exits, true) + ExitCount(s.exits, false) + |s.queue|)
  {
    var b := Run(Start(persistence), steps);
    var s := b.subs[i];
    RunQueuesLawful(persistence, steps);
    assert QueueLaw(s, b.trail);
    ExitTotals(s.exits);
    OfferAccepts(s.queue, s.capacity, e);
  }

  lemma {:induction false} OffersAreFanned(trail: seq<Outcome>, eventType: string, e: Event)
    requires e in Offers(trail, eventType)
    ensures exists k :: 0 <= k < |trail| && trail[k].FannedOut? && trail[k].event == e
    decreases |trail|
  {
    var n := |trail| - 1;
    if e in Offers(trail[..n], eventType) {
      OffersAreFanned(trail[..n], eventType, e);
      var k :| 0 <= k < n && trail[..n][k].FannedOut? && trail[..n][k].event == e;
      assert trail[k] == trail[..n][k];
    } else {
      assert trail[n].FannedOut? && trail[n].event == e;
    }
  }

  /** With persistence on, whatever was ever placed in a subscriber's queue is in the log or
      was counted as a persistence error. */
  lemma QueuedIsPersisted(steps: seq<Step>, i: nat, e: Event)
    requires i < |Run(Start(true), steps).subs|
    requires e in Run(Start(true), steps).subs[i].matched
    ensures var b := Run(Start(true), steps); e in b.log || e in b.failed
  {
    var b := Run(Start(true), steps);
    var s := b.subs[i];
    RunQueuesLawful(true, steps);
    assert QueueLaw(s, b.trail);
    var k := MatchedIsFanned(s, b.trail, e);
    PersistBeforeFanout(steps);
  }

  lemma MatchedIsFanned(s: Sub, trail: seq<Outcome>, e: Event) returns (k: nat)
    requires QueueLaw(s, trail) && e in s.matched
    ensures k < |trail| && trail[k].FannedOut? && trail[k].event == e
  {
    var window := trail[s.since..s.until];
    OffersAreFanned(window, s.eventType, e);
    var i :| 0 <= i < |window| && window[i].FannedOut? && window[i].event == e;
    k := s.since + i;
  }

  /** An unsubscribed subscription is offered nothing any more, whatever happens next. */
  lemma {:induction false} UnsubscribedGetsNothing(b: Bus, i: nat, steps: seq<Step>)
    requires Enabled(b, Unsubscribe(i))
    ensures var after := Run(Took(b, Unsubscribe(i)), steps);
      i < |after.subs| && !after.subs[i].live && after.subs[i].matched == b.subs[i].matched
    decreases |steps|
  {
    if steps != [] {
      UnsubscribedGetsNothing(b, i, steps[..|steps| - 1]);
      DeadStaysDead(Run(Took(b, Unsubscribe(i)), steps[..|steps| - 1]), steps[|steps| - 1], i);
    }
  }

  lemma DeadStaysDead(b: Bus, step: Step, i: nat)
    requires i < |b.subs| && !b.subs[i].live
    ensures var after := Next(b, step);
      i < |after.subs| && !after.subs[i].live && after.subs[i].matched == b.subs[i].matched
  {
  }

  // ----- the dropped and delivered counters -----

  function TotalExits(subs: seq<Sub>, consumed: bool): nat {
    if subs == [] then 0
    else TotalExits(subs[..|subs| - 1], consumed) + ExitCount(subs[|subs| - 1].exits, consumed)
  }

  function Handling(subs: seq<Sub>): nat {
    if subs == [] then 0
    else Handling(subs[..|subs| - 1]) + (if subs[|subs| - 1].handling.Some? then 1 else 0)
  }

  lemma {:induction false} TotalsUpdate(subs: seq<Sub>, i: nat, s: Sub)
    requires i < |subs|
    ensures forall c :: TotalExits(subs[i := s], c) + ExitCount(subs[i].exits, c)
                        == TotalExits(subs, c) + ExitCount(s.exits, c)
    ensures Handling(subs[i := s]) + (if subs[i].handling.Some? then 1 else 0)
            == Handling(subs) + (if s.handling.Some? then 1 else 0)
    decreases |subs|
  {
    var n := |subs| - 1;
    if i < n {
      TotalsUpdate(subs[..n], i, s);
      assert subs[i := s][..n] == subs[..n][i := s];
    } else {
      assert subs[i := s][..n] == subs[..n];
    }
  }

  lemma FanExits(s: Sub, e: Event, now: nat)
    ensures var o := Offer(s.queue, s.capacity, e);
      && ExitCount(FanToOne(s, e, now).exits, true) == ExitCount(s.exits, true)
      && ExitCount(FanToOne(s, e, now).exits, false) == ExitCount(s.exits, false)
           + (if Matches(s, e) then |o.dropped| + (if o.accepted then 0 else 1) else 0)
      && FanToOne(s, e, now).handling == s.handling
  {
    var o := Offer(s.queue, s.capacity, e);
    if o.dropped == [] {
      assert s.exits + Dropping(o.dropped) == s.exits;
    } else {
      assert Dropping(o.dropped) == [Exit(s.queue[0], false)];
      ExitAppend(s.exits, Exit(s.queue[0], false));
    }
    ExitAppend(s.exits + Dropping(o.dropped), Exit(e, false));
    assert s.exits + Dropping(o.dropped) + [] == s.exits + Dropping(o.dropped);
  }

  lemma {:induction false} FanTotals(subs: seq<Sub>, e: Event, now: nat)
    ensures TotalExits(FanToAll(subs, e, now), true) == TotalExits(subs, true)
    ensures TotalExits(FanToAll(subs, e, now), false) == TotalExits(subs, false) + Drops(subs, e)
    ensures Handling(FanToAll(subs, e, now)) == Handling(subs)
    decreases |subs|
  {
    if subs != [] {
      var n := |subs| - 1;
      FanTotals(subs[..n], e, now);
      assert FanToAll(subs, e, now)[..n] == FanToAll(subs[..n], e, now);
      FanExits(subs[n], e, now);
    }
  }

  lemma {:induction false} PassTotals(subs: seq<Sub>, now: nat)
    ensures forall c :: TotalExits(PassAll(subs, now), c) == TotalExits(subs, c)
    ensures Handling(PassAll(subs, now)) == Handling(subs)
    decreases |subs|
  {
    if subs != [] {
      var n := |subs| - 1;
      PassTotals(subs[..n], now);
      assert PassAll(subs, now)[..n] == PassAll(subs[..n], now);
    }
  }

  ghost predicate CountersLawful(b: Bus) {
    && b.eventsDropped == TotalExits(b.subs, false)
    && b.eventsDelivered + b.callbackErrors + b.interrupted + Handling(b.subs) == TotalExits(b.subs, true)
  }

  lemma CountersKept(b: Bus, step: Step)
    requires CountersLawful(b) && Enabled(b, step)
    ensures CountersLawful(Took(b, step))
  {
    match step
    case Fanout(p) => FanTotals(b.subs, b.publishes[p].event, |b.trail| + 1);
    case CancelPublish(p) => PassTotals(b.subs, |b.trail| + 1);
    case Subscribe(t, c, n) => SubscriptionCounters(b, step, 0);
    case Unsubscribe(i) => SubscriptionCounters(b, step, i);
    case CancelConsumer(i) => SubscriptionCounters(b, step, i);
    case Get(i) => ConsumerCounters(b, step, i);
    case CallbackDone(i, ok) => ConsumerCounters(b, step, i);
    case Stop(i) => ConsumerCounters(b, step, i);
    case _ =>
  }

  lemma SubscriptionCounters(b: Bus, step: Step, i: nat)
    requires CountersLawful(b) && Enabled(b, step)
    requires step.Subscribe? || step == Unsubscribe(i) || step == CancelConsumer(i)
    ensures CountersLawful(Took(b, step))
  {
    if step.Subscribe? {
      var after := Took(b, step);
      var n := |b.subs|;
      assert after.subs == b.subs + [after.subs[n]];
      TotalsAppend(b.subs, after.subs[n]);
    } else {
      TotalsUpdate(b.subs, i, Took(b, step).subs[i]);
    }
  }

  lemma TotalsAppend(subs: seq<Sub>, s: Sub)
    ensures forall c :: TotalExits(subs + [s], c) == TotalExits(subs, c) + ExitCount(s.exits, c)
    ensures Handling(subs + [s]) == Handling(subs) + (if s.handling.Some? then 1 else 0)
  {
    assert (subs + [s])[..|subs|] == subs;
  }

  lemma ConsumerCounters(b: Bus, step: Step, i: nat)
    requires CountersLawful(b) && Enabled(b, step)
    requires step == Get(i) || (step.CallbackDone? && step.i == i) || step == Stop(i)
    ensures CountersLawful(Took(b, step))
  {
    if step.Get? {
      ExitAppend(b.subs[i].exits, Exit(b.subs[i].queue[0], true));
    }
    TotalsUpdate(b.subs, i, Took(b, step).subs[i]);
  }

  /** Always: the dropped counter is the sum over all subscriptions ever made, and every
      consumed event was delivered, failed in its callback, was cut short, or is in hand. */
  lemma {:induction false} CountersAgree(persistence: bool, steps: seq<Step>)
    ensures CountersLawful(Run(Start(persistence), steps))
    decreases |steps|
  {
    if steps != [] {
      var b := Run(Start(persistence), steps[..|steps| - 1]);
      CountersAgree(persistence, steps[..|steps| - 1]);
      if Enabled(b, steps[|steps| - 1]) {
        CountersKept(b, steps[|steps| - 1]);
      }
    }
  }

  // ----- order of log and fanout -----

  /** The logged events in the order in which their publishes left the log behind. */
  function LoggedOf(trail: seq<Outcome>): seq<Event> {
    if trail == [] then []
    else
      var o := trail[|trail| - 1];
      LoggedOf(trail[..|trail| - 1]) + (if o.Abandoned? || o.logged then [o.event] else [])
  }

  /** The log and fanout are behind the publish, or it will get to neither. */
  predicate Past(phase: Phase) {
    !phase.InBefore? && !phase.InPersist? && !phase.Logged?
  }

  /** Every publish is past the log and fanout. */
  ghost predicate Clear(b: Bus) {
    forall p :: 0 <= p < |b.publishes| ==> Past(b.publishes[p])
  }

  /** A publish begins only when all earlier ones are past fanout. */
  ghost predicate OneAtATime(b: Bus, steps: seq<Step>) {
    forall k :: 0 <= k < |steps| && steps[k].Begin? ==> Clear(Run(b, steps[..k]))
  }

  /** Only the latest publish can be on its way, and the log is the fanout order up to it. */
  ghost predicate InOrder(b: Bus) {
    && (forall p :: 0 <= p < |b.publishes| - 1 ==> Past(b.publishes[p]))
    && b.log == LoggedOf(b.trail) +
         (if b.publishes != [] && b.publishes[|b.publishes| - 1].Logged?
          then [b.publishes[|b.publishes| - 1].event] else [])
  }

  lemma LoggedAppend(trail: seq<Outcome>, o: Outcome)
    ensures LoggedOf(trail + [o]) == LoggedOf(trail) + (if o.Abandoned? || o.logged then [o.event] else [])
  {
    assert (trail + [o])[..|trail|] == trail;
  }

  lemma InOrderKept(b: Bus, step: Step)
    requires InOrder(b) && Enabled(b, step)
    requires step.Begin? ==> Clear(b)
    ensures InOrder(Took(b, step))
  {
    if step.Fanout? || step.CancelPublish? {
      LeavingKeepsOrder(b, step);
    }
  }

  lemma LeavingKeepsOrder(b: Bus, step: Step)
    requires InOrder(b) && Enabled(b, step) && (step.Fanout? || step.CancelPublish?)
    ensures InOrder(Took(b, step))
  {
    var p, phase := step.p, if step.Fanout? then InAfter else Ended;
    var after := Took(b, step);
    assert after.publishes == b.publishes[p := phase] && after.log == b.log;
    if step.Fanout? {
      var o := FannedOut(b.publishes[p].event, b.publishes[p].Logged?);
      assert after.trail == b.trail + [o];
      LoggedAppend(b.trail, o);
    } else if b.publishes[p].Logged? {
      LoggedAppend(b.trail, Abandoned(b.publishes[p].event));
    } else {
      assert after.trail == b.trail;
    }
  }

  /** When publishes do not overlap before fanout, the log is the fanout order, plus what was
      logged but cancelled before its fanout, minus what failed to persist. */
  lemma {:induction false} LogOrderIsFanoutOrder(persistence: bool, steps: seq<Step>)
    requires OneAtATime(Start(persistence), steps)
    ensures var b := Run(Start(persistence), steps);
      && InOrder(b)
      && (Clear(b) ==> b.log == LoggedOf(b.trail))
    decreases |steps|
  {
    if steps != [] {
      var n := |steps| - 1;
      var b := Run(Start(persistence), steps[..n]);
      assert forall k :: 0 <= k < n ==> steps[..n][k] == steps[k] && steps[..n][..k] == steps[..k];
      LogOrderIsFanoutOrder(persistence, steps[..n]);
      if Enabled(b, steps[n]) {
        InOrderKept(b, steps[n]);
      }
    }
  }

  /** Everything logged so far that was fanned out or abandoned was so in the order of the log. */
  ghost predicate Ordered(b: Bus) {
    LoggedOf(b.trail) <= b.log
  }

  // ----- when a new publish keeps the order -----

  function LoggedCount(publishes: seq<Phase>): nat {
    if publishes == [] then 0
    else LoggedCount(publishes[..|publishes| - 1]) + (if publishes[|publishes| - 1].Logged? then 1 else 0)
  }

  lemma {:induction false} LoggedCountUpdate(publishes: seq<Phase>, p: nat, phase: Phase)
    requires p < |publishes|
    ensures LoggedCount(publishes[p := phase]) + (if publishes[p].Logged? then 1 else 0)
            == LoggedCount(publishes) + (if phase.Logged? then 1 else 0)
    decreases |publishes|
  {
    var n := |publishes| - 1;
    if p < n {
      LoggedCountUpdate(publishes[..n], p, phase);
      assert publishes[p := phase][..n] == publishes[..n][p := phase];
    } else {
      assert publishes[p := phase][..n] == publishes[..n];
    }
  }

  lemma {:induction false} LoggedCountZeroIff(publishes: seq<Phase>)
    ensures LoggedCount(publishes) == 0 <==> forall p :: 0 <= p < |publishes| ==> !publishes[p].Logged?
    decreases |publishes|
  {
    if publishes != [] {
      var n := |publishes| - 1;
      LoggedCountZeroIff(publishes[..n]);
      assert forall p :: 0 <= p < n ==> publishes[..n][p] == publishes[p];
      if forall p :: 0 <= p < |publishes| ==> !publishes[p].Logged? {
        assert !publishes[n].Logged?;
      }
    }
  }

  /** What is in the log has left it behind, or its publish still waits for fanout. */
  ghost predicate LogSettled(b: Bus) {
    |b.log| == |LoggedOf(b.trail)| + LoggedCount(b.publishes)
  }

  lemma LogSettledKept(b: Bus, step: Step)
    requires LogSettled(b) && Enabled(b, step)
    ensures LogSettled(Took(b, step))
  {
    match step
    case Begin(e) => assert (b.publishes + [InBefore(e)])[..|b.publishes|] == b.publishes;
    case Middleware(p, r) => LoggedCountUpdate(b.publishes, p, AfterMiddleware(b, r));
    case PersistOk(p) => LoggedCountUpdate(b.publishes, p, Logged(b.publishes[p].event));
    case PersistFail(p) => LoggedCountUpdate(b.publishes, p, PersistFailed(b.publishes[p].event));
    case Fanout(p) =>
      LoggedCountUpdate(b.publishes, p, InAfter);
      LoggedAppend(b.trail, FannedOut(b.publishes[p].event, b.publishes[p].Logged?));
    case Finish(p) => LoggedCountUpdate(b.publishes, p, Ended);
    case CancelPublish(p) =>
      LoggedCountUpdate(b.publishes, p, Ended);
      if b.publishes[p].Logged? {
        LoggedAppend(b.trail, Abandoned(b.publishes[p].event));
      }
    case _ =>
  }

  lemma {:induction false} RunLogSettled(persistence: bool, steps: seq<Step>)
    ensures LogSettled(Run(Start(persistence), steps))
    decreases |steps|
  {
    if steps != [] {
      var b := Run(Start(persistence), steps[..|steps| - 1]);
      RunLogSettled(persistence, steps[..|steps| - 1]);
      if Enabled(b, steps[|steps| - 1]) {
        LogSettledKept(b, steps[|steps| - 1]);
      }
    }
  }

  predicate NoBegin(steps: seq<Step>) {
    forall k :: 0 <= k < |steps| ==> !steps[k].Begin?
  }

  lemma {:induction false} RunInOrder(b: Bus, steps: seq<Step>)
    requires InOrder(b) && NoBegin(steps)
    ensures InOrder(Run(b, steps))
    decreases |steps|
  {
    if steps != [] {
      var n := |steps| - 1;
      RunInOrder(b, steps[..n]);
      if Enabled(Run(b, steps[..n]), steps[n]) {
        InOrderKept(Run(b, steps[..n]), steps[n]);
      }
    }
  }

  lemma RunMore(b: Bus, steps: seq<Step>, step: Step)
    ensures Run(b, steps + [step]) == Next(Run(b, steps), step)
  {
    assert (steps + [step])[..|steps|] == steps;
  }

  lemma RunSingle(b: Bus, step: Step)
    ensures Run(b, [step]) == Next(b, step)
  {
    RunMore(b, [], step);
    assert [] + [step] == [step];
  }

  /** How a publish that is not past fanout gets into the log. */
  function ToLog(b: Bus, p: nat): seq<Step>
    requires p < |b.publishes| && !Past(b.publishes[p])
  {
    match b.publishes[p]
    case InBefore(x) => [Middleware(p, Some(x)), PersistOk(p)]
    case InPersist(_) => [PersistOk(p)]
    case _ => []
  }

  lemma ReachesLog(b: Bus, p: nat)
    requires b.persistence && p < |b.publishes| && !Past(b.publishes[p])
    ensures var x := b.publishes[p].event;
      Run(b, ToLog(b, p)) == b.(publishes := b.publishes[p := Logged(x)],
                                log := if b.publishes[p].Logged? then b.log else b.log + [x])
  {
    var x := b.publishes[p].event;
    if b.publishes[p].InBefore? {
      var pass := Middleware(p, Some(x));
      RunSingle(b, pass);
      RunMore(b, [pass], PersistOk(p));
      assert [pass] + [PersistOk(p)] == ToLog(b, p);
      assert Took(b, pass) == b.(publishes := b.publishes[p := InPersist(x)]);
    } else if b.publishes[p].InPersist? {
      RunSingle(b, PersistOk(p));
    } else {
      assert b.publishes[p := Logged(x)] == b.publishes;
    }
  }

  lemma {:induction false} RunConcat(b: Bus, first: seq<Step>, second: seq<Step>)
    ensures Run(b, first + second) == Run(Run(b, first), second)
    decreases |second|
  {
    if second == [] {
      assert first + second == first;
    } else {
      var n := |second| - 1;
      RunConcat(b, first, second[..n]);
      assert (first + second)[..|first| + n] == first + second[..n];
    }
  }

  /** The earlier publish `p` gets logged, the new one is logged and fanned out, then `p` is
      fanned out. */
  function Overtaking(b: Bus, y: Event, p: nat): seq<Step>
    requires p < |b.publishes| && !Past(b.publishes[p])
  {
    var q := |b.publishes|;
    ToLog(b, p) + ([Middleware(q, Some(y)), PersistOk(q)] + ([Fanout(q)] + [Fanout(p)]))
  }

  lemma FansOutBoth(b: Bus, p: nat, q: nat)
    requires p < |b.publishes| && q < |b.publishes| && p != q && b.publishes[p].Logged? && b.publishes[q].Logged?
    ensures var after := Run(b, [Fanout(q)] + [Fanout(p)]);
      && after.trail == b.trail + [FannedOut(b.publishes[q].event, true), FannedOut(b.publishes[p].event, true)]
      && after.log == b.log
  {
    var one := Took(b, Fanout(q));
    RunSingle(b, Fanout(q));
    RunMore(b, [Fanout(q)], Fanout(p));
    assert one.publishes[p] == b.publishes[p] && one.trail == b.trail + [FannedOut(b.publishes[q].event, true)];
  }

  /** From any state with an earlier publish that is not past fanout, a new one can overtake
      it: it is logged after the earlier one and fanned out before it. */
  lemma CanOvertake(b: Bus, y: Event, p: nat)
    requires b.persistence && b.initialized && p < |b.publishes| && !Past(b.publishes[p])
    ensures NoBegin(Overtaking(b, y, p))
    ensures var x := b.publishes[p].event;
      var after := Run(Took(b, Begin(y)), Overtaking(b, y, p));
      && after.trail == b.trail + [FannedOut(y, true), FannedOut(x, true)]
      && after.log == (if b.publishes[p].Logged? then b.log else b.log + [x]) + [y]
  {
    var q := |b.publishes|;
    var begun := Took(b, Begin(y));
    ReachesLog(begun, p);
    var b1 := Run(begun, ToLog(b, p));
    ReachesLog(b1, q);
    var b2 := Run(b1, ToLog(b1, q));
    FansOutBoth(b2, p, q);
    RunConcat(begun, ToLog(b, p), ToLog(b1, q) + ([Fanout(q)] + [Fanout(p)]));
    RunConcat(b1, ToLog(b1, q), [Fanout(q)] + [Fanout(p)]);
  }

  /** Whatever is published next, and whatever happens before yet another publish begins,
      fanout keeps the order of the log. */
  ghost predicate KeepsOrder(b: Bus)
    requires b.initialized
  {
    forall y, steps :: NoBegin(steps) ==> Ordered(Run(Took(b, Begin(y)), steps))
  }

  /** In a reachable state, beginning a publish keeps the log the fanout order, for every
      event and every continuation, exactly when it is so far and all earlier publishes are
      past fanout. */
  lemma BeginKeepsOrderIff(steps: seq<Step>)
    requires Run(Start(true), steps).initialized
    ensures var b := Run(Start(true), steps); KeepsOrder(b) <==> Ordered(b) && Clear(b)
  {
    var b := Run(Start(true), steps);
    RunLogSettled(true, steps);
    RunAccounted(steps);
    LoggedCountZeroIff(b.publishes);
    if Ordered(b) && Clear(b) {
      forall y, more | NoBegin(more) ensures Ordered(Run(Took(b, Begin(y)), more)) {
        RunInOrder(Took(b, Begin(y)), more);
      }
    } else if Ordered(b) {
      var p :| 0 <= p < |b.publishes| && !Past(b.publishes[p]);
      OvertakingBreaksOrder(b, p);
    } else {
      var begun, none: seq<Step> := Took(b, Begin(Event("", ""))), [];
      assert NoBegin(none) && Run(begun, none) == begun && !Ordered(begun);
    }
  }

  lemma OvertakingBreaksOrder(b: Bus, p: nat)
    requires b.persistence && b.initialized && Ordered(b) && LogSettled(b)
    requires p < |b.publishes| && !Past(b.publishes[p])
    ensures !KeepsOrder(b)
  {
    var x := b.publishes[p].event;
    LoggedCountZeroIff(b.publishes);
    var passed := LoggedOf(b.trail);
    var log := if b.publishes[p].Logged? then b.log else b.log + [x];
    assert |passed| < |log|;
    var y := Event(log[|passed|].eventType + "'", "");
    CanOvertake(b, y, p);
    var after := Run(Took(b, Begin(y)), Overtaking(b, y, p));
    LoggedAppend(b.trail, FannedOut(y, true));
    LoggedAppend(b.trail + [FannedOut(y, true)], FannedOut(x, true));
    assert after.trail == b.trail + [FannedOut(y, true)] + [FannedOut(x, true)];
    assert LoggedOf(after.trail)[|passed|] == y;
    assert after.log[|passed|] == log[|passed|] != y;
  }

  /** Two overlapping publishes can be fanned out in the other order than they were logged. */
  lemma OverlapCanReorder(x: Event, y: Event)
    ensures exists steps :: var b := Run(Start(true), steps);
      b.log == [x, y] && b.trail == [FannedOut(y, true), FannedOut(x, true)]
  {
    var opening := [Initialize, Begin(x)];
    var b := Run(Start(true), opening);
    RunSingle(Start(true), Initialize);
    RunMore(Start(true), [Initialize], Begin(x));
    assert [Initialize] + [Begin(x)] == opening;
    assert b.publishes == [InBefore(x)] && b.initialized;
    CanOvertake(b, y, 0);
    RunMore(Start(true), opening, Begin(y));
    RunConcat(Start(true), opening + [Begin(y)], Overtaking(b, y, 0));
    var after := Run(Start(true), opening + [Begin(y)] + Overtaking(b, y, 0));
    assert after.log == [x, y];
  }
}
