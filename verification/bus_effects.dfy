/**
 What the steps of the event bus bring about: where a publish, a subscription and a callback
 lead, with and without persistence.
 */
module BusEffects {
  import opened SharedTypes
  import opened BusProtocol
  import opened BusLaws

  // ----- what becomes of one publish -----

  /** Without persistence an event that the middleware lets through is fanned out next: the
      processed event, not the one begun, and nothing is logged. */
  lemma PassesWithoutPersistence(b: Bus, p: nat, e: Event)
    requires !b.persistence && Enabled(b, Middleware(p, Some(e)))
    ensures Enabled(Took(b, Middleware(p, Some(e))), Fanout(p))
    ensures var after := Run(Took(b, Middleware(p, Some(e))), [Fanout(p)]);
      && after.trail == b.trail + [FannedOut(e, false)] && p < |after.publishes| && after.publishes[p].InAfter?
      && after.log == b.log && after.failed == b.failed && after.persistenceErrors == b.persistenceErrors
      && after.eventsPublished == b.eventsPublished + 1
  {
    RunSingle(Took(b, Middleware(p, Some(e))), Fanout(p));
  }

  /** With persistence it is logged and then fanned out. */
  lemma PassesWithPersistence(b: Bus, p: nat, e: Event)
    requires b.persistence && Enabled(b, Middleware(p, Some(e)))
    ensures Took(b, Middleware(p, Some(e))) == b.(publishes := b.publishes[p := InPersist(e)])
    ensures var after := Run(Took(b, Middleware(p, Some(e))), [PersistOk(p), Fanout(p)]);
      && after.log == b.log + [e] && after.trail == b.trail + [FannedOut(e, true)]
      && after.failed == b.failed && after.persistenceErrors == b.persistenceErrors
      && p < |after.publishes| && after.publishes[p].InAfter? && after.eventsPublished == b.eventsPublished + 1
  {
    var passed := Took(b, Middleware(p, Some(e)));
    RunSingle(passed, PersistOk(p));
    RunMore(passed, [PersistOk(p)], Fanout(p));
    assert [PersistOk(p)] + [Fanout(p)] == [PersistOk(p), Fanout(p)];
  }

  /** When the persist fails, that is counted, and it is fanned out all the same. */
  lemma PassesAfterFailedPersist(b: Bus, p: nat, e: Event)
    requires b.persistence && Enabled(b, Middleware(p, Some(e)))
    ensures var after := Run(Took(b, Middleware(p, Some(e))), [PersistFail(p), Fanout(p)]);
      && after.log == b.log && after.trail == b.trail + [FannedOut(e, false)]
      && after.failed == b.failed + [e] && after.persistenceErrors == b.persistenceErrors + 1
      && p < |after.publishes| && after.publishes[p].InAfter? && after.eventsPublished == b.eventsPublished + 1
  {
    var passed := Took(b, Middleware(p, Some(e)));
    RunSingle(passed, PersistFail(p));
    RunMore(passed, [PersistFail(p)], Fanout(p));
    assert [PersistFail(p)] + [Fanout(p)] == [PersistFail(p), Fanout(p)];
  }

  /** A publish that the middleware drops is over at once and for good: no step of it is
      enabled any more, whatever else happens. */
  lemma {:induction false} DroppedGoesNowhere(b: Bus, p: nat, steps: seq<Step>)
    requires Enabled(b, Middleware(p, None))
    ensures Took(b, Middleware(p, None)) == b.(publishes := b.publishes[p := Ended])
    ensures var after := Run(Took(b, Middleware(p, None)), steps);
      && p < |after.publishes| && after.publishes[p] == Ended
      && !Enabled(after, PersistOk(p)) && !Enabled(after, PersistFail(p)) && !Enabled(after, Fanout(p))
    decreases |steps|
  {
    if steps != [] {
      DroppedGoesNowhere(b, p, steps[..|steps| - 1]);
    }
  }

  /** In every reachable state, fanning an event out puts it last into the queue of every live
      subscription to its type or to everything, over the oldest event if the queue is full,
      and touches no other queue. */
  lemma FanoutReaches(persistence: bool, steps: seq<Step>, p: nat, i: nat)
    requires var b := Run(Start(persistence), steps); Enabled(b, Fanout(p)) && i < |b.subs|
    ensures var b := Run(Start(persistence), steps);
      var s, e, after := b.subs[i], b.publishes[p].event, Took(b, Fanout(p)).subs[i];
      if s.live && (s.eventType == "*" || s.eventType == e.eventType)
      then after.queue == (if s.capacity > 0 && |s.queue| == s.capacity then s.queue[1..] else s.queue) + [e]
      else after.queue == s.queue
  {
    var b := Run(Start(persistence), steps);
    RunQueuesLawful(persistence, steps);
    assert QueueLaw(b.subs[i], b.trail);
  }

  /** A new subscription is live from the next fanout on, until it is unsubscribed. */
  lemma {:induction false} SubscribedUntilUnsubscribed(b: Bus, t: string, c: nat, n: int, steps: seq<Step>)
    requires forall k :: 0 <= k < |steps| ==> steps[k] != Unsubscribe(|b.subs|)
    ensures var after := Run(Took(b, Subscribe(t, c, n)), steps); var i := |b.subs|;
      && i < |after.subs| && after.subs[i].live && after.subs[i].since == |b.trail|
      && after.subs[i].eventType == t && after.subs[i].callback == c && after.subs[i].capacity == n
    decreases |steps|
  {
    if steps != [] {
      var m := |steps| - 1;
      assert forall k :: 0 <= k < m ==> steps[..m][k] == steps[k];
      SubscribedUntilUnsubscribed(b, t, c, n, steps[..m]);
      SubscriptionStays(Run(Took(b, Subscribe(t, c, n)), steps[..m]), steps[m], |b.subs|);
    }
  }

  lemma SubscriptionStays(b: Bus, step: Step, i: nat)
    requires i < |b.subs|
    ensures var after := Next(b, step);
      && i < |after.subs| && after.subs[i].since == b.subs[i].since
      && after.subs[i].eventType == b.subs[i].eventType && after.subs[i].callback == b.subs[i].callback
      && after.subs[i].capacity == b.subs[i].capacity
      && (after.subs[i].live <==> b.subs[i].live && !(step == Unsubscribe(i) && Enabled(b, step)))
  {
  }

  /** So it is offered, in order, exactly the events of its type that are fanned out from then
      on. */
  lemma SubscribedGetsEverything(persistence: bool, steps: seq<Step>, t: string, c: nat, n: int, more: seq<Step>)
    requires var b := Run(Start(persistence), steps);
      forall k :: 0 <= k < |more| ==> more[k] != Unsubscribe(|b.subs|)
    ensures var b := Run(Start(persistence), steps);
      var after := Run(Took(b, Subscribe(t, c, n)), more);
      && |b.subs| < |after.subs| && |b.trail| <= |after.trail|
      && after.subs[|b.subs|].matched == Offers(after.trail[|b.trail|..], t)
  {
    var b := Run(Start(persistence), steps);
    var after := Run(Took(b, Subscribe(t, c, n)), more);
    SubscribedUntilUnsubscribed(b, t, c, n, more);
    RunMore(Start(persistence), steps, Subscribe(t, c, n));
    RunConcat(Start(persistence), steps + [Subscribe(t, c, n)], more);
    RunQueuesLawful(persistence, steps + [Subscribe(t, c, n)] + more);
    assert QueueLaw(after.subs[|b.subs|], after.trail);
    assert after.trail[|b.trail|..|after.trail|] == after.trail[|b.trail|..];
  }

  // ----- the counters, persistence or not -----

  /** How many callbacks returned, or raised, during the run. */
  function Callbacks(b: Bus, steps: seq<Step>, ok: bool): nat {
    if steps == [] then 0
    else
      var n := |steps| - 1;
      Callbacks(b, steps[..n], ok)
      + (if steps[n].CallbackDone? && steps[n].ok == ok && Enabled(Run(b, steps[..n]), steps[n]) then 1 else 0)
  }

  ghost predicate NonePersisting(b: Bus) {
    forall p :: 0 <= p < |b.publishes| ==>
      !b.publishes[p].InPersist? && !b.publishes[p].Logged? && !b.publishes[p].PersistFailed?
  }

  /** In every run: the delivered counter is the number of callbacks that returned, the
      published counter the number of fanouts, and the error counter the number of failed
      persists; without persistence nothing is logged and nothing fails. */
  lemma {:induction false} CountersMean(persistence: bool, steps: seq<Step>)
    ensures var b := Run(Start(persistence), steps);
      && b.persistence == persistence
      && b.eventsDelivered == Callbacks(Start(persistence), steps, true)
      && b.callbackErrors == Callbacks(Start(persistence), steps, false)
      && b.eventsPublished == FanoutCount(b.trail) && b.persistenceErrors == |b.failed|
      && (!persistence ==> b.log == [] && b.failed == [] && NonePersisting(b))
    decreases |steps|
  {
    if steps != [] {
      var n := |steps| - 1;
      var b := Run(Start(persistence), steps[..n]);
      CountersMean(persistence, steps[..n]);
      if Enabled(b, steps[n]) {
        CountersMove(b, steps[n]);
      }
    }
  }

  lemma CountersMove(b: Bus, step: Step)
    requires Enabled(b, step)
    ensures var after := Took(b, step);
      && after.eventsDelivered == b.eventsDelivered + (if step.CallbackDone? && step.ok then 1 else 0)
      && after.callbackErrors == b.callbackErrors + (if step.CallbackDone? && !step.ok then 1 else 0)
      && after.eventsPublished == b.eventsPublished + (if step.Fanout? then 1 else 0)
      && FanoutCount(after.trail) == FanoutCount(b.trail) + (if step.Fanout? then 1 else 0)
      && after.persistenceErrors == b.persistenceErrors + (if step.PersistFail? then 1 else 0)
      && |after.failed| == |b.failed| + (if step.PersistFail? then 1 else 0)
  {
    if step.Fanout? {
      TrailAppend(b.trail, FannedOut(b.publishes[step.p].event, b.publishes[step.p].Logged?));
    } else if step.CancelPublish? && b.publishes[step.p].Logged? {
      TrailAppend(b.trail, Abandoned(b.publishes[step.p].event));
    }
  }

  /** A consumer takes the oldest event of its queue in hand, and lets go of it when the
      callback is done. */
  lemma ConsumerSteps(b: Bus, i: nat, ok: bool)
    ensures Enabled(b, Get(i)) ==>
              && b.subs[i].queue != [] && b.subs[i].handling == None
              && Took(b, Get(i)).subs[i].handling == Some(b.subs[i].queue[0])
              && Took(b, Get(i)).subs[i].queue == b.subs[i].queue[1..]
              && Enabled(Took(b, Get(i)), CallbackDone(i, ok))
    ensures Enabled(b, CallbackDone(i, ok)) ==>
              && Took(b, CallbackDone(i, ok)).subs[i] == b.subs[i].(handling := None)
    ensures forall j :: 0 <= j < |b.subs| && j != i ==>
              && (Enabled(b, Get(i)) ==> Took(b, Get(i)).subs[j] == b.subs[j])
              && (Enabled(b, CallbackDone(i, ok)) ==> Took(b, CallbackDone(i, ok)).subs[j] == b.subs[j])
              && (Enabled(b, Unsubscribe(i)) ==> Took(b, Unsubscribe(i)).subs[j] == b.subs[j])
  {
  }

  // ----- beginning and ending -----

  /** From initialization to shutdown publishes begin; before and after, none does. */
  lemma OpenAndClosed(b: Bus, e: Event)
    ensures Enabled(Took(b, Initialize), Begin(e)) && !Enabled(Took(b, Close), Begin(e))
    ensures !Start(b.persistence).initialized
    ensures Enabled(b, Begin(e)) ==> Took(b, Begin(e)) == b.(publishes := b.publishes + [InBefore(e)])
  {
  }

  /** Only initialization and shutdown change which of the two it is. */
  lemma {:induction false} OpenUntilClosed(b: Bus, steps: seq<Step>)
    requires forall k :: 0 <= k < |steps| ==> steps[k] != Initialize && steps[k] != Close
    ensures Run(b, steps).initialized == b.initialized
    decreases |steps|
  {
    if steps != [] {
      var n := |steps| - 1;
      assert forall k :: 0 <= k < n ==> steps[..n][k] == steps[k];
      OpenUntilClosed(b, steps[..n]);
    }
  }

  /** The last middleware ends a publish and changes nothing else; so does a cancellation, but
      for a publish that is logged, whose event is then abandoned. */
  lemma PublishEnds(b: Bus, p: nat)
    ensures Enabled(b, Finish(p)) ==> Took(b, Finish(p)) == b.(publishes := b.publishes[p := Ended])
    ensures Enabled(b, CancelPublish(p)) ==>
              && Took(b, CancelPublish(p)).publishes == b.publishes[p := Ended]
              && Took(b, CancelPublish(p)).log == b.log
              && Took(b, CancelPublish(p)).trail
                 == b.trail + (if b.publishes[p].Logged? then [Abandoned(b.publishes[p].event)] else [])
  {
  }

  /** A consumer that was cancelled, by shutdown or by unsubscribing, can stop; and only such a
      one can. */
  lemma CancelledCanStop(b: Bus, i: nat)
    ensures Enabled(b, CancelConsumer(i)) ==> Enabled(Took(b, CancelConsumer(i)), Stop(i))
    ensures Enabled(b, Unsubscribe(i)) ==> Enabled(Took(b, Unsubscribe(i)), Stop(i))
    ensures i < |b.subs| && !b.subs[i].cancelled ==> !Enabled(b, Stop(i))
    ensures Enabled(b, Stop(i)) ==> Took(b, Stop(i)).subs[i].handling == None
  {
  }

  /** Once stopped, it takes no event any more, whatever happens. */
  lemma {:induction false} StoppedTakesNothing(b: Bus, i: nat, steps: seq<Step>)
    requires Enabled(b, Stop(i))
    ensures var after := Run(Took(b, Stop(i)), steps);
      && i < |after.subs| && after.subs[i].stopped && after.subs[i].handling == None
      && !Enabled(after, Get(i)) && !Enabled(after, CallbackDone(i, true)) && !Enabled(after, CallbackDone(i, false))
    decreases |steps|
  {
    if steps != [] {
      StoppedTakesNothing(b, i, steps[..|steps| - 1]);
      StaysStopped(Run(Took(b, Stop(i)), steps[..|steps| - 1]), steps[|steps| - 1], i);
    }
  }

  lemma StaysStopped(b: Bus, step: Step, i: nat)
    requires i < |b.subs| && b.subs[i].stopped && b.subs[i].handling == None
    ensures i < |Next(b, step).subs| && Next(b, step).subs[i].stopped && Next(b, step).subs[i].handling == None
  {
  }
}
