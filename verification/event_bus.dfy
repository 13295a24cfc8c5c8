/**
 The event bus as an object over real subscriptions. Each method is one stretch of a
 coroutine between two awaits, and is proved to be the step of `BusProtocol` it stands for.
 */
module EventBusObject {
  import opened SharedTypes
  import opened BusProtocol
  import opened BusFanout

  /** The object is in the state that the protocol says. */
  ghost predicate Tied(o: Subscription, s: Sub)
    reads o
  {
    && o.eventType == s.eventType && o.callback == s.callback && o.capacity == s.capacity
    && o.queue == s.queue && o.handling == s.handling
    && o.taskCancelled == s.cancelled && o.taskStopped == s.stopped
  }

  /** The live subscriptions to a topic, in the order they were made. */
  ghost function LiveOf(made: seq<Subscription>, subs: seq<Sub>, topic: string): seq<Subscription>
    requires |made| == |subs|
  {
    if made == [] then []
    else
      var n := |made| - 1;
      LiveOf(made[..n], subs[..n], topic)
      + (if subs[n].live && subs[n].eventType == topic then [made[n]] else [])
  }

  lemma {:induction false} LiveOfMembers(made: seq<Subscription>, subs: seq<Sub>, topic: string)
    requires |made| == |subs|
    ensures forall o :: o in LiveOf(made, subs, topic) <==>
              exists i :: 0 <= i < |made| && made[i] == o && subs[i].live && subs[i].eventType == topic
    decreases |made|
  {
    if made != [] {
      var n := |made| - 1;
      LiveOfMembers(made[..n], subs[..n], topic);
      forall o ensures o in LiveOf(made, subs, topic) <==>
        exists i :: 0 <= i < |made| && made[i] == o && subs[i].live && subs[i].eventType == topic
      {
        if i :| 0 <= i < |made| && made[i] == o && subs[i].live && subs[i].eventType == topic {
          if i < n {
            assert made[..n][i] == o && subs[..n][i] == subs[i];
          }
        }
        if i :| 0 <= i < n && made[..n][i] == o && subs[..n][i].live && subs[..n][i].eventType == topic {
          assert made[i] == o && subs[i].live;
        }
      }
    }
  }

  lemma {:induction false} LiveOfSame(made: seq<Subscription>, subs: seq<Sub>, subs': seq<Sub>, topic: string)
    requires |made| == |subs| == |subs'|
    requires forall i :: 0 <= i < |subs| ==> subs'[i].live == subs[i].live && subs'[i].eventType == subs[i].eventType
    ensures LiveOf(made, subs', topic) == LiveOf(made, subs, topic)
    decreases |made|
  {
    if made != [] {
      var n := |made| - 1;
      LiveOfSame(made[..n], subs[..n], subs'[..n], topic);
    }
  }

  lemma LiveOfAppend(made: seq<Subscription>, subs: seq<Sub>, o: Subscription, s: Sub, topic: string)
    requires |made| == |subs|
    ensures LiveOf(made + [o], subs + [s], topic) ==
            LiveOf(made, subs, topic) + (if s.live && s.eventType == topic then [o] else [])
  {
    assert (made + [o])[..|made|] == made && (subs + [s])[..|subs|] == subs;
  }

  /** Position of the first live subscription with the topic and callback, or the length. */
  ghost function FirstLive(subs: seq<Sub>, topic: string, callback: nat): (i: nat)
    ensures i <= |subs|
    ensures i < |subs| ==> subs[i].live && subs[i].eventType == topic && subs[i].callback == callback
    ensures forall j :: 0 <= j < i ==> !(subs[j].live && subs[j].eventType == topic && subs[j].callback == callback)
  {
    if subs == [] then 0
    else
      var n := |subs| - 1;
      var i := FirstLive(subs[..n], topic, callback);
      if i < n then i
      else if subs[n].live && subs[n].eventType == topic && subs[n].callback == callback then n
      else n + 1
  }

  lemma FirstLiveIsFirst(subs: seq<Sub>, topic: string, callback: nat)
    ensures var i := FirstLive(subs, topic, callback); i < |subs| ==> IsFirst(subs, i)
  {
  }

  lemma {:induction false} FirstWithAppend(l: seq<Subscription>, o: Subscription, callback: nat)
    ensures FirstWith(l + [o], callback) ==
            if FirstWith(l, callback) < |l| then FirstWith(l, callback)
            else if o.callback == callback then |l| else |l| + 1
  {
    if l == [] {
      assert FirstWith([o], callback) == if o.callback == callback then 0 else 1 by {
        assert [o][1..] == [];
      }
    } else {
      FirstWithAppend(l[1..], o, callback);
      assert (l + [o])[1..] == l[1..] + [o];
    }
  }

  function Dead(s: Sub): Sub {
    s.(live := false, cancelled := true)
  }

  lemma WithoutAppend(l: seq<Subscription>, x: seq<Subscription>, k: nat)
    requires k < |l|
    ensures Without(l + x, k) == Without(l, k) + x
  {
  }

  /** Removing the first list entry with the callback is ending the first live subscription. */
  lemma {:induction false} RemovalIsFirst(made: seq<Subscription>, subs: seq<Sub>, topic: string, callback: nat)
    requires |made| == |subs|
    requires forall i :: 0 <= i < |made| ==> made[i].callback == subs[i].callback
    ensures var l := LiveOf(made, subs, topic);
      var k, i := FirstWith(l, callback), FirstLive(subs, topic, callback);
      && (k < |l| <==> i < |subs|)
      && (k < |l| ==> l[k] == made[i] && LiveOf(made, subs[i := Dead(subs[i])], topic) == Without(l, k))
    decreases |made|
  {
    if made != [] {
      var n := |made| - 1;
      var l0 := LiveOf(made[..n], subs[..n], topic);
      var x := if subs[n].live && subs[n].eventType == topic then [made[n]] else [];
      assert LiveOf(made, subs, topic) == l0 + x;
      RemovalIsFirst(made[..n], subs[..n], topic, callback);
      FirstWithAppend(l0, made[n], callback);
      assert l0 + [] == l0;
      var i, k := FirstLive(subs, topic, callback), FirstWith(l0, callback);
      if i < n {
        var subs' := subs[i := Dead(subs[i])];
        assert subs'[..n] == subs[..n][i := Dead(subs[i])] && subs'[n] == subs[n];
        WithoutAppend(l0, x, k);
      } else if i == n {
        assert subs[i := Dead(subs[i])][..n] == subs[..n];
        assert Without(l0 + [made[n]], |l0|) == l0;
      }
    }
  }

  lemma {:induction false} OtherTopics(made: seq<Subscription>, subs: seq<Sub>, i: nat, topic: string)
    requires |made| == |subs| && i < |subs| && subs[i].eventType != topic
    ensures LiveOf(made, subs[i := Dead(subs[i])], topic) == LiveOf(made, subs, topic)
    decreases |made|
  {
    var n := |made| - 1;
    if i < n {
      OtherTopics(made[..n], subs[..n], i, topic);
      assert subs[i := Dead(subs[i])][..n] == subs[..n][i := Dead(subs[i])];
    } else {
      assert subs[i := Dead(subs[i])][..n] == subs[..n];
    }
  }

  // ----- drops -----

  ghost predicate AllTied(made: seq<Subscription>, subs: seq<Sub>)
    reads made
  {
    |made| == |subs| && forall i :: 0 <= i < |made| ==> Tied(made[i], subs[i])
  }

  lemma {:induction false} QueueDropsConcat(x: seq<Subscription>, y: seq<Subscription>, e: Event)
    ensures QueueDrops(x + y, e) == QueueDrops(x, e) + QueueDrops(y, e)
    decreases |y|
  {
    if y == [] {
      assert x + y == x;
    } else {
      QueueDropsConcat(x, y[..|y| - 1], e);
      assert (x + y)[..|x + y| - 1] == x + y[..|y| - 1];
    }
  }

  /** Both ways of reaching a subscription's queue, by topic and as a wildcard. */
  ghost function Reached(made: seq<Subscription>, subs: seq<Sub>, e: Event): seq<Subscription>
    requires |made| == |subs|
  {
    (if e.eventType == WILDCARD then [] else LiveOf(made, subs, e.eventType)) + LiveOf(made, subs, WILDCARD)
  }

  /** Drops counted when the event is offered to one queue. */
  ghost function OneDrop(s: Sub, e: Event): nat {
    var o := Offer(s.queue, s.capacity, e);
    |o.dropped| + (if o.accepted then 0 else 1)
  }

  lemma LiveDropsStep(made: seq<Subscription>, subs: seq<Sub>, topic: string, e: Event)
    requires AllTied(made, subs) && made != []
    ensures var n := |made| - 1;
      QueueDrops(LiveOf(made, subs, topic), e) == QueueDrops(LiveOf(made[..n], subs[..n], topic), e)
        + (if subs[n].live && subs[n].eventType == topic then OneDrop(subs[n], e) else 0)
  {
    var n := |made| - 1;
    var l0 := LiveOf(made[..n], subs[..n], topic);
    assert Tied(made[n], subs[n]);
    QueueDropsConcat(l0, [made[n]], e);
    OneQueueDrops(made[n], e);
    assert l0 + [] == l0;
  }

  lemma {:induction false} DropsAgree(made: seq<Subscription>, subs: seq<Sub>, e: Event)
    requires AllTied(made, subs)
    ensures QueueDrops(LiveOf(made, subs, WILDCARD), e)
            + (if e.eventType == WILDCARD then 0 else QueueDrops(LiveOf(made, subs, e.eventType), e))
            == Drops(subs, e)
    decreases |made|
  {
    if made != [] {
      var n := |made| - 1;
      assert AllTied(made[..n], subs[..n]);
      DropsAgree(made[..n], subs[..n], e);
      LiveDropsStep(made, subs, WILDCARD, e);
      LiveDropsStep(made, subs, e.eventType, e);
      DropsLast(subs, e);
    }
  }

  lemma DropsLast(subs: seq<Sub>, e: Event)
    requires subs != []
    ensures var n := |subs| - 1;
      Drops(subs, e) == Drops(subs[..n], e) + (if Matches(subs[n], e) then OneDrop(subs[n], e) else 0)
  {
  }

  lemma ReachedDrops(made: seq<Subscription>, subs: seq<Sub>, e: Event)
    requires AllTied(made, subs)
    ensures QueueDrops(Reached(made, subs, e), e) == Drops(subs, e)
  {
    DropsAgree(made, subs, e);
    QueueDropsConcat(if e.eventType == WILDCARD then [] else LiveOf(made, subs, e.eventType),
                     LiveOf(made, subs, WILDCARD), e);
  }

  lemma OneQueueDrops(o: Subscription, e: Event)
    ensures var offered := Offer(o.queue, o.capacity, e);
            QueueDrops([o], e) == |offered.dropped| + (if offered.accepted then 0 else 1)
  {
    assert [o][..0] == [];
    assert QueueDrops([], e) == 0;
  }

  /** The subscriptions reached are those that match. */
  lemma ReachedMatch(made: seq<Subscription>, subs: seq<Sub>, e: Event)
    requires |made| == |subs| && NoRepeats(made)
    ensures forall i :: 0 <= i < |made| ==> (made[i] in Reached(made, subs, e) <==> Matches(subs[i], e))
    ensures forall o :: o in Reached(made, subs, e) ==> o in made
  {
    LiveOfMembers(made, subs, e.eventType);
    LiveOfMembers(made, subs, WILDCARD);
    LiveAreMade(made, subs, e.eventType);
    LiveAreMade(made, subs, WILDCARD);
  }

  lemma {:induction false} LiveAreMade(made: seq<Subscription>, subs: seq<Sub>, topic: string)
    requires |made| == |subs|
    ensures forall o :: o in LiveOf(made, subs, topic) ==> o in made
    decreases |made|
  {
    if made != [] {
      var n := |made| - 1;
      LiveAreMade(made[..n], subs[..n], topic);
    }
  }

  lemma OnlyOnce(made: seq<Subscription>, i: nat)
    requires NoRepeats(made) && i < |made|
    ensures forall j :: 0 <= j < |made| && j != i ==> made[j] != made[i]
  {
  }

  class EventBus {
    const persistenceEnabled: bool
    const fanout: TopicFanout
    var initialized: bool
    var eventsPublished: nat
    var eventsDelivered: nat
    var eventsDropped: nat
    var persistenceErrors: nat

    /** The calls of `publish` in progress, as the stretch of code each is waiting in. */
    var publishes: seq<Phase>

    /** Every subscription ever made, and what the protocol says of it. */
    ghost var made: seq<Subscription>
    ghost var subs: seq<Sub>

    ghost var log: seq<Event>
    ghost var failed: seq<Event>
    ghost var trail: seq<Outcome>
    ghost var callbackErrors: nat
    ghost var interrupted: nat

    ghost function State(): Bus
      reads this
    {
      Bus(persistenceEnabled, initialized, publishes, subs, log, failed, trail,
          eventsPublished, eventsDelivered, eventsDropped, persistenceErrors, callbackErrors, interrupted)
    }

    ghost predicate Valid()
      reads this, fanout, made
    {
      && fanout.Valid() && NoRepeats(made) && AllTied(made, subs)
      && forall topic :: fanout.ListFor(topic) == LiveOf(made, subs, topic)
    }

    constructor (persistenceEnabled: bool)
      ensures Valid() && State() == Start(persistenceEnabled) && fresh(fanout)
    {
      this.persistenceEnabled := persistenceEnabled;
      fanout := new TopicFanout();
      initialized := false;
      eventsPublished, eventsDelivered, eventsDropped, persistenceErrors := 0, 0, 0, 0;
      publishes, made, subs, log, failed, trail := [], [], [], [], [], [];
      callbackErrors, interrupted := 0, 0;
    }

    method Initializes()
      requires Valid()
      modifies this`initialized
      ensures Valid() && State() == Took(old(State()), Initialize)
    {
      initialized := true;
    }

    /** The last stretch of `shutdown`, after the consumers were cancelled one by one. */
    method Closes()
      requires Valid()
      modifies this`initialized
      ensures Valid() && State() == Took(old(State()), Close)
    {
      initialized := false;
    }

    /** Entry of `publish`; refused before initialization and after shutdown. */
    method PublishBegins(event: Event) returns (accepted: bool)
      requires Valid()
      modifies this
      ensures Valid() && accepted == old(initialized)
      ensures State() == Next(old(State()), Begin(event))
    {
      if !initialized {
        return false;
      }
      publishes := publishes + [InBefore(event)];
      accepted := true;
    }

    /** The middleware chain has returned: an event, or nothing. */
    method MiddlewareReturns(p: nat, processed: Option<Event>)
      requires Valid() && Enabled(State(), Middleware(p, processed))
      modifies this
      ensures Valid() && State() == Took(old(State()), Middleware(p, processed))
    {
      match processed {
        case None => publishes := publishes[p := Ended];
        case Some(e) => publishes := publishes[p := if persistenceEnabled then InPersist(e) else Unpersisted(e)];
      }
    }

    /** The persist has returned or raised; a failure is counted and does not stop the publish. */
    method PersistReturns(p: nat, ok: bool)
      requires Valid() && Enabled(State(), PersistOk(p))
      modifies this
      ensures Valid() && State() == Took(old(State()), if ok then PersistOk(p) else PersistFail(p))
    {
      var e := publishes[p].event;
      if ok {
        log := log + [e];
        publishes := publishes[p := Logged(e)];
      } else {
        persistenceErrors := persistenceErrors + 1;
        failed := failed + [e];
        publishes := publishes[p := PersistFailed(e)];
      }
    }

    /** Fanout and the counters, one stretch without an await. */
    method FansOut(p: nat)
      requires Valid() && Enabled(State(), Fanout(p))
      modifies this, made
      ensures Valid() && State() == Took(old(State()), Fanout(p))
    {
      ghost var before := subs;
      var drops := OffersToAll(publishes[p].event);
      CountsFanout(p, drops);
      ListsKept(before);
    }

    method CountsFanout(p: nat, drops: nat)
      requires Enabled(State(), Fanout(p)) && drops == Drops(subs, publishes[p].event)
      modifies this`eventsDropped, this`eventsPublished, this`publishes, this`subs, this`trail
      ensures State() == Took(old(State()), Fanout(p))
      ensures subs == FanToAll(old(subs), old(publishes[p].event), |old(trail)| + 1)
    {
      var e := publishes[p].event;
      eventsDropped := eventsDropped + drops;
      eventsPublished := eventsPublished + 1;
      subs := FanToAll(subs, e, |trail| + 1);
      trail := trail + [FannedOut(e, publishes[p].Logged?)];
      publishes := publishes[p := InAfter];
    }

    lemma ListsKept(before: seq<Sub>)
      requires |made| == |before| == |subs|
      requires forall i :: 0 <= i < |subs| ==>
                 subs[i].live == before[i].live && subs[i].eventType == before[i].eventType
      requires forall topic :: fanout.ListFor(topic) == LiveOf(made, before, topic)
      ensures forall topic :: fanout.ListFor(topic) == LiveOf(made, subs, topic)
    {
      forall topic ensures fanout.ListFor(topic) == LiveOf(made, subs, topic) {
        LiveOfSame(made, before, subs, topic);
      }
    }

    /** The dispatcher's fanout seen from all subscriptions: every queue is as the protocol says. */
    method OffersToAll(e: Event) returns (drops: nat)
      requires Valid()
      modifies made
      ensures drops == Drops(subs, e)
      ensures forall i, now :: 0 <= i < |made| ==> Tied(made[i], FanToOne(subs[i], e, now))
    {
      ReachedMatch(made, subs, e);
      ReachedDrops(made, subs, e);
      TargetsAreReached(e);
      drops := fanout.Fanout(e);
      forall i, now | 0 <= i < |made| ensures Tied(made[i], FanToOne(subs[i], e, now)) {
        assert old(Tied(made[i], subs[i]));
        if !Matches(subs[i], e) {
          assert made[i].queue == old(made[i].queue);
        }
      }
    }

    lemma TargetsAreReached(e: Event)
      requires Valid()
      ensures fanout.Targets(e) == Reached(made, subs, e)
    {
      assert fanout.ListFor(e.eventType) == LiveOf(made, subs, e.eventType);
      assert fanout.ListFor(WILDCARD) == LiveOf(made, subs, WILDCARD);
    }

    method PublishReturns(p: nat)
      requires Valid() && Enabled(State(), Finish(p))
      modifies this
      ensures Valid() && State() == Took(old(State()), Finish(p))
    {
      publishes := publishes[p := Ended];
    }

    method Subscribes(eventType: string, callback: nat, queueSize: int) returns (sub: Subscription)
      requires Valid()
      modifies this, fanout
      ensures Valid() && State() == Took(old(State()), Subscribe(eventType, callback, queueSize))
      ensures fresh(sub) && made == old(made) + [sub]
    {
      sub := new Subscription(eventType, callback, queueSize);
      LiveAreMade(made, subs, eventType);
      assert fanout.ListFor(eventType) == LiveOf(made, subs, eventType);
      fanout.AddSubscriber(sub);
      Records(sub);
    }

    /** The new subscription joins those made. */
    ghost method Records(sub: Subscription)
      requires fanout.Valid() && NoRepeats(made) && sub !in made && AllTied(made, subs)
      requires sub.queue == [] && sub.handling == None && !sub.taskCancelled && !sub.taskStopped
      requires forall topic :: fanout.ListFor(topic) ==
                 LiveOf(made, subs, topic) + (if topic == sub.eventType then [sub] else [])
      modifies this`made, this`subs
      ensures Valid() && made == old(made) + [sub]
      ensures State() == Took(old(State()), Subscribe(sub.eventType, sub.callback, sub.capacity))
    {
      var s := Sub(sub.eventType, sub.callback, sub.capacity, [], None, true, false, false, |trail|, |trail|, [], []);
      forall topic ensures fanout.ListFor(topic) == LiveOf(made + [sub], subs + [s], topic) {
        LiveOfAppend(made, subs, sub, s, topic);
      }
      made := made + [sub];
      subs := subs + [s];
    }

    /** Ends the first live subscription of the topic with the callback, if there is one. */
    method Unsubscribes(topic: string, callback: nat)
      requires Valid()
      modifies this`subs, fanout, made`taskCancelled
      ensures Valid()
      ensures var i := FirstLive(old(subs), topic, callback);
        State() == if i < |old(subs)| then Took(old(State()), Unsubscribe(i)) else old(State())
      ensures var i := FirstLive(old(subs), topic, callback);
        i < |old(subs)| ==> Enabled(old(State()), Unsubscribe(i))
    {
      ghost var i := FirstLive(subs, topic, callback);
      FirstOfTopic(topic, callback);
      Removes(topic, callback, i);
      if i < |subs| {
        Ends(i, topic);
      }
    }

    /** The dispatcher's part of it. */
    method Removes(topic: string, callback: nat, ghost i: nat)
      requires Valid() && i <= |subs| == |made| && (forall o :: o in fanout.ListFor(topic) ==> o in made)
      requires var l := fanout.ListFor(topic); var k := FirstWith(l, callback);
        && (k < |l| <==> i < |subs|)
        && (k < |l| ==> l[k] == made[i] && LiveOf(made, subs[i := Dead(subs[i])], topic) == Without(l, k))
      modifies fanout, made`taskCancelled
      ensures fanout.Valid() && i <= |subs| == |made|
      ensures i == |subs| ==> Valid()
      ensures i < |subs| ==>
                && Tied(made[i], Dead(subs[i])) && (forall j :: 0 <= j < |made| && j != i ==> Tied(made[j], subs[j]))
                && forall t :: fanout.ListFor(t) ==
                     if t == topic then LiveOf(made, subs[i := Dead(subs[i])], t) else LiveOf(made, subs, t)
    {
      if i < |subs| {
        OnlyOnce(made, i);
      }
      ghost var l, k := fanout.ListFor(topic), FirstWith(fanout.ListFor(topic), callback);
      fanout.RemoveSubscriber(topic, callback);
      assert i == |subs| ==> Without(l, k) == l;
    }

    /** The entry that the dispatcher finds by callback is the one the protocol ends. */
    lemma FirstOfTopic(topic: string, callback: nat)
      requires Valid()
      ensures forall o :: o in fanout.ListFor(topic) ==> o in made
      ensures var l := fanout.ListFor(topic);
        var k, i := FirstWith(l, callback), FirstLive(subs, topic, callback);
        && (k < |l| <==> i < |subs|)
        && (k < |l| ==>
              && l[k] == made[i] && subs[i].eventType == topic && Enabled(State(), Unsubscribe(i))
              && LiveOf(made, subs[i := Dead(subs[i])], topic) == Without(l, k))
    {
      FirstLiveIsFirst(subs, topic, callback);
      assert fanout.ListFor(topic) == LiveOf(made, subs, topic);
      assert forall j :: 0 <= j < |made| ==> Tied(made[j], subs[j]);
      RemovalIsFirst(made, subs, topic, callback);
      LiveAreMade(made, subs, topic);
    }

    /** The removed subscription is dead from now on. */
    ghost method Ends(i: nat, topic: string)
      requires i < |made| == |subs| && NoRepeats(made) && fanout.Valid()
      requires subs[i].eventType == topic && Enabled(State(), Unsubscribe(i)) && Tied(made[i], Dead(subs[i]))
      requires forall j :: 0 <= j < |made| && j != i ==> Tied(made[j], subs[j])
      requires forall t :: fanout.ListFor(t) ==
                 if t == topic then LiveOf(made, subs[i := Dead(subs[i])], t) else LiveOf(made, subs, t)
      modifies this`subs
      ensures Valid() && State() == Took(old(State()), Unsubscribe(i))
    {
      forall t ensures fanout.ListFor(t) == LiveOf(made, subs[i := Dead(subs[i])], t) {
        if t != topic {
          OtherTopics(made, subs, i, t);
        }
      }
      subs := subs[i := Dead(subs[i])];
    }

    /** A consumer takes the oldest event of its queue. */
    method ConsumerGets(sub: Subscription, ghost i: nat)
      requires Valid() && Enabled(State(), Get(i)) && made[i] == sub
      modifies this`subs, sub`queue, sub`handling
      ensures Valid() && State() == Took(old(State()), Get(i))
    {
      assert Tied(sub, subs[i]);
      OnlyOnce(made, i);
      sub.handling := Some(sub.queue[0]);
      sub.queue := sub.queue[1..];
      SubChanges(i, subs[i].(queue := subs[i].queue[1..], handling := Some(subs[i].queue[0]),
                             exits := subs[i].exits + [Exit(subs[i].queue[0], true)]));
    }

    /** The callback has returned or raised. */
    method CallbackReturns(sub: Subscription, ok: bool, ghost i: nat)
      requires Valid() && Enabled(State(), CallbackDone(i, ok)) && made[i] == sub
      modifies this`eventsDelivered, this`callbackErrors, this`subs, sub`handling
      ensures Valid() && State() == Took(old(State()), CallbackDone(i, ok))
    {
      assert Tied(sub, subs[i]);
      OnlyOnce(made, i);
      sub.handling := None;
      SubChanges(i, subs[i].(handling := None));
      Counts(ok);
    }

    /** A delivery is counted; a failure is only logged. */
    method Counts(ok: bool)
      requires Valid()
      modifies this`eventsDelivered, this`callbackErrors
      ensures Valid()
      ensures State() == old(State()).(eventsDelivered := old(eventsDelivered) + (if ok then 1 else 0),
                                       callbackErrors := old(callbackErrors) + (if ok then 0 else 1))
    {
      if ok {
        eventsDelivered := eventsDelivered + 1;
      } else {
        callbackErrors := callbackErrors + 1;
      }
    }

    /** `shutdown` cancels a consumer task. */
    method CancelsConsumer(sub: Subscription, ghost i: nat)
      requires Valid() && Enabled(State(), CancelConsumer(i)) && made[i] == sub
      modifies this`subs, sub`taskCancelled
      ensures Valid() && State() == Took(old(State()), CancelConsumer(i))
    {
      assert Tied(sub, subs[i]);
      OnlyOnce(made, i);
      sub.taskCancelled := true;
      SubChanges(i, subs[i].(cancelled := true));
    }

    /** The cancelled consumer leaves its loop. */
    method ConsumerStops(sub: Subscription, ghost i: nat)
      requires Valid() && Enabled(State(), Stop(i)) && made[i] == sub
      modifies this`interrupted, this`subs, sub`handling, sub`taskStopped
      ensures Valid() && State() == Took(old(State()), Stop(i))
    {
      assert Tied(sub, subs[i]);
      OnlyOnce(made, i);
      ghost var cut := if sub.handling.Some? then 1 else 0;
      sub.handling := None;
      sub.taskStopped := true;
      SubChanges(i, subs[i].(stopped := true, handling := None));
      CountsInterrupted(cut);
    }

    ghost method CountsInterrupted(n: nat)
      requires Valid()
      modifies this`interrupted
      ensures Valid() && State() == old(State()).(interrupted := old(interrupted) + n)
    {
      interrupted := interrupted + n;
    }

    /** Records a change of one subscription that keeps it in its list. */
    ghost method SubChanges(i: nat, s: Sub)
      requires i < |made| == |subs| && NoRepeats(made) && fanout.Valid()
      requires s.live == subs[i].live && s.eventType == subs[i].eventType && Tied(made[i], s)
      requires forall j :: 0 <= j < |made| && j != i ==> Tied(made[j], subs[j])
      requires forall topic :: fanout.ListFor(topic) == LiveOf(made, subs, topic)
      modifies this`subs
      ensures Valid() && State() == old(State()).(subs := old(subs)[i := s])
    {
      forall topic ensures fanout.ListFor(topic) == LiveOf(made, subs[i := s], topic) {
        LiveOfSame(made, subs, subs[i := s], topic);
      }
      subs := subs[i := s];
    }
  }
}
