/**
 The fan-out dispatcher as an object: subscription lists changed in place, and the loop
 that offers one event to every matching subscriber's bounded queue.
 */
module BusFanout {
  import opened SharedTypes
  import opened BusProtocol

  /** A subscription with its bounded queue and the state of its consumer task: the event
      whose callback is running, and whether the task was cancelled or has ended. */
  class Subscription {
    const eventType: string
    const callback: nat
    const capacity: int
    var queue: seq<Event>
    var handling: Option<Event>
    var taskCancelled: bool
    var taskStopped: bool

    constructor (eventType: string, callback: nat, capacity: int)
      ensures this.eventType == eventType && this.callback == callback && this.capacity == capacity
      ensures queue == [] && handling == None && !taskCancelled && !taskStopped
    {
      this.eventType, this.callback, this.capacity := eventType, callback, capacity;
      queue, handling, taskCancelled, taskStopped := [], None, false, false;
    }
  }

  predicate NoRepeats(subs: seq<Subscription>) {
    forall i, j :: 0 <= i < j < |subs| ==> subs[i] != subs[j]
  }

  /** Drops counted when the event is offered to the listed queues. */
  ghost function QueueDrops(subs: seq<Subscription>, e: Event): nat
    reads subs
  {
    if subs == [] then 0
    else
      var s := subs[|subs| - 1];
      var o := Offer(s.queue, s.capacity, e);
      QueueDrops(subs[..|subs| - 1], e) + |o.dropped| + (if o.accepted then 0 else 1)
  }

  ghost predicate Listed(subs: seq<Subscription>, topic: string) {
    NoRepeats(subs) && forall s :: s in subs ==> s.eventType == topic
  }

  /** Position of the first subscription with the callback, or the length. */
  function FirstWith(subs: seq<Subscription>, callback: nat): (i: nat)
    ensures i <= |subs|
    ensures i < |subs| ==> subs[i].callback == callback
    ensures forall j :: 0 <= j < i ==> subs[j].callback != callback
  {
    if subs == [] || subs[0].callback == callback then 0 else 1 + FirstWith(subs[1..], callback)
  }

  function Without(subs: seq<Subscription>, i: nat): seq<Subscription> {
    if i < |subs| then subs[..i] + subs[i + 1..] else subs
  }

  lemma WithoutKeeps(subs: seq<Subscription>, i: nat)
    requires NoRepeats(subs)
    ensures NoRepeats(Without(subs, i))
    ensures forall s :: s in Without(subs, i) ==> s in subs
  {
  }

  lemma PrefixStep(subs: seq<Subscription>, k: nat)
    requires k <= |subs|
    ensures k < |subs| ==> subs[..k + 1][..k] == subs[..k]
    ensures k == |subs| ==> subs[..k] == subs
  {
  }

  lemma ConcatNoRepeats(x: seq<Subscription>, y: seq<Subscription>)
    requires NoRepeats(x) && NoRepeats(y) && forall s :: s in x ==> s !in y
    ensures NoRepeats(x + y)
  {
    assert forall i :: 0 <= i < |x| ==> x[i] in x;
    assert forall j :: 0 <= j < |y| ==> y[j] in y;
  }

  /** One turn of the fanout loop. */
  method OfferTo(sub: Subscription, event: Event) returns (drops: nat)
    modifies sub`queue
    ensures var o := Offer(old(sub.queue), sub.capacity, event);
            sub.queue == o.queue && drops == |o.dropped| + (if o.accepted then 0 else 1)
  {
    drops := 0;
    if Full(sub.queue, sub.capacity) {
      sub.queue := sub.queue[1..];
      drops := drops + 1;
    }
    if Full(sub.queue, sub.capacity) {
      drops := drops + 1;
    } else {
      sub.queue := sub.queue + [event];
    }
  }

  /** The fanout loop. */
  method OfferAll(targets: seq<Subscription>, event: Event) returns (drops: nat)
    requires NoRepeats(targets)
    modifies (set s | s in targets)`queue
    ensures forall s :: s in targets ==> s.queue == Offer(old(s.queue), s.capacity, event).queue
    ensures drops == old(QueueDrops(targets, event))
  {
    drops := 0;
    ghost var before := seq(|targets|, i requires 0 <= i < |targets| reads targets => targets[i].queue);
    for k := 0 to |targets|
      invariant forall j :: 0 <= j < k ==> targets[j].queue == Offer(before[j], targets[j].capacity, event).queue
      invariant forall j :: k <= j < |targets| ==> targets[j].queue == before[j]
      invariant drops == old(QueueDrops(targets[..k], event))
    {
      PrefixStep(targets, k);
      var dropped := OfferTo(targets[k], event);
      drops := drops + dropped;
    }
    PrefixStep(targets, |targets|);
  }

  class TopicFanout {
    var subscriptions: map<string, seq<Subscription>>
    var wildcard: seq<Subscription>

    /** The list a topic's subscriptions are kept in. */
    function ListFor(topic: string): seq<Subscription>
      reads this
    {
      if topic == WILDCARD then wildcard
      else if topic in subscriptions then subscriptions[topic]
      else []
    }

    /** Every list holds subscriptions of its own topic, each once. */
    ghost predicate Valid()
      reads this
    {
      WILDCARD !in subscriptions && forall topic :: Listed(ListFor(topic), topic)
    }

    /** The subscriptions an event is offered to, in order. */
    function Targets(e: Event): seq<Subscription>
      reads this
    {
      (if e.eventType in subscriptions then subscriptions[e.eventType] else []) + wildcard
    }

    constructor ()
      ensures Valid() && forall topic :: ListFor(topic) == []
    {
      subscriptions, wildcard := map[], [];
    }

    method AddSubscriber(entry: Subscription)
      requires Valid() && entry !in ListFor(entry.eventType)
      modifies this
      ensures Valid()
      ensures forall topic :: ListFor(topic) ==
                if topic == entry.eventType then old(ListFor(topic)) + [entry] else old(ListFor(topic))
    {
      assert Listed(ListFor(entry.eventType), entry.eventType);
      SetList(entry.eventType, ListFor(entry.eventType) + [entry]);
    }

    /** Cancels and removes the first subscription of the topic with the callback, if any. */
    method RemoveSubscriber(topic: string, callback: nat)
      requires Valid()
      modifies this, (set s | s in ListFor(topic))`taskCancelled
      ensures Valid()
      ensures var subs := old(ListFor(topic)); var i := FirstWith(subs, callback);
        && (forall t :: ListFor(t) == if t == topic then Without(subs, i) else old(ListFor(t)))
        && (i < |subs| ==> subs[i].taskCancelled)
        && (forall s :: s in subs && (i == |subs| || s != subs[i]) ==> s.taskCancelled == old(s.taskCancelled))
    {
      var subs := ListFor(topic);
      ghost var first := FirstWith(subs, callback);
      assert Listed(subs, topic);
      for k := 0 to |subs|
        invariant k <= first
      {
        var sub := subs[k];
        if sub.callback == callback {
          assert k == first;
          if !sub.taskCancelled {
            sub.taskCancelled := true;
          }
          WithoutKeeps(subs, k);
          SetList(topic, Without(subs, k));
          return;
        }
      }
    }

    method SetList(topic: string, subs: seq<Subscription>)
      requires Valid() && Listed(subs, topic)
      modifies this
      ensures Valid()
      ensures forall t :: ListFor(t) == if t == topic then subs else old(ListFor(t))
    {
      if topic == WILDCARD {
        wildcard := subs;
      } else {
        subscriptions := subscriptions[topic := subs];
      }
      forall t ensures ListFor(t) == if t == topic then subs else old(ListFor(t)) {
      }
      forall t ensures Listed(ListFor(t), t) {
        assert Listed(old(ListFor(t)), t);
      }
    }

    /** Offers the event to every target's queue and returns the number of events dropped.
        Nothing but the queues of the targets changes. */
    method Fanout(event: Event) returns (drops: nat)
      requires Valid()
      modifies (set s | s in Targets(event))`queue
      ensures forall s :: s in Targets(event) ==> s.queue == Offer(old(s.queue), s.capacity, event).queue
      ensures drops == old(QueueDrops(Targets(event), event))
    {
      TargetsNoRepeats(event);
      drops := OfferAll(Targets(event), event);
    }

    lemma TargetsNoRepeats(e: Event)
      requires Valid()
      ensures NoRepeats(Targets(e))
    {
      assert Listed(ListFor(e.eventType), e.eventType) && Listed(ListFor(WILDCARD), WILDCARD);
      if e.eventType in subscriptions {
        ConcatNoRepeats(subscriptions[e.eventType], wildcard);
      }
    }

    /** An event reaches exactly the listed subscriptions to its type and to everything. */
    lemma TargetsMatch(e: Event, s: Subscription)
      requires Valid()
      ensures s in Targets(e) <==>
        s in ListFor(s.eventType) && (s.eventType == WILDCARD || s.eventType == e.eventType)
    {
      assert Listed(ListFor(e.eventType), e.eventType) && Listed(ListFor(WILDCARD), WILDCARD);
      assert s in Targets(e) <==> (e.eventType in subscriptions && s in subscriptions[e.eventType]) || s in wildcard;
    }
  }
}
