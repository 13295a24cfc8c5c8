/**
 What holds over whole runs of the cohort manager: its answers do not depend on how
 sets are iterated, promotions stay within budget, and the bounded queues refine an
 unbounded log of deferred events.
 */
module CohortRuns {
  import opened SharedTypes
  import opened Sequences
  import opened StableSort
  import opened CohortState
  import opened CohortCap

  // ----- selection by key -----

  /** Nobody outside the first `k` of a sort has a smaller key than somebody inside. */
  lemma SortedPrefix(pairs: seq<(Key, ActorId)>, k: nat, x: ActorId, y: ActorId)
    returns (p: (Key, ActorId), q: (Key, ActorId))
    requires k <= |pairs|
    requires x in Items(Sort(pairs))[..k] && y in Items(pairs) && y !in Items(Sort(pairs))[..k]
    ensures p in pairs && q in pairs && p.1 == x && q.1 == y && p.0.AtMost(q.0)
  {
    var sorted := Sort(pairs);
    var i :| 0 <= i < k && Items(sorted)[..k][i] == x;
    SortKeepsItems(pairs, y);
    var j :| 0 <= j < |sorted| && Items(sorted)[j] == y;
    p, q := sorted[i], sorted[j];
    SortAscends(pairs);
    PrefixMembers(Items(sorted), k);
    PermutedMembers(sorted, pairs);
  }

  lemma PrefixMembers(s: seq<ActorId>, k: nat)
    requires k <= |s|
    ensures forall j :: 0 <= j < k ==> s[j] in s[..k]
  {
    assert forall j :: 0 <= j < k ==> s[..k][j] == s[j];
  }

  lemma SortKeepsItems(pairs: seq<(Key, ActorId)>, y: ActorId)
    requires y in Items(pairs)
    ensures y in Items(Sort(pairs))
  {
    ItemsOfSort(pairs);
    PermutedMembers(Items(Sort(pairs)), Items(pairs));
  }

  lemma {:induction false} IndexInjective(s: seq<ActorId>, a: ActorId, b: ActorId)
    requires a in s && b in s && IndexOf(s, a) == IndexOf(s, b)
    ensures a == b
  {
    assert s[IndexOf(s, a)] == a && s[IndexOf(s, b)] == b;
  }

  lemma LruPairKeys(c: Cohort, order: seq<ActorId>)
    ensures Items(c.LruPairs(order)) == order
    ensures forall p :: p in c.LruPairs(order) ==> p.0 == c.LruKey(p.1) && p.1 in order
  {
  }

  /** The demoted actors are the least recently activated ones: everybody who stays has
      a strictly later activation, or the same one and a later place in the list. */
  lemma DemotesLeastRecent(c: Cohort, order: seq<ActorId>, gone: ActorId, kept: ActorId)
    requires c.Inv() && Enumerates(order, c.active)
    requires gone in Rotated(c, order).demoted
    requires kept in c.active && kept !in Rotated(c, order).demoted
    ensures c.LastTick(gone) < c.LastTick(kept)
            || (c.LastTick(gone) == c.LastTick(kept)
                && IndexOf(c.registered, gone) < IndexOf(c.registered, kept))
  {
    LruPairKeys(c, order);
    var p, q := SortedPrefix(c.LruPairs(order), |Rotated(c, order).demoted|, gone, kept);
    LruOrderEnumerates(c, order);
    assert gone in c.LruOrder(order);
    if c.LruKey(gone) == c.LruKey(kept) {
      IndexInjective(c.registered, gone, kept);
    }
  }

  /** They leave in that order, too: the least recently activated first. */
  lemma DemotedInOrder(c: Cohort, order: seq<ActorId>, i: nat, j: nat)
    requires c.Inv() && Enumerates(order, c.active)
    requires i < j < |Rotated(c, order).demoted|
    ensures var x, y := Rotated(c, order).demoted[i], Rotated(c, order).demoted[j];
      c.LastTick(x) < c.LastTick(y)
      || (c.LastTick(x) == c.LastTick(y) && IndexOf(c.registered, x) < IndexOf(c.registered, y))
  {
    LruPairKeys(c, order);
    var sorted := Sort(c.LruPairs(order));
    SortAscends(c.LruPairs(order));
    PermutedMembers(sorted, c.LruPairs(order));
    LruOrderEnumerates(c, order);
    var x, y := Items(sorted)[i], Items(sorted)[j];
    assert sorted[i] in sorted && sorted[j] in sorted && x != y;
    if IndexOf(c.registered, x) == IndexOf(c.registered, y) {
      IndexInjective(c.registered, x, y);
    }
  }

  lemma PressurePairKeys(c: Cohort, ids: seq<ActorId>)
    ensures Items(c.PressurePairs(ids)) == ids
    ensures forall p :: p in c.PressurePairs(ids) ==> p.0 == Key(-|c.Queue(p.1)|, IndexOf(c.registered, p.1))
  {
  }

  /** Event pressure promotes the deepest queues, ties going to the earlier registered. */
  lemma PressurePicksDeepest(c: Cohort, picked: ActorId, passed: ActorId)
    requires c.Inv() && c.config.rotationPolicy == EventPressureWeighted
    requires picked in Picks(c).0
    requires passed in c.registered && passed !in c.active && passed !in Picks(c).0
    ensures |c.Queue(picked)| > |c.Queue(passed)|
            || (|c.Queue(picked)| == |c.Queue(passed)|
                && IndexOf(c.registered, picked) < IndexOf(c.registered, passed))
  {
    var dormant := Dormant(c.registered, c.active);
    var pairs := c.PressurePairs(dormant);
    PressurePairKeys(c, dormant);
    PicksAreDormant(c);
    var p, q := SortedPrefix(pairs, |Picks(c).0|, picked, passed);
    if IndexOf(c.registered, picked) == IndexOf(c.registered, passed) {
      IndexInjective(c.registered, picked, passed);
    }
  }

  /** The deepest queue comes first. */
  lemma PressureInOrder(c: Cohort, i: nat, j: nat)
    requires c.Inv() && c.config.rotationPolicy == EventPressureWeighted && i < j < |Picks(c).0|
    ensures var x, y := Picks(c).0[i], Picks(c).0[j];
      |c.Queue(x)| > |c.Queue(y)|
      || (|c.Queue(x)| == |c.Queue(y)| && IndexOf(c.registered, x) < IndexOf(c.registered, y))
  {
    var pairs := c.PressurePairs(Dormant(c.registered, c.active));
    PressurePairKeys(c, Dormant(c.registered, c.active));
    SortAscends(pairs);
    PermutedMembers(Sort(pairs), pairs);
    PicksAreDormant(c);
    var x, y := Picks(c).0[i], Picks(c).0[j];
    assert Sort(pairs)[i] in Sort(pairs) && Sort(pairs)[j] in Sort(pairs) && x != y;
    if IndexOf(c.registered, x) == IndexOf(c.registered, y) {
      IndexInjective(c.registered, x, y);
    }
  }

  /** The longest inactive comes first. */
  lemma RecencyInOrder(c: Cohort, i: nat, j: nat)
    requires c.Inv() && c.config.rotationPolicy == Recency && i < j < |Picks(c).0|
    ensures c.LastTick(Picks(c).0[i]) <= c.LastTick(Picks(c).0[j])
  {
    var pairs := c.RecencyPairs(Dormant(c.registered, c.active));
    SortAscends(pairs);
    PermutedMembers(Sort(pairs), pairs);
    assert Sort(pairs)[i] in pairs && Sort(pairs)[j] in pairs;
    assert forall p :: p in pairs ==> p.0.major == c.LastTick(p.1);
  }

  /** Recency promotes the longest-inactive actors; the random draw only breaks ties. */
  lemma RecencyPicksOldest(c: Cohort, picked: ActorId, passed: ActorId)
    requires c.Inv() && c.config.rotationPolicy == Recency
    requires picked in Picks(c).0
    requires passed in c.registered && passed !in c.active && passed !in Picks(c).0
    ensures c.LastTick(picked) <= c.LastTick(passed)
  {
    var dormant := Dormant(c.registered, c.active);
    var pairs := c.RecencyPairs(dormant);
    assert Items(pairs) == dormant;
    PicksAreDormant(c);
    var p, q := SortedPrefix(pairs, |Picks(c).0|, picked, passed);
    assert forall p :: p in pairs ==> p.0.major == c.LastTick(p.1);
  }

  // ----- determinism -----

  lemma SamePairs(c: Cohort, order: seq<ActorId>, order': seq<ActorId>)
    requires Enumerates(order, c.active) && Enumerates(order', c.active)
    ensures multiset(c.LruPairs(order)) == multiset(c.LruPairs(order'))
  {
    var s, r := c.LruPairs(order), c.LruPairs(order');
    DistinctCounts(s);
    DistinctCounts(r);
    forall p ensures multiset(s)[p] == multiset(r)[p] {
      assert p in multiset(s) <==> p in s;
      assert p in multiset(r) <==> p in r;
      if p in s {
        assert p.1 in order';
        var j :| 0 <= j < |order'| && order'[j] == p.1;
        assert r[j] == p;
      }
      if p in r {
        assert p.1 in order;
        var j :| 0 <= j < |order| && order[j] == p.1;
        assert s[j] == p;
      }
    }
  }

  /** On every state a legal run reaches, the LRU order is the same whatever order the
      active set is iterated in, so evictions and demotions are too; and the eviction
      victim is the demotion batch of size one. */
  lemma LruIsDeterministic(c: Cohort, order: seq<ActorId>, order': seq<ActorId>)
    requires forall a :: a in c.active ==> a in c.registered
    requires Enumerates(order, c.active) && Enumerates(order', c.active)
    ensures c.LruOrder(order) == c.LruOrder(order')
    ensures Victim(c, order) == Victim(c, order')
    ensures Rotated(c, order) == Rotated(c, order')
    ensures c.active != {} ==> c.LruOrder(order)[..1] == [Victim(c, order').value]
  {
    LruPairKeys(c, order);
    var pairs := c.LruPairs(order);
    forall p, q | p in pairs && q in pairs && p.0 == q.0 ensures p == q {
      IndexInjective(c.registered, p.1, q.1);
    }
    SamePairs(c, order, order');
    SortIgnoresOrder(pairs, c.LruPairs(order'));
    EnumerationSize(order, c.active);
    EnumerationSize(order', c.active);
  }

  function Erased(op: Op): Op {
    match op
    case TryPromote(a, order) => TryPromote(a, [])
    case Rotate(order) => Rotate([])
    case _ => op
  }

  lemma SameStep(c: Cohort, op: Op, op': Op)
    requires c.Inv() && Legal(c, op) && Legal(c, op') && Erased(op) == Erased(op')
    ensures Next(c, op) == Next(c, op') && Reply(c, op) == Reply(c, op')
  {
    if op.TryPromote? || op.Rotate? {
      LruIsDeterministic(c, op.order, op'.order);
    }
  }

  /** The same calls give the same answers and end in the same state, whatever order
      sets are iterated in: the rotation history is a function of config and calls. */
  lemma {:induction false} RunsAreDeterministic(c: Cohort, ops: seq<Op>, ops': seq<Op>)
    requires c.Inv() && LegalRun(c, ops) && LegalRun(c, ops')
    requires |ops| == |ops'| && forall i :: 0 <= i < |ops| ==> Erased(ops[i]) == Erased(ops'[i])
    ensures Run(c, ops) == Run(c, ops') && Replies(c, ops) == Replies(c, ops')
    decreases |ops|
  {
    if ops != [] {
      SameStep(c, ops[0], ops'[0]);
      InvPreserved(c, ops[0]);
      RunsAreDeterministic(Next(c, ops[0]), ops[1..], ops'[1..]);
    }
  }

  // ----- promotion budget -----

  /** Promotions of dormant actors through `try_promote` during the run. */
  function Preemptions(c: Cohort, ops: seq<Op>): nat
    decreases |ops|
  {
    if ops == [] then 0
    else (if ops[0].TryPromote? && ops[0].actor !in c.active && Promoted(c, ops[0].actor, ops[0].order).promoted
          then 1 else 0) + Preemptions(Next(c, ops[0]), ops[1..])
  }

  /** Calls that open a new budget window. */
  function Windows(ops: seq<Op>): nat {
    if ops == [] then 0
    else (if ops[0].Rotate? || ops[0].Register? then 1 else 0) + Windows(ops[1..])
  }

  /** One budget for the current window and one for every window opened later. */
  function Allowance(budget: nat, ops: seq<Op>): nat {
    if ops == [] then budget
    else (if ops[0].Rotate? || ops[0].Register? then budget else 0) + Allowance(budget, ops[1..])
  }

  lemma {:induction false} AllowanceIsProduct(budget: nat, ops: seq<Op>)
    ensures Allowance(budget, ops) == budget * (1 + Windows(ops))
  {
    if ops != [] {
      AllowanceIsProduct(budget, ops[1..]);
    }
  }

  lemma {:induction false} BudgetFrom(c: Cohort, ops: seq<Op>)
    requires c.Inv() && LegalRun(c, ops)
    ensures Preemptions(c, ops) + c.promoteUsed <= Allowance(c.config.promoteBudgetPerTick, ops)
    decreases |ops|
  {
    if ops != [] {
      InvPreserved(c, ops[0]);
      BudgetStep(c, ops[0]);
      BudgetFrom(Next(c, ops[0]), ops[1..]);
    }
  }

  lemma BudgetStep(c: Cohort, op: Op)
    requires c.Inv() && Legal(c, op)
    ensures Next(c, op).config == c.config
    ensures op.Rotate? || op.Register? ==> Next(c, op).promoteUsed == 0
    ensures op.TryPromote? ==>
              Next(c, op).promoteUsed == c.promoteUsed
                + (if op.actor !in c.active && Promoted(c, op.actor, op.order).promoted then 1 else 0)
    ensures !op.Rotate? && !op.Register? && !op.TryPromote? ==> Next(c, op).promoteUsed == c.promoteUsed
  {
  }

  /** From a new manager, promotions never exceed one budget per window. */
  lemma PromotionBudget(config: Config, ops: seq<Op>)
    requires config.Valid() && LegalRun(Fresh(config), ops)
    ensures Preemptions(Fresh(config), ops) <= config.promoteBudgetPerTick * (1 + Windows(ops))
  {
    BudgetFrom(Fresh(config), ops);
    AllowanceIsProduct(config.promoteBudgetPerTick, ops);
  }

  // ----- deferred events -----

  function LastN(s: seq<QueuedEvent>, n: nat): seq<QueuedEvent> {
    if |s| <= n then s else s[|s| - n..]
  }

  /** The events deferred for `a` since its last drain or the last registration, with no
      bound: the log that the queue abstracts. */
  function Deferred(log: seq<QueuedEvent>, ops: seq<Op>, a: ActorId): seq<QueuedEvent>
    decreases |ops|
  {
    if ops == [] then log else Deferred(Logged(log, ops[0], a), ops[1..], a)
  }

  function Logged(log: seq<QueuedEvent>, op: Op, a: ActorId): seq<QueuedEvent> {
    match op
    case Register(_) => []
    case Enqueue(b, e) => if a == b then log + [e] else log
    case Drain(b) => if a == b then [] else log
    case _ => log
  }

  /** Through any mix of calls, a queue is the newest part of the unbounded log, and
      draining returns exactly that, in order. */
  lemma {:induction false} QueueRefinesLog(c: Cohort, log: seq<QueuedEvent>, ops: seq<Op>, a: ActorId)
    requires c.config.Valid() && c.Queue(a) == LastN(log, c.config.queueMaxPerNpc)
    ensures Run(c, ops).Queue(a) == LastN(Deferred(log, ops, a), c.config.queueMaxPerNpc)
    ensures Drained(Run(c, ops), a).1 == LastN(Deferred(log, ops, a), c.config.queueMaxPerNpc)
    decreases |ops|
  {
    if ops != [] {
      QueueStep(c, log, ops[0], a);
      QueueRefinesLog(Next(c, ops[0]), Logged(log, ops[0], a), ops[1..], a);
    }
  }

  lemma QueueStep(c: Cohort, log: seq<QueuedEvent>, op: Op, a: ActorId)
    requires c.config.Valid() && c.Queue(a) == LastN(log, c.config.queueMaxPerNpc)
    ensures Next(c, op).config == c.config
    ensures Next(c, op).Queue(a) == LastN(Logged(log, op, a), c.config.queueMaxPerNpc)
  {
    if op.Enqueue? {
      LastNAppend(log, op.event, c.config.queueMaxPerNpc);
      assert Next(c, op).Queue(a) == if a == op.actor then Enqueued(c, a, op.event).0.queues[a] else c.Queue(a);
    } else {
      assert Next(c, op).Queue(a) == (if op.Register? || (op.Drain? && op.actor == a) then [] else c.Queue(a));
    }
  }

  /** Appending to a bounded suffix: drop its oldest when it is full. */
  lemma LastNAppend(log: seq<QueuedEvent>, e: QueuedEvent, cap: nat)
    requires cap > 0
    ensures var q := LastN(log, cap);
            LastN(log + [e], cap) == if |q| >= cap then q[1..] + [e] else q + [e]
  {
  }

  /** Sum of the queue lengths. */
  ghost function TotalDepth(queues: map<ActorId, seq<QueuedEvent>>): nat
    decreases |queues|
  {
    if queues == map[] then 0
    else
      var a :| a in queues;
      |queues[a]| + TotalDepth(queues - {a})
  }

  lemma {:induction false} DepthWithout(queues: map<ActorId, seq<QueuedEvent>>, a: ActorId)
    requires a in queues
    ensures TotalDepth(queues) == |queues[a]| + TotalDepth(queues - {a})
    decreases |queues|
  {
    var b :| b in queues && TotalDepth(queues) == |queues[b]| + TotalDepth(queues - {b});
    if a != b {
      DepthWithout(queues - {b}, a);
      DepthWithout(queues - {a}, b);
      assert queues - {a} - {b} == queues - {b} - {a};
    }
  }

  lemma DepthUpdated(queues: map<ActorId, seq<QueuedEvent>>, a: ActorId, q: seq<QueuedEvent>)
    ensures TotalDepth(queues[a := q]) == TotalDepth(queues - {a}) + |q|
    ensures a !in queues ==> queues - {a} == queues
  {
    DepthWithout(queues[a := q], a);
    assert queues[a := q] - {a} == queues - {a};
  }

  datatype Tally = Tally(enqueued: nat, dropped: nat, drained: nat)

  /** Enqueue calls, events they pushed out, and events handed out by drains. */
  function Count(c: Cohort, ops: seq<Op>): Tally
    decreases |ops|
  {
    if ops == [] then Tally(0, 0, 0)
    else
      var t := Count(Next(c, ops[0]), ops[1..]);
      match Reply(c, ops[0])
      case Room(hadRoom) => Tally(t.enqueued + 1, t.dropped + (if hadRoom then 0 else 1), t.drained)
      case Events(events) => t.(drained := t.drained + |events|)
      case _ => t
  }

  /** Between two registrations no deferred event is lost from the books. */
  lemma {:induction false} EventsConserved(c: Cohort, ops: seq<Op>)
    requires c.config.Valid() && forall i :: 0 <= i < |ops| ==> !ops[i].Register?
    ensures var t := Count(c, ops);
            TotalDepth(c.queues) + t.enqueued == t.drained + t.dropped + TotalDepth(Run(c, ops).queues)
    decreases |ops|
  {
    if ops != [] {
      EventsConserved(Next(c, ops[0]), ops[1..]);
      match ops[0]
      case Enqueue(a, e) => EnqueueDepth(c, a, e);
      case Drain(a) =>
        if a in c.queues {
          DepthWithout(c.queues, a);
        } else {
          assert c.queues - {a} == c.queues;
        }
      case _ =>
    }
  }

  lemma EnqueueDepth(c: Cohort, a: ActorId, e: QueuedEvent)
    requires c.config.Valid()
    ensures var (after, hadRoom) := Enqueued(c, a, e);
            TotalDepth(after.queues) == TotalDepth(c.queues) + (if hadRoom then 1 else 0)
  {
    if a in c.queues {
      DepthWithout(c.queues, a);
    }
    DepthUpdated(c.queues, a, Enqueued(c, a, e).0.queues[a]);
  }

  // ----- one promotion, and the activation record -----

  /** A promotion succeeds for active actors and while budget is left; a dormant actor then
      takes the place of the least recently activated one, everybody else staying, and
      nothing but the active set and the budget counter changes. */
  lemma PromotionReplacesLeastRecent(c: Cohort, a: ActorId, order: seq<ActorId>)
    requires c.Inv() && a in c.registered && c.active != {} && Enumerates(order, c.active)
    ensures var p := Promoted(c, a, order);
      && (p.promoted <==> a in c.active || c.promoteUsed < c.config.promoteBudgetPerTick)
      && (p.promoted ==> a in p.after.active)
      && (p.evicted.Some? <==> p.promoted && a !in c.active)
      && (p.evicted.None? ==> p.after == c)
      && (p.evicted.Some? ==>
            && p.evicted.value in c.active
            && p.after == c.(active := (c.active - {p.evicted.value}) + {a}, promoteUsed := c.promoteUsed + 1)
            && forall b :: b in c.active && b != p.evicted.value ==>
                 c.LastTick(p.evicted.value) < c.LastTick(b)
                 || (c.LastTick(p.evicted.value) == c.LastTick(b)
                     && IndexOf(c.registered, p.evicted.value) < IndexOf(c.registered, b)))
  {
    VictimIsActive(c, order);
    var p := Promoted(c, a, order);
    if p.evicted.Some? {
      forall b | b in c.active && b != p.evicted.value
        ensures c.LastTick(p.evicted.value) < c.LastTick(b)
                || (c.LastTick(p.evicted.value) == c.LastTick(b)
                    && IndexOf(c.registered, p.evicted.value) < IndexOf(c.registered, b))
      {
        FirstIsLeast(c, order, b);
      }
    }
  }

  lemma FirstIsLeast(c: Cohort, order: seq<ActorId>, b: ActorId)
    requires c.Inv() && Enumerates(order, c.active) && b in c.active && b != c.LruOrder(order)[0]
    requires order != []
    ensures var v := c.LruOrder(order)[0];
      c.LastTick(v) < c.LastTick(b)
      || (c.LastTick(v) == c.LastTick(b) && IndexOf(c.registered, v) < IndexOf(c.registered, b))
  {
    var v := c.LruOrder(order)[0];
    LruPairKeys(c, order);
    assert c.LruOrder(order)[..1] == [v];
    var p, q := SortedPrefix(c.LruPairs(order), 1, v, b);
    LruOrderEnumerates(c, order);
    assert v in c.LruOrder(order);
    if IndexOf(c.registered, v) == IndexOf(c.registered, b) {
      IndexInjective(c.registered, v, b);
    }
  }

  /** A registration activates exactly the first actors of the list, as many as the cap
      allows; nobody has a queue or an activation, the budget is whole, and the cursor is at
      the start. */
  lemma RegistrationStarts(c: Cohort, ids: seq<ActorId>)
    requires c.config.Valid() && Distinct(ids)
    ensures var r := Registered(c, ids);
      && r.config == c.config && r.registered == ids
      && (forall i :: 0 <= i < |ids| ==> (ids[i] in r.active <==> i < c.config.maxActive))
      && (forall a :: a in r.active ==> a in ids)
      && (forall a :: r.Queue(a) == [] && r.LastTick(a) == -1)
      && r.promoteUsed == 0 && r.rrCursor == 0
  {
    var first := ids[..Min(c.config.maxActive, |ids|)];
    forall i | 0 <= i < |ids| ensures ids[i] in Registered(c, ids).active <==> i < c.config.maxActive {
      if i < c.config.maxActive {
        assert first[i] == ids[i];
      }
      if ids[i] in first {
        var j :| 0 <= j < |first| && first[j] == ids[i];
        assert ids[j] == ids[i];
      }
    }
  }

  /** Tick of the last activation since the last registration, or the given tick. */
  function LatestTick(tick: int, ops: seq<Op>, a: ActorId): int
    decreases |ops|
  {
    if ops == [] then tick
    else
      var next := match ops[0]
        case Register(_) => -1
        case RecordActivation(b, t) => if a == b then t else tick
        case _ => tick;
      LatestTick(next, ops[1..], a)
  }

  /** The recency that the policies compare is the latest recorded activation. */
  lemma {:induction false} RecencyIsLatestActivation(c: Cohort, ops: seq<Op>, a: ActorId)
    ensures Run(c, ops).LastTick(a) == LatestTick(c.LastTick(a), ops, a)
    decreases |ops|
  {
    if ops != [] {
      TickStep(c, ops[0], a);
      RecencyIsLatestActivation(Next(c, ops[0]), ops[1..], a);
    }
  }

  lemma TickStep(c: Cohort, op: Op, a: ActorId)
    ensures Next(c, op).LastTick(a) ==
      match op
      case Register(_) => -1
      case RecordActivation(b, t) => if a == b then t else c.LastTick(a)
      case _ => c.LastTick(a)
  {
  }
}
