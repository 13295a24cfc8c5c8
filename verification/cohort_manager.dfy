/**
 The cohort manager itself: an object whose methods update its fields, each proved to
 do what `CohortState` says, and to keep the invariant.
 */
module CohortManagement {
  import opened SharedTypes
  import opened StableSort
  import opened CohortState
  import opened CohortCap
  import opened CohortRuns

  datatype CohortStats = CohortStats(
    activeCount: nat,
    registeredCount: nat,
    queueTotalDepth: nat,
    promoteBudgetRemaining: nat,
    rotationPolicy: RotationPolicy)

  /** An index modulo the list length; indices exceed the list by at most one. */
  method Modulo(index: nat, n: nat) returns (r: nat)
    requires 0 < n && index <= n
    ensures r == if index == n then 0 else index
  {
    r := index % n;
  }

  /** Some order of iterating over a set. */
  method IterationOrder(s: set<ActorId>) returns (order: seq<ActorId>)
    ensures Enumerates(order, s)
  {
    order := [];
    var rest := s;
    while rest != {}
      invariant rest <= s
      invariant Enumerates(order, s - rest)
      decreases rest
    {
      var a :| a in rest;
      order := order + [a];
      rest := rest - {a};
    }
  }

  // ----- the cursor's walk -----

  /** The first dormant position at or after the span of `k` picks is the next pick. */
  lemma {:induction false} SpanScan(ring: seq<ActorId>, active: set<ActorId>, k: nat, at: nat)
    requires k <= |Dormant(ring, active)| && Span(ring, active, k) <= at < |ring|
    requires forall x :: Span(ring, active, k) <= x < at ==> ring[x] in active
    requires ring[at] !in active
    ensures k < |Dormant(ring, active)| && Dormant(ring, active)[k] == ring[at]
    ensures Span(ring, active, k + 1) == at + 1
  {
    if at == 0 {
      assert k == 0;
      assert Span(ring[1..], active, 0) == 0;
    } else if k == 0 {
      assert ring[0] in active;
      assert forall x :: 0 <= x < at - 1 ==> ring[1..][x] == ring[x + 1];
      SpanScan(ring[1..], active, 0, at - 1);
    } else {
      var left := if ring[0] in active then k else k - 1;
      assert forall x :: 0 <= x < |ring| - 1 ==> ring[1..][x] == ring[x + 1];
      SpanScan(ring[1..], active, left, at - 1);
    }
  }

  /** When no dormant position is left after the span, all dormant actors are picked. */
  lemma {:induction false} SpanEnd(ring: seq<ActorId>, active: set<ActorId>, k: nat)
    requires k <= |Dormant(ring, active)|
    requires forall x :: Span(ring, active, k) <= x < |ring| ==> ring[x] in active
    ensures k == |Dormant(ring, active)|
  {
    if ring != [] {
      var left := if k == 0 || ring[0] in active then k else k - 1;
      assert forall x :: 0 <= x < |ring| - 1 ==> ring[1..][x] == ring[x + 1];
      SpanEnd(ring[1..], active, left);
    }
  }

  /** Dormant positions inside the span are already picked; later ones are not. */
  lemma PickedPositions(ring: seq<ActorId>, active: set<ActorId>, k: nat, at: nat)
    requires Distinct(ring) && k <= |Dormant(ring, active)| && at < |ring| && ring[at] !in active
    ensures ring[at] in Dormant(ring, active)[..k] <==> at < Span(ring, active, k)
  {
    var span := Span(ring, active, k);
    SpanPrefix(ring, active, k);
    if at < span {
      assert ring[..span][at] == ring[at];
    }
  }

  class CohortManager {
    const config: Config
    var registered: seq<ActorId>
    var active: set<ActorId>
    var queues: map<ActorId, seq<QueuedEvent>>
    var lastActivation: map<ActorId, int>
    var rrCursor: nat
    var promoteUsed: nat

    function State(): Cohort
      reads this
    {
      Cohort(config, registered, active, queues, lastActivation, rrCursor, promoteUsed)
    }

    ghost predicate Valid()
      reads this
    {
      State().Inv()
    }

    /** The program raises instead when the configuration is not valid. */
    constructor (config: Config)
      requires config.Valid()
      ensures Valid() && State() == Fresh(config)
    {
      this.config := config;
      registered, active, queues, lastActivation, rrCursor, promoteUsed := [], {}, map[], map[], 0, 0;
    }

    /** Any list is taken; the invariant relies on it naming each actor once. */
    method Register(actorIds: seq<ActorId>)
      requires Valid()
      modifies this
      ensures State() == Registered(old(State()), actorIds)
      ensures Distinct(actorIds) ==> Valid()
    {
      if Distinct(actorIds) {
        InvPreserved(State(), CohortState.Register(actorIds));
      }
      registered := actorIds;
      var initial := registered[..Min(config.maxActive, |registered|)];
      active := set a | a in initial;
      queues := map[];
      lastActivation := map[];
      rrCursor := 0;
      promoteUsed := 0;
    }

    method Enqueue(actor: ActorId, queued: QueuedEvent) returns (hadRoom: bool)
      requires Valid()
      modifies this`queues
      ensures Valid() && (State(), hadRoom) == Enqueued(old(State()), actor, queued)
    {
      InvPreserved(State(), CohortState.Enqueue(actor, queued));
      var q := if actor in queues then queues[actor] else [];
      var overflowed := false;
      if |q| >= config.queueMaxPerNpc {
        q := q[1..];
        overflowed := true;
      }
      q := q + [queued];
      queues := queues[actor := q];
      hadRoom := !overflowed;
    }

    method DrainQueue(actor: ActorId) returns (events: seq<QueuedEvent>)
      requires Valid()
      modifies this`queues
      ensures Valid() && (State(), events) == Drained(old(State()), actor)
      ensures actor !in queues
    {
      InvPreserved(State(), CohortState.Drain(actor));
      events := if actor in queues then queues[actor] else [];
      queues := queues - {actor};
    }

    method PickEvictionVictim() returns (victim: Option<ActorId>)
      requires Valid()
      ensures forall order :: Enumerates(order, active) ==> victim == Victim(State(), order)
    {
      if active == {} {
        victim := None;
        forall order | Enumerates(order, active) ensures victim == Victim(State(), order) {
          EnumerationSize(order, active);
        }
        return;
      }
      var order := IterationOrder(active);
      EnumerationSize(order, active);
      var m := Minimum(State().LruPairs(order));
      victim := Some(m.1);
      forall order' | Enumerates(order', active) ensures victim == Victim(State(), order') {
        LruIsDeterministic(State(), order, order');
      }
    }

    /** Any actor is promoted; the invariant relies on it being a registered one. */
    method TryPromote(actor: ActorId) returns (promoted: bool, evicted: Option<ActorId>)
      requires Valid()
      modifies this`active, this`promoteUsed
      ensures actor in registered ==> Valid()
      ensures forall order :: Enumerates(order, old(active)) ==>
                Promotion(State(), promoted, evicted) == Promoted(old(State()), actor, order)
    {
      ghost var before := State();
      ghost var order := IterationOrder(active);
      if actor in registered {
        InvPreserved(before, CohortState.TryPromote(actor, order));
      }
      if actor in active {
        return true, None;
      }
      if promoteUsed >= config.promoteBudgetPerTick {
        return false, None;
      }
      evicted := PickEvictionVictim();
      if evicted.Some? {
        active := active - {evicted.value};
      }
      active := active + {actor};
      promoteUsed := promoteUsed + 1;
      promoted := true;
      assert Promotion(State(), promoted, evicted) == Promoted(before, actor, order);
    }

    /** The inner walk: at most one lap in search of a dormant actor not yet picked. */
    method WalkToDormant(batch: seq<ActorId>, ghost c: Cohort) returns (found: Option<ActorId>)
      requires c.registered == registered && c.active == active
      requires Walking(c, |batch|) && (batch, rrCursor) == RoundRobinPick(c, |batch|)
      modifies this`rrCursor
      ensures match found
        case None => !Walking(c, |batch| + 1) && rrCursor == old(rrCursor)
        case Some(a) => Walking(c, |batch| + 1) && (batch + [a], rrCursor) == RoundRobinPick(c, |batch| + 1)
    {
      var n := |registered|;
      found := None;
      for attempt := 0 to n
        invariant rrCursor == WalkCursor(c, |batch|, attempt)
        invariant Passed(c, |batch|, attempt)
      {
        WalkStep(c, |batch|, attempt);
        var position := Modulo(rrCursor, n);
        var candidate := registered[position];
        rrCursor := Modulo(rrCursor + 1, n);
        if candidate !in active && candidate !in batch {
          PickIsNext(c, batch, rrCursor, candidate, attempt);
          return Some(candidate);
        }
        SkippedIsPassed(c, |batch|, attempt);
      }
      LapIsFruitless(c, |batch|);
    }

    method RotateRoundRobin() returns (batch: seq<ActorId>)
      requires Distinct(registered) && rrCursor < |registered|
      modifies this`rrCursor
      ensures (batch, rrCursor) == RoundRobinPick(old(State()),
                Min(config.rotationBatchSize, |Dormant(registered, active)|))
    {
      batch := [];
      ghost var before := State();
      WalkStart(before);
      for picks := 0 to config.rotationBatchSize
        invariant Walking(before, picks) && |batch| == picks
        invariant (batch, rrCursor) == RoundRobinPick(before, picks)
      {
        var found := WalkToDormant(batch, before);
        if found.None? {
          break;
        }
        batch := batch + [found.value];
      }
    }

    /** Longest-inactive first; each score draws one random number. */
    method RotateRecency(dormant: seq<ActorId>) returns (batch: seq<ActorId>)
      ensures batch == Items(Sort(State().RecencyPairs(dormant)))[..Min(config.rotationBatchSize, |dormant|)]
    {
      var sorted := Items(Sort(State().RecencyPairs(dormant)));
      batch := sorted[..Min(config.rotationBatchSize, |sorted|)];
    }

    /** Deepest queue first. */
    method RotateEventPressure(dormant: seq<ActorId>) returns (batch: seq<ActorId>)
      ensures batch == Items(Sort(State().PressurePairs(dormant)))[..Min(config.rotationBatchSize, |dormant|)]
    {
      var sorted := Items(Sort(State().PressurePairs(dormant)));
      batch := sorted[..Min(config.rotationBatchSize, |sorted|)];
    }

    /** Least recently activated first, whatever order the active set is iterated in. */
    method PickDemoteBatch(batch: nat) returns (demoted: seq<ActorId>)
      requires Distinct(registered) && forall a :: a in active ==> a in registered
      ensures forall order :: Enumerates(order, active) ==>
                demoted == State().LruOrder(order)[..Min(batch, |order|)]
    {
      var order := IterationOrder(active);
      var sorted := State().LruOrder(order);
      demoted := sorted[..Min(batch, |sorted|)];
      forall order' | Enumerates(order', active)
        ensures demoted == State().LruOrder(order')[..Min(batch, |order'|)]
      {
        EnumerationSize(order, active);
        EnumerationSize(order', active);
        LruIsDeterministic(State(), order, order');
      }
    }

    method Rotate(tick: int) returns (demoted: seq<ActorId>, promoted: seq<ActorId>)
      requires Valid()
      modifies this`active, this`rrCursor, this`promoteUsed
      ensures Valid()
      ensures forall order :: Enumerates(order, old(active)) ==>
                Rotation(State(), demoted, promoted) == Rotated(old(State()), order)
    {
      ghost var before := State();
      ghost var someOrder := IterationOrder(active);
      RotationKeepsInv(before, someOrder);
      promoteUsed := 0;
      var dormant := Dormant(registered, active);
      if |registered| <= config.maxActive || dormant == [] {
        return [], [];
      }
      PicksIgnoreBudget(before, 0);
      promoted := PickPromoted(dormant);
      PicksFitBatch(before);
      ghost var picked := State();
      assert picked == before.(promoteUsed := 0, rrCursor := Picks(before).1);
      var batch := Min(config.rotationBatchSize, |promoted|);
      promoted := promoted[..batch];
      demoted := PickDemoteBatch(batch);
      active := active - Members(demoted);
      active := active + Members(promoted);
      FullRotation(before, picked, State(), demoted, promoted);
    }

    /** Dispatch on the rotation policy. */
    method PickPromoted(dormant: seq<ActorId>) returns (promoted: seq<ActorId>)
      requires Distinct(registered) && rrCursor < |registered|
      requires dormant == Dormant(registered, active)
      modifies this`rrCursor
      ensures (promoted, rrCursor) == Picks(old(State()))
    {
      match config.rotationPolicy {
        case RoundRobin => promoted := RotateRoundRobin();
        case Recency => promoted := RotateRecency(dormant);
        case EventPressureWeighted => promoted := RotateEventPressure(dormant);
      }
    }

    method RecordActivation(actor: ActorId, tick: int)
      requires Valid()
      modifies this`lastActivation
      ensures Valid() && State() == Activated(old(State()), actor, tick)
    {
      lastActivation := lastActivation[actor := tick];
    }

    /** The clamp at zero never acts: what remains is exactly budget minus use. */
    method Stats() returns (stats: CohortStats)
      requires Valid()
      ensures stats == CohortStats(|active|, |registered|, TotalDepth(queues),
                                   config.promoteBudgetPerTick - promoteUsed, config.rotationPolicy)
    {
      var depth := 0;
      var rest := queues;
      while rest != map[]
        invariant depth + TotalDepth(rest) == TotalDepth(queues)
        decreases |rest|
      {
        var a :| a in rest;
        DepthWithout(rest, a);
        depth := depth + |rest[a]|;
        rest := rest - {a};
      }
      var left: int := config.promoteBudgetPerTick as int - promoteUsed as int;
      stats := CohortStats(|active|, |registered|, depth, if left < 0 then 0 else left, config.rotationPolicy);
    }
  }

  // ----- the walk as a function of the number of attempts -----

  /** The walk has room for `picks` picks. */
  ghost predicate Walking(c: Cohort, picks: nat) {
    Distinct(c.registered) && c.rrCursor < |c.registered| && picks <= |Dormant(c.registered, c.active)|
  }

  /** Ring position looked at after `attempt` failed attempts at the next pick. */
  ghost function At(c: Cohort, picks: nat, attempt: nat): nat {
    Advance(Span(Ring(c.registered, c.rrCursor), c.active, picks), attempt, |c.registered|)
  }

  ghost function WalkCursor(c: Cohort, picks: nat, attempt: nat): nat {
    Advance(c.rrCursor, At(c, picks, attempt), |c.registered|)
  }

  /** The attempts so far have met active actors only, until the walk wrapped. */
  ghost predicate Passed(c: Cohort, picks: nat, attempt: nat) {
    var ring := Ring(c.registered, c.rrCursor);
    var span := Span(ring, c.active, picks);
    forall x :: span <= x < Min(span + attempt, |ring|) ==> ring[x] in c.active
  }

  lemma WalkStart(c: Cohort)
    requires Distinct(c.registered) && c.rrCursor < |c.registered|
    ensures Walking(c, 0) && RoundRobinPick(c, 0) == ([], c.rrCursor)
  {
  }

  lemma WalkStep(c: Cohort, picks: nat, attempt: nat)
    requires Walking(c, picks) && attempt < |c.registered|
    ensures var n, cursor := |c.registered|, WalkCursor(c, picks, attempt);
      && At(c, picks, attempt) < n
      && cursor < n
      && c.registered[cursor] == Ring(c.registered, c.rrCursor)[At(c, picks, attempt)]
      && (if cursor + 1 == n then 0 else cursor + 1) == WalkCursor(c, picks, attempt + 1)
            == Advance(c.rrCursor, At(c, picks, attempt) + 1, n)
  {
    var n, at := |c.registered|, At(c, picks, attempt);
    assert at + 1 < n ==> At(c, picks, attempt + 1) == at + 1;
    assert at + 1 == n ==> At(c, picks, attempt + 1) == 0;
  }

  /** Before the first pick fails, the cursor stands where the picks so far left it. */
  lemma LapIsFruitless(c: Cohort, picks: nat)
    requires Walking(c, picks) && Passed(c, picks, |c.registered|)
    ensures !Walking(c, picks + 1)
    ensures WalkCursor(c, picks, |c.registered|) == RoundRobinPick(c, picks).1
  {
    var ring := Ring(c.registered, c.rrCursor);
    RingIsRotation(c.registered, c.rrCursor);
    SameDormant(c, ring);
    SpanEnd(ring, c.active, picks);
  }

  /** A position passed over is active, unless the walk has wrapped into the span. */
  lemma SkippedIsPassed(c: Cohort, picks: nat, attempt: nat)
    requires Walking(c, picks) && attempt < |c.registered| && At(c, picks, attempt) < |c.registered|
    requires Passed(c, picks, attempt)
    requires var a := Ring(c.registered, c.rrCursor)[At(c, picks, attempt)];
             a in c.active || a in RoundRobinPick(c, picks).0
    ensures Passed(c, picks, attempt + 1)
  {
    var ring := Ring(c.registered, c.rrCursor);
    var at := At(c, picks, attempt);
    if ring[at] !in c.active {
      RingIsRotation(c.registered, c.rrCursor);
      SameDormant(c, ring);
      SpanPrefix(ring, c.active, picks);
      PickedPositions(ring, c.active, picks, at);
    }
  }

  /** The first dormant position that is not picked lies after the span: it is the next pick. */
  lemma PickIsNext(c: Cohort, batch: seq<ActorId>, cursor: nat, a: ActorId, attempt: nat)
    requires Walking(c, |batch|) && attempt < |c.registered| && At(c, |batch|, attempt) < |c.registered|
    requires Passed(c, |batch|, attempt) && batch == RoundRobinPick(c, |batch|).0
    requires a == Ring(c.registered, c.rrCursor)[At(c, |batch|, attempt)]
    requires a !in c.active && a !in batch
    requires cursor == Advance(c.rrCursor, At(c, |batch|, attempt) + 1, |c.registered|)
    ensures Walking(c, |batch| + 1) && (batch + [a], cursor) == RoundRobinPick(c, |batch| + 1)
  {
    NextPick(c, |batch|, attempt);
    PickGrows(c, batch, a);
    assert RoundRobinPick(c, |batch| + 1).1 == cursor;
  }

  lemma PickGrows(c: Cohort, batch: seq<ActorId>, a: ActorId)
    requires batch == RoundRobinPick(c, |batch|).0
    requires |batch| < |Dormant(Ring(c.registered, c.rrCursor), c.active)|
    requires a == Dormant(Ring(c.registered, c.rrCursor), c.active)[|batch|]
    ensures RoundRobinPick(c, |batch| + 1).0 == batch + [a]
  {
    PickIsPrefix(c, |batch|);
    PickIsPrefix(c, |batch| + 1);
    PrefixGrows(Dormant(Ring(c.registered, c.rrCursor), c.active), |batch|);
  }

  lemma NextPick(c: Cohort, picks: nat, attempt: nat)
    requires Walking(c, picks) && attempt < |c.registered| && At(c, picks, attempt) < |c.registered|
    requires Passed(c, picks, attempt)
    requires var a := Ring(c.registered, c.rrCursor)[At(c, picks, attempt)];
             a !in c.active && a !in RoundRobinPick(c, picks).0
    ensures var ring, at := Ring(c.registered, c.rrCursor), At(c, picks, attempt);
      && picks < |Dormant(ring, c.active)| == |Dormant(c.registered, c.active)|
      && Dormant(ring, c.active)[picks] == ring[at]
      && Span(ring, c.active, picks + 1) == at + 1
  {
    var ring := Ring(c.registered, c.rrCursor);
    var at := At(c, picks, attempt);
    RingIsRotation(c.registered, c.rrCursor);
    SameDormant(c, ring);
    SpanPrefix(ring, c.active, picks);
    PickedPositions(ring, c.active, picks, at);
    SpanScan(ring, c.active, picks, at);
  }

  lemma PickIsPrefix(c: Cohort, picks: nat)
    requires picks <= |Dormant(Ring(c.registered, c.rrCursor), c.active)|
    ensures RoundRobinPick(c, picks).0 == Dormant(Ring(c.registered, c.rrCursor), c.active)[..picks]
  {
    SpanPrefix(Ring(c.registered, c.rrCursor), c.active, picks);
  }

  lemma PicksFitBatch(c: Cohort)
    requires c.Inv()
    ensures |Picks(c).0| <= c.config.rotationBatchSize
  {
    PicksAreDormant(c);
  }

  lemma FullRotation(c: Cohort, picked: Cohort, after: Cohort, demoted: seq<ActorId>, promoted: seq<ActorId>)
    requires |c.registered| > c.config.maxActive && Dormant(c.registered, c.active) != []
    requires picked == c.(promoteUsed := 0, rrCursor := Picks(c).1) && promoted == Picks(c).0
    requires forall order :: Enumerates(order, c.active) ==>
               demoted == picked.LruOrder(order)[..Min(|promoted|, |order|)]
    requires after == picked.(active := (c.active - Members(demoted)) + Members(promoted))
    ensures forall order :: Enumerates(order, c.active) ==>
              Rotation(after, demoted, promoted) == Rotated(c, order)
  {
    forall order | Enumerates(order, c.active)
      ensures Rotation(after, demoted, promoted) == Rotated(c, order)
    {
      SameLruOrder(c, picked, order);
    }
  }

  /** Sorting the active set looks at activations and registration order only. */
  lemma SameLruOrder(c: Cohort, c': Cohort, order: seq<ActorId>)
    requires c'.registered == c.registered && c'.lastActivation == c.lastActivation
    ensures c'.LruOrder(order) == c.LruOrder(order)
  {
    assert c'.LruPairs(order) == c.LruPairs(order);
  }

  /** The policies do not look at the budget. */
  lemma PicksIgnoreBudget(c: Cohort, used: nat)
    ensures Picks(c.(promoteUsed := used)) == Picks(c)
  {
    var c' := c.(promoteUsed := used);
    var dormant := Dormant(c.registered, c.active);
    assert c'.PressurePairs(dormant) == c.PressurePairs(dormant);
    forall i | 0 <= i < |dormant| ensures c'.RecencyPairs(dormant)[i] == c.RecencyPairs(dormant)[i] {
      assert c'.LastTick(dormant[i]) == c.LastTick(dormant[i]);
    }
    assert c'.RecencyPairs(dormant) == c.RecencyPairs(dormant);
  }

  lemma PrefixGrows(s: seq<ActorId>, k: nat)
    requires k < |s|
    ensures s[..k] + [s[k]] == s[..k + 1]
  {
  }
}
