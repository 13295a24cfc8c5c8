/**
 Round-robin rotation starves nobody. The measure is an actor's distance from the
 cursor: every position the cursor passes is active or gets promoted, so a rotation
 either serves the actor or brings the cursor closer by a whole batch.
 */
module CohortFairness {
  import opened SharedTypes
  import opened CohortState
  import opened CohortCap

  /** How many positions after the cursor the actor at index `i` is. */
  function Distance(c: Cohort, i: nat): nat
    requires i < |c.registered| && c.rrCursor < |c.registered|
  {
    if i >= c.rrCursor then i - c.rrCursor else i + |c.registered| - c.rrCursor
  }

  /** The active count is the one that `ActiveCount` gives; so it is in every reachable state. */
  ghost predicate Regular(c: Cohort) {
    Counted(c, false) || Counted(c, true)
  }

  /** How many positions the cursor passes at least in a rotation: a batch, or as many as stay
      dormant; at any rate one. */
  ghost function Pace(c: Cohort): (p: nat)
    requires Rotating(c)
    ensures p > 0
  {
    if Regular(c) then Min(c.config.rotationBatchSize, |c.registered| - SettledCount(c)) else 1
  }

  lemma RingAt(c: Cohort, i: nat)
    requires i < |c.registered| && c.rrCursor < |c.registered|
    ensures Distance(c, i) < |c.registered|
    ensures Ring(c.registered, c.rrCursor)[Distance(c, i)] == c.registered[i]
  {
  }

  /** The states in which fairness is claimed: any valid configuration that uses round-robin,
      with more actors registered than the cap. */
  ghost predicate Rotating(c: Cohort) {
    && c.Inv()
    && c.config.rotationPolicy == RoundRobin
    && c.config.maxActive < |c.registered|
  }

  /** A round-robin rotation walks over at least the pace. */
  lemma RoundRobinSpan(c: Cohort)
    requires Rotating(c) && Dormant(c.registered, c.active) != []
    ensures var batch := Min(c.config.rotationBatchSize, |Dormant(c.registered, c.active)|);
      && Picks(c) == RoundRobinPick(c, batch)
      && Pace(c) <= batch <= Span(Ring(c.registered, c.rrCursor), c.active, batch)
  {
    DormantCount(c);
    RingSpan(c, Min(c.config.rotationBatchSize, |Dormant(c.registered, c.active)|));
  }

  lemma RingSpan(c: Cohort, batch: nat)
    requires Distinct(c.registered) && batch <= |Dormant(c.registered, c.active)|
    ensures batch <= Span(Ring(c.registered, c.rrCursor), c.active, batch)
  {
    RingPicks(c, batch);
  }

  /** Positions inside the span of the cursor are served; the others come closer. */
  lemma SpanServes(c: Cohort, i: nat)
    requires Rotating(c) && Dormant(c.registered, c.active) != [] && i < |c.registered|
    ensures Picks(c).1 < |c.registered|
    ensures c.registered[i] in c.active || c.registered[i] in Picks(c).0
            || Distance(c.(rrCursor := Picks(c).1), i) + Pace(c) <= Distance(c, i)
  {
    RoundRobinSpan(c);
    RingAt(c, i);
    var ring := Ring(c.registered, c.rrCursor);
    var span := Span(ring, c.active, Min(c.config.rotationBatchSize, |Dormant(c.registered, c.active)|));
    if Distance(c, i) < span {
      assert ring[..span][Distance(c, i)] == c.registered[i];
    } else {
      SkippedComesCloser(c, i, span);
    }
  }

  lemma SkippedComesCloser(c: Cohort, i: nat, span: nat)
    requires i < |c.registered| && c.rrCursor < |c.registered| && span <= Distance(c, i)
    ensures var cursor := Advance(c.rrCursor, span, |c.registered|);
            cursor < |c.registered| && Distance(c.(rrCursor := cursor), i) == Distance(c, i) - span
  {
  }

  /** Round-robin promotes the dormant actors nearest to the cursor, going forward. */
  lemma RoundRobinPicksNearest(c: Cohort, i: nat, j: nat)
    requires c.Inv() && c.config.rotationPolicy == RoundRobin
    requires i < |c.registered| && c.registered[i] in Picks(c).0
    requires j < |c.registered| && c.registered[j] !in c.active && c.registered[j] !in Picks(c).0
    ensures (i + |c.registered| - c.rrCursor) % |c.registered| < (j + |c.registered| - c.rrCursor) % |c.registered|
  {
    var ring := Ring(c.registered, c.rrCursor);
    var span := Span(ring, c.active, Min(c.config.rotationBatchSize, |Dormant(c.registered, c.active)|));
    RingAt(c, i);
    RingAt(c, j);
    DistanceIsCyclic(c, i);
    DistanceIsCyclic(c, j);
    RingIsRotation(c.registered, c.rrCursor);
    var k :| 0 <= k < span && ring[..span][k] == c.registered[i];
    assert ring[k] == ring[Distance(c, i)];
    if Distance(c, j) < span {
      PassedIsPicked(c, ring, span, j);
    }
  }

  lemma PassedIsPicked(c: Cohort, ring: seq<ActorId>, span: nat, j: nat)
    requires c.rrCursor < |c.registered| && ring == Ring(c.registered, c.rrCursor) && j < |c.registered|
    requires Distance(c, j) < span <= |ring| && c.registered[j] !in c.active
    ensures c.registered[j] in Dormant(ring[..span], c.active)
  {
    RingAt(c, j);
    assert ring[..span][Distance(c, j)] == c.registered[j];
  }

  lemma DistanceIsCyclic(c: Cohort, i: nat)
    requires i < |c.registered| && c.rrCursor < |c.registered|
    ensures Distance(c, i) == (i + |c.registered| - c.rrCursor) % |c.registered|
  {
  }

  /** It promotes them in that order. */
  lemma RoundRobinInOrder(c: Cohort, a: nat, b: nat)
    requires c.Inv() && c.config.rotationPolicy == RoundRobin && a < b < |Picks(c).0|
    ensures Distance(c, IndexOf(c.registered, Picks(c).0[a])) < Distance(c, IndexOf(c.registered, Picks(c).0[b]))
  {
    var ring := Ring(c.registered, c.rrCursor);
    var span := Span(ring, c.active, Min(c.config.rotationBatchSize, |Dormant(c.registered, c.active)|));
    PicksAreDormant(c);
    assert Picks(c).0[a] in Picks(c).0 && Picks(c).0[b] in Picks(c).0;
    var p, q := DormantAscends(ring[..span], c.active, a, b);
    RingPlace(c, Picks(c).0[a], p);
    RingPlace(c, Picks(c).0[b], q);
  }

  /** It leaves the cursor right behind the last one promoted. */
  lemma CursorFollowsLastPick(c: Cohort)
    requires c.Inv() && c.config.rotationPolicy == RoundRobin && Picks(c).0 != []
    ensures var last := IndexOf(c.registered, Picks(c).0[|Picks(c).0| - 1]);
      Picks(c).1 == if last + 1 == |c.registered| then 0 else last + 1
  {
    var picks := Picks(c).0;
    var ring := Ring(c.registered, c.rrCursor);
    PicksAreDormant(c);
    assert picks[|picks| - 1] in picks;
    RingIsRotation(c.registered, c.rrCursor);
    SameDormant(c, ring);
    SpanPrefix(ring, c.active, |picks|);
    SpanEndsWithPick(ring, c.active, |picks|);
    RingPlace(c, picks[|picks| - 1], Span(ring, c.active, |picks|) - 1);
  }

  lemma RingPlace(c: Cohort, a: ActorId, p: nat)
    requires c.Inv() && a in c.registered && p < |c.registered| && Ring(c.registered, c.rrCursor)[p] == a
    ensures Distance(c, IndexOf(c.registered, a)) == p
    ensures IndexOf(c.registered, a) == if c.rrCursor + p < |c.registered| then c.rrCursor + p
                                        else c.rrCursor + p - |c.registered|
  {
    RingAt(c, IndexOf(c.registered, a));
    RingIsRotation(c.registered, c.rrCursor);
  }

  lemma {:induction false} DormantAscends(s: seq<ActorId>, active: set<ActorId>, a: nat, b: nat)
    returns (p: nat, q: nat)
    requires a < b < |Dormant(s, active)|
    ensures p < q < |s| && s[p] == Dormant(s, active)[a] && s[q] == Dormant(s, active)[b]
  {
    if s[0] in active {
      p, q := DormantAscends(s[1..], active, a, b);
      p, q := p + 1, q + 1;
    } else if a == 0 {
      assert Dormant(s, active)[b] in Dormant(s[1..], active);
      var k :| 0 <= k < |s[1..]| && s[1..][k] == Dormant(s, active)[b];
      p, q := 0, k + 1;
    } else {
      p, q := DormantAscends(s[1..], active, a - 1, b - 1);
      p, q := p + 1, q + 1;
    }
  }

  lemma {:induction false} SpanEndsWithPick(ring: seq<ActorId>, active: set<ActorId>, picks: nat)
    requires 0 < picks <= |Dormant(ring, active)|
    ensures var span := Span(ring, active, picks);
      0 < span <= |ring| && ring[span - 1] == Dormant(ring, active)[picks - 1]
  {
    if ring[0] in active {
      SpanEndsWithPick(ring[1..], active, picks);
    } else if picks > 1 {
      SpanEndsWithPick(ring[1..], active, picks - 1);
    } else {
      assert Span(ring[1..], active, 0) == 0;
    }
  }

  lemma RotationFields(c: Cohort, order: seq<ActorId>)
    requires Rotating(c) && Dormant(c.registered, c.active) != [] && Enumerates(order, c.active)
    ensures var after := Rotated(c, order).after;
      && after.registered == c.registered && after.rrCursor == Picks(c).1
      && (forall a :: a in Picks(c).0 ==> a in after.active)
  {
  }

  lemma RotationServes(c: Cohort, order: seq<ActorId>, i: nat)
    requires Rotating(c) && Enumerates(order, c.active) && i < |c.registered|
    ensures var after := Rotated(c, order).after;
      && after.registered == c.registered && after.rrCursor < |c.registered|
      && (c.registered[i] in c.active || c.registered[i] in after.active
          || Distance(after, i) + Pace(c) <= Distance(c, i))
  {
    if Dormant(c.registered, c.active) == [] {
      assert c.registered[i] in c.registered && c.registered[i] !in Dormant(c.registered, c.active);
    } else {
      SpanServes(c, i);
      RotationFields(c, order);
    }
  }

  function Rotations(ops: seq<Op>): nat {
    if ops == [] then 0 else (if ops[0].Rotate? then 1 else 0) + Rotations(ops[1..])
  }

  /** `a` is active just before or just after the `k`-th call, which is a rotation. */
  ghost predicate ServedAt(c: Cohort, ops: seq<Op>, a: ActorId, k: nat) {
    && k < |ops| && ops[k].Rotate?
    && (a in Run(c, ops[..k]).active || a in Run(c, ops[..k + 1]).active)
  }

  ghost predicate NoRegistration(ops: seq<Op>) {
    forall i :: 0 <= i < |ops| ==> !ops[i].Register?
  }

  lemma QuietStep(c: Cohort, op: Op)
    requires Rotating(c) && Legal(c, op) && !op.Register?
    ensures Rotating(Next(c, op)) && Next(c, op).registered == c.registered && Next(c, op).config == c.config
    ensures !op.Rotate? ==> Next(c, op).rrCursor == c.rrCursor
    ensures Pace(c) <= Pace(Next(c, op))
  {
    InvPreserved(c, op);
    SameRegistration(c, op);
    if Regular(c) {
      CountedStep(c, Counted(c, true), op);
    }
  }

  lemma SameRegistration(c: Cohort, op: Op)
    requires !op.Register?
    ensures Next(c, op).registered == c.registered && Next(c, op).config == c.config
    ensures !op.Rotate? ==> Next(c, op).rrCursor == c.rrCursor
  {
  }

  /** Enough rotations, however they are interleaved with other calls, serve the actor
      at index `i`. */
  lemma {:induction false} ServedWithin(c: Cohort, ops: seq<Op>, i: nat, p: nat) returns (k: nat)
    requires Rotating(c) && LegalRun(c, ops) && NoRegistration(ops) && i < |c.registered|
    requires p <= Pace(c) && Rotations(ops) * p > Distance(c, i)
    ensures ServedAt(c, ops, c.registered[i], k)
    decreases |ops|
  {
    QuietStep(c, ops[0]);
    if ops[0].Rotate? {
      var next := Rotated(c, ops[0].order).after;
      if c.registered[i] in c.active || c.registered[i] in next.active {
        ServedNow(c, ops, c.registered[i]);
        return 0;
      }
      MeasureDrops(c, ops[0].order, i, p, Rotations(ops), Rotations(ops[1..]));
    }
    k := ServedWithin(Next(c, ops[0]), ops[1..], i, p);
    ServedLater(c, ops, c.registered[i], k);
    k := k + 1;
  }

  lemma ServedLater(c: Cohort, ops: seq<Op>, a: ActorId, k: nat)
    requires ops != [] && ServedAt(Next(c, ops[0]), ops[1..], a, k)
    ensures ServedAt(c, ops, a, k + 1)
  {
    RunSplits(c, ops);
    assert ops[1..][k] == ops[k + 1];
  }

  lemma ServedNow(c: Cohort, ops: seq<Op>, a: ActorId)
    requires ops != [] && ops[0].Rotate? && (a in c.active || a in Next(c, ops[0]).active)
    ensures ServedAt(c, ops, a, 0)
  {
    assert ops[..0] == [] && ops[..1] == [ops[0]];
    RunOne(c, ops[0]);
  }

  lemma MeasureDrops(c: Cohort, order: seq<ActorId>, i: nat, p: nat, rotations: nat, left: nat)
    requires Rotating(c) && Enumerates(order, c.active) && i < |c.registered|
    requires p <= Pace(c) && rotations == 1 + left && rotations * p > Distance(c, i)
    requires c.registered[i] !in c.active && c.registered[i] !in Rotated(c, order).after.active
    ensures var next := Rotated(c, order).after;
      && next.registered == c.registered && next.rrCursor < |c.registered|
      && left * p > Distance(next, i)
  {
    RotationServes(c, order, i);
    FewerLeft(rotations, left, p, Distance(c, i), Distance(Rotated(c, order).after, i));
  }

  lemma FewerLeft(rotations: nat, left: nat, p: nat, d: nat, d': nat)
    requires rotations == 1 + left && rotations * p > d && d' + p <= d
    ensures left * p > d'
  {
    assert rotations * p == p + left * p;
  }

  lemma RunSplits(c: Cohort, ops: seq<Op>)
    requires ops != []
    ensures forall k :: 0 < k <= |ops| ==> Run(c, ops[..k]) == Run(Next(c, ops[0]), ops[1..][..k - 1])
  {
    forall k | 0 < k <= |ops|
      ensures Run(c, ops[..k]) == Run(Next(c, ops[0]), ops[1..][..k - 1])
    {
      assert ops[..k][1..] == ops[1..][..k - 1];
    }
  }

  /** The quotient, rounded up. */
  function CeilDiv(n: nat, p: nat): nat
    requires p > 0
  {
    (n + p - 1) / p
  }

  lemma CeilDivCovers(n: nat, p: nat)
    requires p > 0
    ensures CeilDiv(n, p) * p >= n
  {
    var q := (n + p - 1) / p;
    assert n + p - 1 == q * p + (n + p - 1) % p;
  }

  /** No starvation, for every valid configuration: with more actors registered than the cap,
      any run with as many rotations as the pace goes into the actors, rounded up, mixed with
      any other calls, finds every registered actor active right before or right after one of
      them. */
  lemma RoundRobinStarvesNobody(c: Cohort, ops: seq<Op>)
    requires Rotating(c) && LegalRun(c, ops) && NoRegistration(ops)
    requires Rotations(ops) >= CeilDiv(|c.registered|, Pace(c))
    ensures forall a :: a in c.registered ==> exists k :: ServedAt(c, ops, a, k)
  {
    forall a | a in c.registered ensures exists k :: ServedAt(c, ops, a, k) {
      var i := IndexOf(c.registered, a);
      var p := Pace(c);
      CeilDivCovers(|c.registered|, p);
      ProductGrows(CeilDiv(|c.registered|, p), Rotations(ops), p);
      RingAt(c, i);
      var k := ServedWithin(c, ops, i, p);
    }
  }

  /** In every reachable state the pace is what a rotation promotes once the active count has
      settled; with a batch within the cap that is `min(batch, n - cap)`. */
  lemma ReachablePace(config: Config, ops: seq<Op>)
    requires config.Valid() && LegalRun(Fresh(config), ops)
    requires Rotating(Run(Fresh(config), ops))
    ensures var c := Run(Fresh(config), ops);
      && Pace(c) == Min(config.rotationBatchSize, |c.registered| - SettledCount(c))
      && (config.rotationBatchSize <= config.maxActive ==>
            Pace(c) == Min(config.rotationBatchSize, |c.registered| - c.config.maxActive))
  {
    ActiveCount(config, ops);
    RunKeepsConfig(Fresh(config), ops);
  }

  /** At the cap and with a batch within it, the pace is what the dormant actors can fill. */
  lemma CappedPace(c: Cohort)
    requires Rotating(c) && Capped(c) && c.config.rotationBatchSize <= c.config.maxActive
    ensures Pace(c) == Min(c.config.rotationBatchSize, |Dormant(c.registered, c.active)|)
  {
    DormantCount(c);
  }

  lemma ProductGrows(x: nat, y: nat, p: nat)
    requires x <= y
    ensures x * p <= y * p
  {
    assert y * p == x * p + (y - x) * p;
  }
}
