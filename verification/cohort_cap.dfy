/**
 The cap on active actors, the rotation's bookkeeping and the determinism of the
 LRU choice.
 */
module CohortCap {
  import opened SharedTypes
  import opened Sequences
  import opened StableSort
  import opened CohortState

  // ----- enumerations and sorting -----

  lemma {:induction false} DistinctCounts<T>(s: seq<T>)
    ensures Distinct(s) <==> forall a :: multiset(s)[a] <= 1
  {
    if s != [] {
      assert s == [s[0]] + s[1..];
      DistinctCounts(s[1..]);
      if Distinct(s) {
        forall a ensures multiset(s)[a] <= 1 {
          if a == s[0] {
            assert a !in s[1..];
          }
        }
      }
      if forall a :: multiset(s)[a] <= 1 {
        forall a ensures multiset(s[1..])[a] <= 1 {
          assert multiset(s[1..])[a] <= multiset(s)[a];
        }
        assert multiset(s)[s[0]] <= 1;
        assert s[0] !in s[1..];
        forall i, j | 0 <= i < j < |s| ensures s[i] != s[j] {
          assert s[j] == s[1..][j-1];
          if i > 0 {
            assert s[i] == s[1..][i-1];
          }
        }
      }
    }
  }

  lemma {:induction false} DistinctSize(s: seq<ActorId>)
    requires Distinct(s)
    ensures |Members(s)| == |s|
  {
    if s != [] {
      DistinctSize(s[1..]);
      assert s == [s[0]] + s[1..];
      assert Members(s) == {s[0]} + Members(s[1..]);
      assert s[0] !in s[1..];
    }
  }

  lemma EnumerationSize(order: seq<ActorId>, s: set<ActorId>)
    requires Enumerates(order, s)
    ensures Members(order) == s && |order| == |s|
  {
    DistinctSize(order);
    assert Members(order) == s;
  }

  lemma {:induction false} ItemsOfInsert(e: (Key, ActorId), s: seq<(Key, ActorId)>)
    ensures multiset(Items(Insert(e, s))) == multiset{e.1} + multiset(Items(s))
  {
    if s != [] && s[0].0.Below(e.0) {
      ItemsOfInsert(e, s[1..]);
      assert s == [s[0]] + s[1..];
      ItemsConcat([s[0]], s[1..]);
      ItemsConcat([s[0]], Insert(e, s[1..]));
    } else {
      ItemsConcat([e], s);
      assert [e] + [] == [e];
    }
  }

  lemma ItemsConcat(s: seq<(Key, ActorId)>, r: seq<(Key, ActorId)>)
    ensures Items(s + r) == Items(s) + Items(r)
  {
  }

  lemma ItemsHead(s: seq<(Key, ActorId)>)
    requires s != []
    ensures multiset(Items(s)) == multiset{s[0].1} + multiset(Items(s[1..]))
  {
    assert Items(s) == [s[0].1] + Items(s[1..]);
  }

  lemma {:induction false} ItemsOfSort(s: seq<(Key, ActorId)>)
    ensures multiset(Items(Sort(s))) == multiset(Items(s))
  {
    if s != [] {
      ItemsOfSort(s[1..]);
      ItemsOfInsert(s[0], Sort(s[1..]));
      ItemsHead(s);
    }
  }

  /** Sorting by any key rearranges a duplicate-free list. */
  lemma SortedIds(pairs: seq<(Key, ActorId)>, ids: seq<ActorId>)
    requires Items(pairs) == ids && Distinct(ids)
    ensures Distinct(Items(Sort(pairs)))
    ensures |Sort(pairs)| == |ids|
    ensures forall a :: a in Items(Sort(pairs)) <==> a in ids
  {
    ItemsOfSort(pairs);
    DistinctCounts(ids);
    DistinctCounts(Items(Sort(pairs)));
    PermutedMembers(Items(Sort(pairs)), ids);
  }

  lemma LruOrderEnumerates(c: Cohort, order: seq<ActorId>)
    requires Enumerates(order, c.active)
    ensures Enumerates(c.LruOrder(order), c.active)
    ensures |c.LruOrder(order)| == |order| == |c.active|
  {
    assert Items(c.LruPairs(order)) == order;
    SortedIds(c.LruPairs(order), order);
    EnumerationSize(order, c.active);
  }

  // ----- who is dormant -----

  lemma {:induction false} DormantDistinct(ids: seq<ActorId>, active: set<ActorId>)
    requires Distinct(ids)
    ensures Distinct(Dormant(ids, active))
  {
    if ids != [] {
      DormantDistinct(ids[1..], active);
      assert ids[0] !in ids[1..];
    }
  }

  lemma DormantCount(c: Cohort)
    requires c.Inv()
    ensures |Dormant(c.registered, c.active)| == |c.registered| - |c.active|
  {
    var dormant := Dormant(c.registered, c.active);
    DormantDistinct(c.registered, c.active);
    DistinctSize(dormant);
    DistinctSize(c.registered);
    assert Members(dormant) == Members(c.registered) - c.active;
    assert c.active <= Members(c.registered);
  }

  lemma RingIsRotation(registered: seq<ActorId>, cursor: nat)
    requires Distinct(registered)
    ensures Distinct(Ring(registered, cursor))
    ensures forall a :: a in Ring(registered, cursor) <==> a in registered
  {
    var k := Min(cursor, |registered|);
    assert registered == registered[..k] + registered[k..];
  }

  /** `Span` is exact: its prefix holds `picks` dormant actors, namely the first ones. */
  lemma PrefixTail(ring: seq<ActorId>, k: nat)
    requires k < |ring|
    ensures ring[..k + 1][0] == ring[0] && ring[..k + 1][1..] == ring[1..][..k]
  {
  }

  lemma {:induction false} SpanPrefix(ring: seq<ActorId>, active: set<ActorId>, picks: nat)
    requires picks <= |Dormant(ring, active)|
    ensures Dormant(ring[..Span(ring, active, picks)], active) == Dormant(ring, active)[..picks]
    ensures Span(ring, active, picks) >= picks
  {
    if picks > 0 {
      var left := if ring[0] in active then picks else picks - 1;
      SpanPrefix(ring[1..], active, left);
      PrefixTail(ring, Span(ring[1..], active, left));
    }
  }

  lemma SameDormant(c: Cohort, ring: seq<ActorId>)
    requires Distinct(c.registered) && Distinct(ring)
    requires forall a :: a in ring <==> a in c.registered
    ensures |Dormant(ring, c.active)| == |Dormant(c.registered, c.active)|
  {
    DormantDistinct(ring, c.active);
    DormantDistinct(c.registered, c.active);
    DistinctSize(Dormant(ring, c.active));
    DistinctSize(Dormant(c.registered, c.active));
    assert Members(Dormant(ring, c.active)) == Members(Dormant(c.registered, c.active));
  }

  /** The dormant actors in the cursor's span are distinct and make up the batch. */
  lemma RingPicks(c: Cohort, batch: nat)
    requires Distinct(c.registered) && batch <= |Dormant(c.registered, c.active)|
    ensures var ring := Ring(c.registered, c.rrCursor);
      var picks := Dormant(ring[..Span(ring, c.active, batch)], c.active);
      && Distinct(picks) && |picks| == batch
      && (forall a :: a in picks ==> a in c.registered && a !in c.active)
      && Span(ring, c.active, batch) >= batch
  {
    var ring := Ring(c.registered, c.rrCursor);
    RingIsRotation(c.registered, c.rrCursor);
    SameDormant(c, ring);
    DormantDistinct(ring, c.active);
    SpanPrefix(ring, c.active, batch);
  }

  /** The first `batch` of any sorted arrangement of the dormant actors. */
  lemma SortedPicks(c: Cohort, pairs: seq<(Key, ActorId)>, batch: nat)
    requires Distinct(c.registered) && Items(pairs) == Dormant(c.registered, c.active)
    requires batch <= |pairs|
    ensures var picks := Items(Sort(pairs))[..batch];
      && Distinct(picks)
      && (forall a :: a in picks ==> a in c.registered && a !in c.active)
  {
    var dormant := Dormant(c.registered, c.active);
    DormantDistinct(c.registered, c.active);
    SortedIds(pairs, dormant);
    PrefixOf(Items(Sort(pairs)), batch);
  }

  lemma PrefixOf(s: seq<ActorId>, k: nat)
    requires k <= |s|
    ensures Distinct(s) ==> Distinct(s[..k])
    ensures forall a :: a in s[..k] ==> a in s
  {
  }

  /** Every policy picks dormant actors, each once, and as many as a batch allows. */
  lemma PicksAreDormant(c: Cohort)
    requires c.Inv()
    ensures Distinct(Picks(c).0)
    ensures forall a :: a in Picks(c).0 ==> a in c.registered && a !in c.active
    ensures |Picks(c).0| == Min(c.config.rotationBatchSize, |Dormant(c.registered, c.active)|)
    ensures c.registered != [] ==> Picks(c).1 < |c.registered|
    ensures c.registered == [] ==> Picks(c).1 == c.rrCursor
  {
    var dormant := Dormant(c.registered, c.active);
    var batch := Min(c.config.rotationBatchSize, |dormant|);
    match c.config.rotationPolicy
    case RoundRobin =>
      RingPicks(c, batch);
    case Recency =>
      assert Items(c.RecencyPairs(dormant)) == dormant;
      SortedPicks(c, c.RecencyPairs(dormant), batch);
    case EventPressureWeighted =>
      assert Items(c.PressurePairs(dormant)) == dormant;
      SortedPicks(c, c.PressurePairs(dormant), batch);
  }

  // ----- one rotation -----

  /** A rotation swaps duplicate-free lists of active and dormant actors. */
  lemma RotationSwaps(c: Cohort, order: seq<ActorId>)
    requires c.Inv() && Enumerates(order, c.active)
    ensures var r := Rotated(c, order);
      && Distinct(r.demoted) && Distinct(r.promoted)
      && (forall a :: a in r.demoted ==> a in c.active)
      && (forall a :: a in r.promoted ==> a in c.registered && a !in c.active)
      && r.after.active == (c.active - Members(r.demoted)) + Members(r.promoted)
  {
    PicksAreDormant(c);
    LruOrderEnumerates(c, order);
    var r := Rotated(c, order);
    var lru := c.LruOrder(order);
    assert forall a :: a in r.demoted ==> a in lru;
    assert Members([]) == {};
  }

  /** It promotes a full batch when enough actors are dormant, and demotes as many as it
      promotes unless the active set runs out. */
  lemma RotationCounts(c: Cohort, order: seq<ActorId>)
    requires c.Inv() && Enumerates(order, c.active)
    ensures var r := Rotated(c, order);
      && |c.active| <= |c.registered|
      && |r.promoted| == (if |c.registered| <= c.config.maxActive then 0
                          else Min(c.config.rotationBatchSize, |c.registered| - |c.active|))
      && |r.demoted| == Min(|r.promoted|, |c.active|)
  {
    DormantCount(c);
    PicksAreDormant(c);
    LruOrderEnumerates(c, order);
  }

  lemma RotationSize(c: Cohort, order: seq<ActorId>)
    requires c.Inv() && Enumerates(order, c.active)
    ensures var r := Rotated(c, order);
      |r.after.active| == |c.active| - |r.demoted| + |r.promoted|
  {
    RotationSwaps(c, order);
    var r := Rotated(c, order);
    DistinctSize(r.demoted);
    DistinctSize(r.promoted);
    assert Members(r.demoted) <= c.active;
    assert Members(r.promoted) !! c.active;
  }

  // ----- the invariant, over runs -----

  lemma InvPreserved(c: Cohort, op: Op)
    requires c.Inv() && Legal(c, op)
    ensures Next(c, op).Inv()
  {
    match op
    case Register(ids) =>
      assert forall a :: a in ids[..Min(c.config.maxActive, |ids|)] ==> a in ids;
    case Enqueue(a, e) =>
    case Drain(a) =>
    case TryPromote(a, order) => VictimIsActive(c, order);
    case Rotate(order) => RotationKeepsInv(c, order);
    case RecordActivation(a, tick) =>
  }

  lemma RotationKeepsInv(c: Cohort, order: seq<ActorId>)
    requires c.Inv() && Enumerates(order, c.active)
    ensures Rotated(c, order).after.Inv()
  {
    RotationSwaps(c, order);
    PicksAreDormant(c);
  }

  lemma VictimIsActive(c: Cohort, order: seq<ActorId>)
    requires Enumerates(order, c.active)
    ensures Victim(c, order).None? <==> c.active == {}
    ensures Victim(c, order).Some? ==> Victim(c, order).value in c.active
  {
    LruOrderEnumerates(c, order);
    if order != [] {
      assert c.LruOrder(order)[0] in c.LruOrder(order);
    }
  }

  /** The promise of the module: exactly `maxActive` actors are active, or all of them
      when fewer are registered. */
  ghost predicate Capped(c: Cohort) {
    c.Inv() && |c.active| == Min(c.config.maxActive, |c.registered|)
  }

  function Fresh(config: Config): Cohort {
    Cohort(config, [], {}, map[], map[], 0, 0)
  }

  /** Of all calls, only a rotation can break the cap. */
  lemma CapKept(c: Cohort, op: Op)
    requires Capped(c) && Legal(c, op)
    requires op.Rotate? ==> c.config.rotationBatchSize <= c.config.maxActive
    ensures Capped(Next(c, op))
  {
    InvPreserved(c, op);
    match op
    case Register(ids) => DistinctSize(ids[..Min(c.config.maxActive, |ids|)]);
    case Enqueue(a, e) =>
    case Drain(a) =>
    case TryPromote(a, order) =>
      assert c.active != {};
      PromotionKeepsSize(c, a, order);
    case Rotate(order) => RotationKeepsSize(c, order);
    case RecordActivation(a, tick) =>
  }

  lemma RotationKeepsSize(c: Cohort, order: seq<ActorId>)
    requires Capped(c) && Enumerates(order, c.active)
    requires c.config.rotationBatchSize <= c.config.maxActive
    ensures |Rotated(c, order).after.active| == |c.active|
    ensures Rotated(c, order).after.registered == c.registered
    ensures Rotated(c, order).after.config == c.config
  {
    RotationCounts(c, order);
    RotationSize(c, order);
  }

  lemma PromotionKeepsSize(c: Cohort, a: ActorId, order: seq<ActorId>)
    requires c.active != {} && Enumerates(order, c.active)
    ensures |Promoted(c, a, order).after.active| == |c.active|
  {
    VictimIsActive(c, order);
  }

  /** One rotation of a capped cohort keeps the active count, and is a non-empty swap,
      exactly when the batch it can fill fits in the active set. */
  lemma RotationKeepsSizeIff(c: Cohort, order: seq<ActorId>)
    requires Capped(c) && Enumerates(order, c.active) && |c.registered| > c.config.maxActive
    ensures var r := Rotated(c, order);
      && (|r.after.active| == |c.active| <==>
            Min(c.config.rotationBatchSize, |c.registered| - c.config.maxActive) <= c.config.maxActive)
      && (|r.demoted| == |r.promoted| <==> |r.after.active| == |c.active|)
      && |r.promoted| > 0 && |r.demoted| > 0
  {
    RotationCounts(c, order);
    RotationSize(c, order);
  }

  lemma {:induction false} CappedRun(c: Cohort, ops: seq<Op>)
    requires Capped(c) && LegalRun(c, ops)
    requires c.config.rotationBatchSize <= c.config.maxActive
    ensures Capped(Run(c, ops))
    decreases |ops|
  {
    if ops != [] {
      CapKept(c, ops[0]);
      CappedRun(Next(c, ops[0]), ops[1..]);
    }
  }

  /** Names of different lengths are different. */
  lemma NamesDistinct(r: seq<ActorId>)
    requires forall i :: 0 <= i < |r| ==> |r[i]| == i
    ensures Distinct(r)
  {
    forall i, j | 0 <= i < j < |r| ensures r[i] != r[j] {
      assert |r[i]| == i && |r[j]| == j;
    }
  }

  /** `n` distinct names. */
  function Names(n: nat): (r: seq<ActorId>)
    ensures |r| == n && Distinct(r)
  {
    var r := seq(n, i requires 0 <= i < n => seq(i, j => 'n'));
    NamesDistinct(r);
    r
  }

  /** A run that overshoots: register more than twice the cap, rotate once. */
  function Overshoot(config: Config): seq<Op> {
    var ids := Names(2 * config.maxActive + 1);
    [Register(ids), Rotate(ids[..config.maxActive])]
  }

  lemma OvershootBreaksCap(config: Config)
    requires config.Valid() && config.rotationBatchSize > config.maxActive
    ensures LegalRun(Fresh(config), Overshoot(config))
    ensures |Run(Fresh(config), Overshoot(config)).active| == config.maxActive + 1
  {
    var ids := Names(2 * config.maxActive + 1);
    var rotate := Rotate(ids[..config.maxActive]);
    assert Overshoot(config) == [Register(ids), rotate];
    OvershootRotation(config, ids);
    RunTwo(Fresh(config), Register(ids), rotate);
  }

  lemma OvershootRotation(config: Config, ids: seq<ActorId>)
    requires config.Valid() && config.rotationBatchSize > config.maxActive
    requires Distinct(ids) && |ids| == 2 * config.maxActive + 1
    ensures var c := Next(Fresh(config), Register(ids)); var rotate := Rotate(ids[..config.maxActive]);
      Legal(c, rotate) && |Next(c, rotate).active| == config.maxActive + 1
  {
    var c := Registered(Fresh(config), ids);
    CapKept(Fresh(config), Register(ids));
    RotationCounts(c, ids[..config.maxActive]);
    RotationSize(c, ids[..config.maxActive]);
  }

  lemma RunOne(c: Cohort, op: Op)
    ensures Run(c, [op]) == Next(c, op)
    ensures LegalRun(c, [op]) <==> Legal(c, op)
  {
    assert [op][1..] == [];
    assert LegalRun(Next(c, op), []) && Run(Next(c, op), []) == Next(c, op);
  }

  lemma RunTwo(c: Cohort, first: Op, second: Op)
    ensures Run(c, [first, second]) == Next(Next(c, first), second)
    ensures LegalRun(c, [first, second]) <==> Legal(c, first) && Legal(Next(c, first), second)
  {
    assert [first, second][1..] == [second];
    RunOne(Next(c, first), second);
  }

  lemma {:induction false} RunKeepsConfig(c: Cohort, ops: seq<Op>)
    ensures Run(c, ops).config == c.config
    decreases |ops|
  {
    if ops != [] {
      RunKeepsConfig(Next(c, ops[0]), ops[1..]);
    }
  }

  /** The cap holds throughout every legal run if and only if the configured batch
      does not exceed the cap. The constructor does not check this. */
  lemma CapHoldsIff(config: Config)
    requires config.Valid()
    ensures (forall ops :: LegalRun(Fresh(config), ops) ==> Capped(Run(Fresh(config), ops)))
            <==> config.rotationBatchSize <= config.maxActive
  {
    if config.rotationBatchSize <= config.maxActive {
      forall ops | LegalRun(Fresh(config), ops) ensures Capped(Run(Fresh(config), ops)) {
        CappedRun(Fresh(config), ops);
      }
    } else {
      OvershootBreaksCap(config);
      RunKeepsConfig(Fresh(config), Overshoot(config));
    }
  }

  // ----- the active count, for every configuration -----

  function Max(x: nat, y: nat): nat {
    if x >= y then x else y
  }

  /** How many actors are active from the first rotation after a registration on. */
  function SettledCount(c: Cohort): nat {
    var n, cap := |c.registered|, c.config.maxActive;
    if n <= cap then n else Max(cap, Min(c.config.rotationBatchSize, n - cap))
  }

  /** The active count of a manager that has rotated, or not, since its registration. */
  ghost predicate Counted(c: Cohort, rotated: bool) {
    c.Inv() && |c.active| == if rotated then SettledCount(c) else Min(c.config.maxActive, |c.registered|)
  }

  /** Whether a rotation has happened since the latest registration. */
  function RotatedSince(rotated: bool, ops: seq<Op>): bool {
    if ops == [] then rotated
    else
      match ops[|ops| - 1]
      case Register(_) => false
      case Rotate(_) => true
      case _ => RotatedSince(rotated, ops[..|ops| - 1])
  }

  lemma RotationSettles(c: Cohort, rotated: bool, order: seq<ActorId>)
    requires Counted(c, rotated) && Enumerates(order, c.active)
    ensures Counted(Rotated(c, order).after, true)
  {
    RotationKeepsInv(c, order);
    RotatedSize(c, order);
    if |c.registered| > c.config.maxActive {
      SwapSettles(|c.registered|, c.config.maxActive, c.config.rotationBatchSize, |c.active|);
    }
  }

  lemma RotatedSize(c: Cohort, order: seq<ActorId>)
    requires c.Inv() && Enumerates(order, c.active)
    ensures var after, n, active := Rotated(c, order).after, |c.registered|, |c.active|;
      && after.registered == c.registered && after.config == c.config && active <= n
      && |after.active| == if n <= c.config.maxActive then active
                           else var swapped := Min(c.config.rotationBatchSize, n - active);
                                active - Min(swapped, active) + swapped
  {
    RotationCounts(c, order);
    RotationSize(c, order);
  }

  /** From either count, swapping a batch in and what is there out leads to the settled count. */
  lemma SwapSettles(n: nat, cap: nat, batch: nat, active: nat)
    requires 0 < cap < n && 0 < batch
    requires active == cap || active == Max(cap, Min(batch, n - cap))
    ensures var swapped := Min(batch, n - active);
      active - Min(swapped, active) + swapped == Max(cap, Min(batch, n - cap))
  {
  }

  lemma CountedStep(c: Cohort, rotated: bool, op: Op)
    requires Counted(c, rotated) && Legal(c, op)
    ensures Counted(Next(c, op), if op.Register? then false else rotated || op.Rotate?)
  {
    InvPreserved(c, op);
    match op
    case Register(ids) => DistinctSize(ids[..Min(c.config.maxActive, |ids|)]);
    case TryPromote(a, order) =>
      assert c.active != {};
      PromotionKeepsSize(c, a, order);
    case Rotate(order) => RotationSettles(c, rotated, order);
    case _ =>
  }

  lemma {:induction false} RunAppend(c: Cohort, ops: seq<Op>, op: Op)
    ensures Run(c, ops + [op]) == Next(Run(c, ops), op)
    ensures LegalRun(c, ops + [op]) <==> LegalRun(c, ops) && Legal(Run(c, ops), op)
    decreases |ops|
  {
    if ops == [] {
      assert [] + [op] == [op];
      RunOne(c, op);
    } else {
      assert (ops + [op])[1..] == ops[1..] + [op];
      RunAppend(Next(c, ops[0]), ops[1..], op);
    }
  }

  /** The exact active count in every legal run, whatever the batch: the cap, or everyone,
      after a registration, and the settled count from the first rotation on. */
  lemma {:induction false} ActiveCount(config: Config, ops: seq<Op>)
    requires config.Valid() && LegalRun(Fresh(config), ops)
    ensures Counted(Run(Fresh(config), ops), RotatedSince(false, ops))
    decreases |ops|
  {
    if ops != [] {
      var n := |ops| - 1;
      assert ops == ops[..n] + [ops[n]];
      RunAppend(Fresh(config), ops[..n], ops[n]);
      ActiveCount(config, ops[..n]);
      CountedStep(Run(Fresh(config), ops[..n]), RotatedSince(false, ops[..n]), ops[n]);
    }
  }
}
