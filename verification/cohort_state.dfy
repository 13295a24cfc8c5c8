/**
 The cohort manager as a value: its configuration, its fields, and the effect of
 every public operation on them. Where the program iterates over the active set,
 the iteration order is a parameter, so what is proved holds for any order.
 */
module CohortState {
  import opened SharedTypes
  import opened StableSort

  datatype QueuedEvent = QueuedEvent(eventType: string, queuedTick: int, reason: string)

  datatype RotationPolicy = RoundRobin | Recency | EventPressureWeighted

  /** The constructor's keyword arguments; `draws(i)` is the i-th number that a
      random generator freshly seeded with `seed` returns. */
  datatype Config = Config(
    maxActive: nat,
    rotationPolicy: RotationPolicy,
    rotationBatchSize: nat,
    promoteBudgetPerTick: nat,
    queueMaxPerNpc: nat,
    draws: nat -> int)
  {
    /** The constructor raises unless this holds. */
    ghost predicate Valid() {
      maxActive > 0 && rotationBatchSize > 0 && queueMaxPerNpc > 0
    }
  }

  datatype Cohort = Cohort(
    config: Config,
    registered: seq<ActorId>,
    active: set<ActorId>,
    queues: map<ActorId, seq<QueuedEvent>>,
    lastActivation: map<ActorId, int>,
    rrCursor: nat,
    promoteUsed: nat)
  {
    function Queue(a: ActorId): seq<QueuedEvent> {
      if a in queues then queues[a] else []
    }

    function LastTick(a: ActorId): int {
      if a in lastActivation then lastActivation[a] else -1
    }

    function LruKey(a: ActorId): Key {
      Key(LastTick(a), if a in registered then IndexOf(registered, a) else 0)
    }

    function LruPairs(order: seq<ActorId>): seq<(Key, ActorId)> {
      seq(|order|, i requires 0 <= i < |order| => (LruKey(order[i]), order[i]))
    }

    /** The active actors sorted by their keys, the set being iterated in `order`. */
    function LruOrder(order: seq<ActorId>): seq<ActorId> {
      Items(Sort(LruPairs(order)))
    }

    function PressurePairs(ids: seq<ActorId>): seq<(Key, ActorId)> {
      seq(|ids|, i requires 0 <= i < |ids| => (Key(-|Queue(ids[i])|, IndexOf(registered, ids[i])), ids[i]))
    }

    function RecencyPairs(ids: seq<ActorId>): seq<(Key, ActorId)> {
      seq(|ids|, i requires 0 <= i < |ids| => (Key(LastTick(ids[i]), config.draws(i)), ids[i]))
    }

    /** What holds of a manager between calls. */
    ghost predicate Inv() {
      && config.Valid()
      && Distinct(registered)
      && (forall a :: a in active ==> a in registered)
      && (registered == [] ==> rrCursor == 0)
      && (registered != [] ==> rrCursor < |registered|)
      && promoteUsed <= config.promoteBudgetPerTick
      && (forall a :: a in queues ==> |queues[a]| <= config.queueMaxPerNpc)
    }
  }

  predicate Distinct<T(==)>(s: seq<T>) {
    forall i, j :: 0 <= i < j < |s| ==> s[i] != s[j]
  }

  /** `order` is one of the orders in which the set can be iterated. */
  ghost predicate Enumerates(order: seq<ActorId>, s: set<ActorId>) {
    Distinct(order) && forall a :: a in order <==> a in s
  }

  function Members(s: seq<ActorId>): set<ActorId> {
    set a | a in s
  }

  function Min(x: nat, y: nat): nat {
    if x <= y then x else y
  }

  /** Where the actor occurs first in the list. */
  function IndexOf(s: seq<ActorId>, a: ActorId): (i: nat)
    ensures a in s ==> i < |s| && s[i] == a
  {
    if s == [] || s[0] == a then 0 else 1 + IndexOf(s[1..], a)
  }

  function Items(s: seq<(Key, ActorId)>): (r: seq<ActorId>)
    ensures |r| == |s|
  {
    seq(|s|, i requires 0 <= i < |s| => s[i].1)
  }

  function Dormant(ids: seq<ActorId>, active: set<ActorId>): (r: seq<ActorId>)
    ensures forall a :: a in r <==> a in ids && a !in active
    ensures |r| <= |ids|
  {
    if ids == [] then []
    else if ids[0] in active then Dormant(ids[1..], active)
    else [ids[0]] + Dormant(ids[1..], active)
  }

  /** The registered list, read cyclically from the cursor. */
  function Ring(registered: seq<ActorId>, cursor: nat): (r: seq<ActorId>)
    ensures |r| == |registered|
  {
    registered[Min(cursor, |registered|)..] + registered[..Min(cursor, |registered|)]
  }

  /** The cursor after passing `steps <= n` positions of a list of length `n`. */
  function Advance(cursor: nat, steps: nat, n: nat): nat {
    if cursor + steps < n || n == 0 then cursor + steps else if cursor + steps < 2 * n then cursor + steps - n else 0
  }

  /** Length of the shortest prefix of `ring` that holds `picks` dormant actors. */
  function Span(ring: seq<ActorId>, active: set<ActorId>, picks: nat): (k: nat)
    ensures k <= |ring|
  {
    if picks == 0 || ring == [] then 0
    else 1 + Span(ring[1..], active, if ring[0] in active then picks else picks - 1)
  }

  function RoundRobinPick(c: Cohort, batch: nat): (seq<ActorId>, nat) {
    var ring := Ring(c.registered, c.rrCursor);
    var span := Span(ring, c.active, batch);
    (Dormant(ring[..span], c.active), Advance(c.rrCursor, span, |ring|))
  }

  /** The policy's picks, at most one batch of them, and the new cursor. */
  function Picks(c: Cohort): (seq<ActorId>, nat) {
    var dormant := Dormant(c.registered, c.active);
    var batch := Min(c.config.rotationBatchSize, |dormant|);
    match c.config.rotationPolicy
    case RoundRobin => RoundRobinPick(c, batch)
    case Recency => (Items(Sort(c.RecencyPairs(dormant)))[..batch], c.rrCursor)
    case EventPressureWeighted => (Items(Sort(c.PressurePairs(dormant)))[..batch], c.rrCursor)
  }

  // ----- operations -----

  function Registered(c: Cohort, ids: seq<ActorId>): Cohort {
    Cohort(c.config, ids, Members(ids[..Min(c.config.maxActive, |ids|)]),
           map[], map[], 0, 0)
  }

  /** The new state and whether the queue had room. */
  function Enqueued(c: Cohort, a: ActorId, e: QueuedEvent): (Cohort, bool) {
    var q := c.Queue(a);
    if |q| >= c.config.queueMaxPerNpc && q != [] then
      (c.(queues := c.queues[a := q[1..] + [e]]), false)
    else
      (c.(queues := c.queues[a := q + [e]]), true)
  }

  function Drained(c: Cohort, a: ActorId): (Cohort, seq<QueuedEvent>) {
    (c.(queues := c.queues - {a}), c.Queue(a))
  }

  function Victim(c: Cohort, order: seq<ActorId>): Option<ActorId> {
    if order == [] then None else Some(c.LruOrder(order)[0])
  }

  datatype Promotion = Promotion(after: Cohort, promoted: bool, evicted: Option<ActorId>)

  function Promoted(c: Cohort, a: ActorId, order: seq<ActorId>): Promotion {
    if a in c.active then Promotion(c, true, None)
    else if c.promoteUsed >= c.config.promoteBudgetPerTick then Promotion(c, false, None)
    else
      var victim := Victim(c, order);
      var rest := if victim.Some? then c.active - {victim.value} else c.active;
      Promotion(c.(active := rest + {a}, promoteUsed := c.promoteUsed + 1), true, victim)
  }

  datatype Rotation = Rotation(after: Cohort, demoted: seq<ActorId>, promoted: seq<ActorId>)

  function Rotated(c: Cohort, order: seq<ActorId>): Rotation {
    var reset := c.(promoteUsed := 0);
    if |c.registered| <= c.config.maxActive || Dormant(c.registered, c.active) == [] then
      Rotation(reset, [], [])
    else
      var (promoted, cursor) := Picks(c);
      var demoted := c.LruOrder(order)[..Min(|promoted|, |order|)];
      Rotation(reset.(active := (c.active - Members(demoted)) + Members(promoted), rrCursor := cursor),
               demoted, promoted)
  }

  function Activated(c: Cohort, a: ActorId, tick: int): Cohort {
    c.(lastActivation := c.lastActivation[a := tick])
  }

  // ----- runs -----

  /** A call; `order` is how the active set happens to be iterated during it. */
  datatype Op =
    | Register(ids: seq<ActorId>)
    | Enqueue(actor: ActorId, event: QueuedEvent)
    | Drain(actor: ActorId)
    | TryPromote(actor: ActorId, order: seq<ActorId>)
    | Rotate(order: seq<ActorId>)
    | RecordActivation(actor: ActorId, tick: int)

  function Next(c: Cohort, op: Op): Cohort {
    match op
    case Register(ids) => Registered(c, ids)
    case Enqueue(a, e) => Enqueued(c, a, e).0
    case Drain(a) => Drained(c, a).0
    case TryPromote(a, order) => Promoted(c, a, order).after
    case Rotate(order) => Rotated(c, order).after
    case RecordActivation(a, tick) => Activated(c, a, tick)
  }

  datatype Answer =
    | Nothing
    | Room(hadRoom: bool)
    | Events(events: seq<QueuedEvent>)
    | Promote(promoted: bool, evicted: Option<ActorId>)
    | Swap(demoted: seq<ActorId>, promotedIds: seq<ActorId>)

  /** What the call returns. */
  function Reply(c: Cohort, op: Op): Answer {
    match op
    case Register(ids) => Nothing
    case Enqueue(a, e) => Room(Enqueued(c, a, e).1)
    case Drain(a) => Events(Drained(c, a).1)
    case TryPromote(a, order) => Promote(Promoted(c, a, order).promoted, Promoted(c, a, order).evicted)
    case Rotate(order) => Swap(Rotated(c, order).demoted, Rotated(c, order).promoted)
    case RecordActivation(a, tick) => Nothing
  }

  /** What the callers of the manager guarantee. */
  ghost predicate Legal(c: Cohort, op: Op) {
    match op
    case Register(ids) => Distinct(ids)
    case TryPromote(a, order) => a in c.registered && Enumerates(order, c.active)
    case Rotate(order) => Enumerates(order, c.active)
    case _ => true
  }

  ghost predicate LegalRun(c: Cohort, ops: seq<Op>)
    decreases |ops|
  {
    ops == [] || (Legal(c, ops[0]) && LegalRun(Next(c, ops[0]), ops[1..]))
  }

  function Run(c: Cohort, ops: seq<Op>): Cohort
    decreases |ops|
  {
    if ops == [] then c else Run(Next(c, ops[0]), ops[1..])
  }

  function Replies(c: Cohort, ops: seq<Op>): seq<Answer>
    decreases |ops|
  {
    if ops == [] then [] else [Reply(c, ops[0])] + Replies(Next(c, ops[0]), ops[1..])
  }
}
