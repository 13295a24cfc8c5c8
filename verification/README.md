# Volnix verification

A Dafny model of the parts of Volnix where state, order and arithmetic are hardest to get
right, with proofs about them:

- **Cohort manager** (`cohort_state.dfy`, `cohort_manager.dfy`, `cohort_cap.dfy`, `cohort_runs.dfy`,
  `cohort_fairness.dfy`, `stable_sort.dfy`): the scheduler that caps how many NPCs are active. The
  manager is an object whose methods are proved to do what `CohortState` says; runs are sequences
  of calls. Wherever Python iterates over the active set, the iteration order is a parameter and the
  results hold for every order.
- **Message history** (`message_history.dfy`, `tool_pairing.dfy`, `tool_grammar.dfy`,
  `history_compaction.dfy`): the block repair that pairs tool calls with tool responses, proved
  against a statement of which positions survive and against a grammar; and the compaction of tool
  results.
- **Event bus** (`bus_protocol.dfy`, `bus_laws.dfy`, `bus_effects.dfy`, `topic_fanout.dfy`,
  `event_bus.dfy`): `publish` split at its awaits into atomic steps, with consumers, subscriptions
  and cancellations, any number of publishes interleaved, with and without persistence; the fan-out
  dispatcher as an object with its loop over bounded queues; and the bus as an object over real
  subscriptions, where each stretch of code between two awaits is proved to be one step of the
  protocol.
- **Ledger** (`ledger_entries.dfy`): typed deserialization with wrappers for unknown entries, for
  readers of any version.
- **Configuration** (`config_merge.dfy`, `config_paths.dfy`, `config_shapes.dfy`, `config_objects.dfy`,
  `config_sharing.dfy`, `config_copying.dfy`, `config_builder.dfy`): recursive merging, path setters,
  defaults and the builder. The algebra is proved on values; the methods work on nested dictionaries
  that are objects changed in place, and are proved against it through a picture of which object
  stands where (`Shape`). In the builder a dictionary may stand at several paths.
- **Actors** (`actor_registry.dfy`, `slot_state.dfy`, `slot_manager.dfy`, `friction_counts.dfy`):
  indexes that must agree with a scan, four maps that must describe one bijection, and nested
  rounding.

`sequences.dfy` and `shared_types.dfy` hold shared facts about sequences and multisets, and shared types.

## Where a promise holds only conditionally

- The comment in `rotate` says the active size stays constant. It does exactly when the batch that
  can be filled fits in the active set (`RotationKeepsSizeIff`), and the cap holds over all runs
  exactly when `rotation_batch_size <= max_active` (`CapHoldsIff`); the constructor does not check
  this, `CohortConfig` (volnix/engines/agency/config.py:85-90) does. For larger batches the count is
  exact too (`ActiveCount`). Fairness holds for every valid configuration, at the pace that this
  count leaves (`ReachablePace`).
- `deep_merge` is associative exactly when no middle scalar hides key paths of a lower dictionary
  that the top dictionary lacks (`MergeAssociativeIff`).
- Two environment overrides commute exactly when neither path leads through the other, or they are
  equal (`OverridesCommuteIff`); the order in which the environment lists them is irrelevant exactly
  when this holds of every two (`EnvironmentOrderIrrelevantIff`). Names are lowered, so two variables
  can denote one path; then, unless they agree, the environment's order decides.
- `ConfigBuilder.raw` does what merging a one-path layer does exactly when the dictionary it writes
  stands at no other path of the configuration, or the value is there already (`ConfigBuilder.Raw`);
  section setters take in dictionaries of their arguments, so it may well stand at several.
- Defaults for data paths are a layer below the configuration (`DefaultsAreLowestLayer`) unless one
  of their sections holds something other than a dictionary; then `setdefault` raises, with the
  defaults before it already filled in (`ApplyUserDataDefaults`).
- Compacting twice is compacting once exactly when the second call keeps no more results than the
  first (`CompactionsCollapseIff`).
- `restore_assignment` documents that a different token for a claimed actor overwrites the prior
  token. The prior token stays live and still resolves to the actor (`StaleTokenSurvives`); the maps
  agree exactly after safe restores (`RestoreAgreesIff`), and bindings and sessions stay inverse
  exactly as long as no bound token is taken from another actor (`InverseKeptIff`).
- `query(team=None)` finds nobody, since actors without a team are in no bucket; a query is a scan
  exactly when this does not matter (`ActorRegistry.Query`, `TeamlessIsMissed`).
- Fan-out order equals log order as long as a publish begins only when all earlier ones are past
  fan-out (`LogOrderIsFanoutOrder`). In any reachable state, beginning a publish keeps the order, for
  every event and everything that may happen before the next one begins, exactly when no earlier
  publish is still in the first middleware, in persistence, or logged and waiting for fan-out
  (`BeginKeepsOrderIff`); otherwise the new one can overtake it (`CanOvertake`). A publish cancelled
  between logging and fan-out stays in the log only; the counts account for it
  (`PersistBeforeFanout`).

## Model

| member | source | states |
|---|---|---|
| `StableSort.SortIgnoresOrder` | volnix/actors/cohort_manager.py:355 | `sorted` with a key gives one result for all input orders when no two entries tie |
| `StableSort.SortIsStable` | volnix/actors/cohort_manager.py:355 | entries that tie stay in the order in which they came |
| `StableSort.Minimum` | volnix/actors/cohort_manager.py:253 | `min` with a key is the head of the stable sort |
| `CohortCap.CapHoldsIff` | volnix/actors/cohort_manager.py:257-301 | over every legal run from a new manager the active set has exactly min(max_active, registered) members, if and only if the configured batch does not exceed the cap |
| `CohortCap.CappedRun` | volnix/actors/cohort_manager.py:136-301 | with such a batch the cap and the invariant survive any mix of register, enqueue, drain, try_promote, rotate and record_activation |
| `CohortCap.ActiveCount` | volnix/actors/cohort_manager.py:136-301 | for every valid configuration, in every legal run: exactly min(max_active, n) actors are active after a registration, and from the first rotation on exactly max(max_active, min(batch, n - max_active)), or all n when there are no more than max_active |
| `CohortCap.OvershootBreaksCap` | volnix/actors/cohort_manager.py:283-292 | for every larger batch, registering 2 * max_active + 1 actors and rotating once leaves max_active + 1 active |
| `CohortCap.RotationKeepsSizeIff` | volnix/actors/cohort_manager.py:283-292 | one rotation keeps the active count, and swaps equal non-zero numbers, exactly when the batch it can fill fits in the active set |
| `CohortCap.RotationSwaps` | volnix/actors/cohort_manager.py:272-301 | promoted actors were dormant, demoted ones active, both without repetition, and the new active set is the old one with that swap |
| `CohortCap.RotationCounts` | volnix/actors/cohort_manager.py:285-287 | a full batch is promoted when enough actors are dormant, and as many are demoted unless the active set runs out |
| `CohortCap.PicksAreDormant` | volnix/actors/cohort_manager.py:303-344 | each of the three policies picks distinct dormant actors, as many as the batch allows |
| `CohortCap.SpanPrefix` | volnix/actors/cohort_manager.py:313-323 | the cursor's walk passes exactly the first dormant actors in cyclic order |
| `CohortRuns.LruIsDeterministic` | volnix/actors/cohort_manager.py:237-253 | whatever order the active set is iterated in, eviction victim, demotion order and rotation are the same, and the victim is the demotion batch of size one |
| `CohortRuns.DemotesLeastRecent` | volnix/actors/cohort_manager.py:346-355 | every demoted actor was last activated before every retained one, or at the same tick and is registered earlier |
| `CohortRuns.DemotedInOrder` | volnix/actors/cohort_manager.py:346-355 | and they are demoted in that order |
| `CohortRuns.PromotionReplacesLeastRecent` | volnix/actors/cohort_manager.py:218-253 | a promotion succeeds exactly for an active actor or while budget is left; only for a dormant one it changes anything, namely the active set and the counter, and the actor it replaces was last activated before every other active one, or at the same tick and is registered earlier |
| `CohortRuns.RegistrationStarts` | volnix/actors/cohort_manager.py:136-152 | exactly the first max_active actors of the list are active, nobody has a queue or an activation, the budget is whole and the cursor at the start |
| `CohortRuns.RecencyIsLatestActivation` | volnix/actors/cohort_manager.py:359-366 | through any run the recorded tick of an actor is that of the latest activation since registration |
| `CohortRuns.PressurePicksDeepest` | volnix/actors/cohort_manager.py:335-344 | event pressure promotes the deepest queues, ties to the earlier registered |
| `CohortRuns.PressureInOrder` | volnix/actors/cohort_manager.py:335-344 | in that order |
| `CohortRuns.RecencyPicksOldest` | volnix/actors/cohort_manager.py:326-333 | recency promotes the longest inactive; draws only break ties |
| `CohortRuns.RecencyInOrder` | volnix/actors/cohort_manager.py:326-333 | in that order |
| `CohortRuns.RunsAreDeterministic` | volnix/actors/cohort_manager.py:33-36 | equal calls on equal states give equal answers and end states over whole runs, for any set iteration orders |
| `CohortRuns.PromotionBudget` | volnix/actors/cohort_manager.py:225-235 | promotions of dormant actors in a run never exceed the budget times one plus rotations and registrations |
| `CohortRuns.BudgetStep` | volnix/actors/cohort_manager.py:264-266 | how each call changes the budget counter: reset by rotate and register, advanced by a preemption only |
| `CohortRuns.QueueRefinesLog` | volnix/actors/cohort_manager.py:185-211 | through any run a deferred queue is the newest part of an unbounded log since the last drain or registration, and draining returns exactly that in order |
| `CohortRuns.EventsConserved` | volnix/actors/cohort_manager.py:185-211 | between registrations, events enqueued plus initial depth equal events drained plus dropped plus final depth |
| `CohortRuns.DepthWithout` | volnix/actors/cohort_manager.py:377 | the total depth of the queues does not depend on the order they are summed in |
| `CohortFairness.RoundRobinStarvesNobody` | volnix/actors/cohort_manager.py:303-324 | for every valid configuration with more actors than the cap: any run with ceil(n / pace) rotations, mixed with any other calls but register, finds every actor active right before or after one of them |
| `CohortFairness.ReachablePace` | volnix/actors/cohort_manager.py:303-324 | in every reachable state the pace is min(batch, n - settled active count), hence min(batch, n - max_active) for a batch within the cap |
| `CohortFairness.CappedPace` | volnix/actors/cohort_manager.py:303-324 | at the cap and with a batch within it, the pace is what the dormant actors can fill |
| `CohortFairness.ServedWithin` | volnix/actors/cohort_manager.py:313-323 | the same for one actor, by its distance from the cursor |
| `CohortFairness.SpanServes` | volnix/actors/cohort_manager.py:313-323 | every position the cursor passes is active or picked; the others come closer by a batch |
| `CohortFairness.RoundRobinPicksNearest` | volnix/actors/cohort_manager.py:303-324 | round-robin promotes the dormant actors that come first after the cursor, cyclically |
| `CohortFairness.RoundRobinInOrder` | volnix/actors/cohort_manager.py:303-324 | in that order |
| `CohortFairness.CursorFollowsLastPick` | volnix/actors/cohort_manager.py:319-322 | and leaves the cursor right behind the last one promoted |
| `CohortManagement.CohortManager.constructor` | volnix/actors/cohort_manager.py:86-132 | a valid configuration yields an empty manager that satisfies the invariant |
| `CohortManagement.CohortManager.Register` | volnix/actors/cohort_manager.py:136-152 | replaces the registered list, activates its first max_active actors, and resets everything else; the invariant holds when no id is listed twice |
| `CohortManagement.CohortManager.Enqueue` | volnix/actors/cohort_manager.py:185-202 | appends to the actor's queue, dropping the oldest when full, and reports which |
| `CohortManagement.CohortManager.DrainQueue` | volnix/actors/cohort_manager.py:204-211 | returns the queue and removes its entry |
| `CohortManagement.CohortManager.TryPromote` | volnix/actors/cohort_manager.py:218-235 | the promotion step, for every id and every order the active set could be iterated in; the invariant is kept for a registered id |
| `CohortManagement.CohortManager.PickEvictionVictim` | volnix/actors/cohort_manager.py:237-253 | the minimum of the active set by (last activation, position), for every iteration order |
| `CohortManagement.CohortManager.WalkToDormant` | volnix/actors/cohort_manager.py:314-323 | one lap at most: finds the next pick in cyclic order, or none is left and the cursor is back |
| `CohortManagement.CohortManager.RotateRoundRobin` | volnix/actors/cohort_manager.py:303-324 | the loops pick the first dormant actors in cyclic order and leave the cursor after the last |
| `CohortManagement.CohortManager.PickDemoteBatch` | volnix/actors/cohort_manager.py:346-355 | the first `batch` actors of the LRU order, for every iteration order |
| `CohortManagement.CohortManager.Rotate` | volnix/actors/cohort_manager.py:257-301 | the rotation step, for every order the active set could be iterated in |
| `CohortManagement.CohortManager.RecordActivation` | volnix/actors/cohort_manager.py:359-366 | records the tick and changes nothing else |
| `CohortManagement.CohortManager.Stats` | volnix/actors/cohort_manager.py:368-383 | counts, summed queue depth, and budget minus use: the clamp at zero never acts |
| `ToolPairing.RepairToolCallPairing` | volnix/llm/_tool_pairing.py:21-75 | the loop keeps exactly the positions that the declarative `Keeps` describes, in order |
| `ToolPairing.CollectResponses` | volnix/llm/_tool_pairing.py:41-50 | the inner loop finds the end of the run of tool messages, the declared ids seen in it and the first answer to each |
| `ToolPairing.KeptBelowLists` | volnix/llm/_tool_pairing.py:24-32 | the kept positions are all and only those that qualify, strictly increasing |
| `ToolPairing.KeepsMeans` | volnix/llm/_tool_pairing.py:24-58 | what is kept, by roles and ids alone: every plain message, a caller all of whose calls are answered in the run of tool messages after it, and the first answer to each of its calls |
| `ToolPairing.OnlyOwner` | volnix/llm/_tool_pairing.py:40-50 | a tool response can only answer to the nearest earlier message that is not a tool response |
| `ToolPairing.CompleteWhenSeen` | volnix/llm/_tool_pairing.py:46-58 | the seen ids equal the declared ids exactly when every declared id has an answer in the run |
| `ToolGrammar.RepairedIsValid` | volnix/llm/_tool_pairing.py:3-6 | every repaired history parses into plain messages and callers followed by one response per declared id |
| `ToolGrammar.RepairFixesExactlyValid` | volnix/llm/_tool_pairing.py:24-32 | the repair is the identity exactly on the histories of the grammar |
| `ToolGrammar.RepairIsIdempotent` | volnix/llm/_tool_pairing.py:21-75 | repairing twice is repairing once |
| `ToolGrammar.RepairSelects` | volnix/llm/_tool_pairing.py:24-32 | the output is an order-preserving subsequence with every plain message |
| `HistoryCompaction.CompactToolResults` | volnix/llm/_history_compaction.py:25-74 | the loop cuts or elides each tool result by how many tool results follow it, and touches nothing else |
| `HistoryCompaction.CompactedMessage` | volnix/llm/_history_compaction.py:49-74 | what each message becomes: a tool result with fewer than keep_last after it keeps the beginning of its text, max_chars characters of it if that is positive and less; an older one reads "[elided]"; nothing else changes |
| `HistoryCompaction.LastIndices` | volnix/llm/_history_compaction.py:50-57 | being among the last keep_last tool positions is having fewer than keep_last after oneself |
| `HistoryCompaction.CompactionKeepsRepair` | volnix/llm/_history_compaction.py:11-14 | repair keeps the same positions with and without compaction before it |
| `HistoryCompaction.CompactionKeepsValidity` | volnix/llm/_history_compaction.py:11-14 | a history is valid exactly when its compaction is |
| `HistoryCompaction.CompactionsCollapseIff` | volnix/llm/_history_compaction.py:25-74 | two compactions equal one with the later count and the tighter cap, on all histories, exactly when the later keeps no more |
| `HistoryCompaction.CompactionIsIdempotent` | volnix/llm/_history_compaction.py:25-74 | compacting again with the same arguments changes nothing |
| `HistoryCompaction.CompactedTextBound` | volnix/llm/_history_compaction.py:32-40 | with a positive cap the tool text is at most kept * cap plus eight characters per elided result |
| `BusProtocol.OfferAccepts` | volnix/bus/fanout.py:89-100 | on a queue within capacity the put succeeds, the result is the old queue and the event minus at most one dropped head |
| `BusProtocol.AccountedKept` | volnix/bus/bus.py:106-144 | every step keeps: events fanned out, abandoned or pending are, with multiplicity, those logged or failed |
| `BusLaws.PersistBeforeFanout` | volnix/bus/bus.py:106-144 | for all interleavings, fanned-out events are logged or counted as errors; published plus pending plus abandoned equals log plus errors, hence equality exactly when nothing is pending or abandoned |
| `BusLaws.QueuedIsPersisted` | volnix/bus/bus.py:126-141 | whatever was placed in a subscriber queue is in the log or among the failed persists |
| `BusLaws.SubscriptionLaw` | volnix/bus/fanout.py:70-101 | in every reachable state the events matched since subscribing are, in order, those that left the queue and those in it, within capacity; matched equals consumed plus dropped plus queued; the second drop branch is unreachable |
| `BusLaws.CountersAgree` | volnix/bus/bus.py:138-141 | the dropped counter is the sum over all subscriptions ever made; every consumed event was delivered, failed in its callback, was cut short by a cancellation, or is in hand |
| `BusLaws.UnsubscribedGetsNothing` | volnix/bus/bus.py:97-104 | once unsubscribed, a subscription's queue never receives another event, through any further run |
| `BusEffects.PassesWithoutPersistence` | volnix/bus/bus.py:121-141 | without persistence, what the middleware returns is fanned out next, counted as published, and nothing is logged |
| `BusEffects.PassesWithPersistence` | volnix/bus/bus.py:121-141 | with persistence, what the middleware returns is logged and then fanned out |
| `BusEffects.PassesAfterFailedPersist` | volnix/bus/bus.py:126-141 | a failed persist is counted, and the event is fanned out all the same |
| `BusEffects.DroppedGoesNowhere` | volnix/bus/bus.py:122-124 | an event that the middleware drops is never logged nor fanned out, whatever happens later |
| `BusEffects.FanoutReaches` | volnix/bus/fanout.py:83-101 | in every reachable state a fan-out puts the event last into the queue of every live subscription to its type or to everything, over the oldest event if the queue is full, and touches no other queue |
| `BusEffects.SubscribedGetsEverything` | volnix/bus/bus.py:69-95 | a subscription is offered, in order, exactly the events of its type fanned out from then on, until it is unsubscribed |
| `BusEffects.CountersMean` | volnix/bus/bus.py:138-141 | in every run, persistence or not: delivered counts the callbacks that returned, published the fan-outs, errors the failed persists; without persistence nothing is logged |
| `BusEffects.ConsumerSteps` | volnix/bus/bus.py:209-219 | the consumer takes the oldest event, lets go of it after the callback, and disturbs no other subscription |
| `BusEffects.OpenAndClosed` | volnix/bus/bus.py:118-119 | a publish begins after initialization, and none does before it or after shutdown |
| `BusEffects.PublishEnds` | volnix/bus/bus.py:143-144 | the last middleware ends the publish and changes nothing else |
| `BusEffects.CancelledCanStop` | volnix/bus/bus.py:57-64 | exactly the consumers cancelled by shutdown or by unsubscribing can stop |
| `BusEffects.StoppedTakesNothing` | volnix/bus/bus.py:220-221 | a stopped consumer never takes an event again |
| `BusLaws.LogOrderIsFanoutOrder` | volnix/bus/bus.py:109-110 | when each publish begins only after all earlier ones are past fan-out, the log is the fan-out order without failed persists and with those cancelled after logging |
| `BusLaws.BeginKeepsOrderIff` | volnix/bus/bus.py:118-139 | in every reachable state: beginning a publish keeps log order and fan-out order the same, for all events and continuations, if and only if they are so far and no earlier publish is in the first middleware, in persistence, or logged but not fanned out |
| `BusLaws.CanOvertake` | volnix/bus/bus.py:121-139 | from any state with such an earlier publish, the new one can be logged after it and fanned out before it |
| `BusLaws.OverlapCanReorder` | volnix/bus/bus.py:126-139 | two overlapping publishes can be fanned out in the opposite of their log order |
| `BusFanout.TopicFanout.AddSubscriber` | volnix/bus/fanout.py:30-41 | the entry joins the end of its topic's list; the other lists stay |
| `BusFanout.TopicFanout.RemoveSubscriber` | volnix/bus/fanout.py:43-68 | the first entry with the callback is cancelled and removed from its topic's list; nothing else changes |
| `BusFanout.TopicFanout.Fanout` | volnix/bus/fanout.py:70-101 | every target's queue is offered the event once, nothing else changes, and the drops are counted |
| `BusFanout.OfferTo` | volnix/bus/fanout.py:89-100 | one turn of the loop is the offer of the protocol |
| `BusFanout.OfferAll` | volnix/bus/fanout.py:87-101 | the loop over the targets offers the event to each once |
| `BusFanout.TopicFanout.TargetsMatch` | volnix/bus/fanout.py:83-85 | targets are exactly the listed subscriptions to the event's type and to everything |
| `EventBusObject.EventBus.PublishBegins` | volnix/bus/bus.py:118-122 | refuses a publish before initialization and after shutdown; otherwise the protocol's begin step |
| `EventBusObject.EventBus.MiddlewareReturns` | volnix/bus/bus.py:121-124 | the middleware step: drop, or go on to persistence or straight to fan-out |
| `EventBusObject.EventBus.PersistReturns` | volnix/bus/bus.py:126-136 | the persist step: the event is logged or counted as an error, and fan-out follows either way |
| `EventBusObject.EventBus.FansOut` | volnix/bus/bus.py:138-141 | the atomic fan-out step on the real queues, with both counters |
| `EventBusObject.EventBus.OffersToAll` | volnix/bus/fanout.py:83-101 | offering to the dispatcher's targets is offering to every live matching subscription |
| `EventBusObject.EventBus.Subscribes` | volnix/bus/bus.py:69-95 | the subscribe step; the new entry is last in its topic's list |
| `EventBusObject.EventBus.Unsubscribes` | volnix/bus/bus.py:97-104 | ends the first live subscription of the topic with the callback, and nothing else |
| `EventBusObject.EventBus.ConsumerGets` | volnix/bus/bus.py:209-211 | the consumer takes the oldest event of its queue |
| `EventBusObject.EventBus.CallbackReturns` | volnix/bus/bus.py:212-219 | the delivered counter moves exactly when the callback did not raise |
| `EventBusObject.EventBus.ConsumerStops` | volnix/bus/bus.py:220-221 | the cancelled consumer leaves its loop, with or without an event in hand |
| `EventBusObject.RemovalIsFirst` | volnix/bus/fanout.py:54-68 | the list entry found by callback is the earliest made live subscription, and removing it leaves exactly the other live ones in order |
| `EventBusObject.ReachedDrops` | volnix/bus/fanout.py:83-101 | the drops counted over the targets are those the protocol counts over all subscriptions |
| `LedgerEntries.OldReaderLosesNothing` | volnix/ledger/entries.py:814-897 | any reader reads a stored wrapper exactly as the original row, same clock given |
| `LedgerEntries.VisitsLoseNothing` | volnix/ledger/entries.py:828-832 | the same after any number of readers of any versions have read and stored the row |
| `LedgerEntries.UpgradeRecovers` | volnix/ledger/entries.py:831-832 | a reader that knows the type and version recovers the original payload after any such visits |
| `LedgerEntries.WrappersNeverNest` | volnix/ledger/entries.py:861-876 | discriminator and payload stay fixed and nesting does not grow over cycles, for partial and hand-nested wrapper rows too |
| `LedgerEntries.WrapsOnlyWhatItCannotRead` | volnix/ledger/entries.py:878-897 | a wrapper means an unregistered type or a newer version, with the base fields that are present lifted |
| `LedgerEntries.UnregisteredIsWrapped` | volnix/ledger/entries.py:878-897 | a row of an unregistered type is wrapped with its type, its payload and the base fields that are there, others by default, unless a base field is refused |
| `LedgerEntries.VersionDecides` | volnix/ledger/entries.py:878-897 | a row of a registered type is typed when its version, one by default, is not newer than known, and wrapped otherwise |
| `LedgerEntries.WrapperIsUnwrapped` | volnix/ledger/entries.py:868-876 | a complete wrapper row is read as the row it wraps |
| `LedgerEntries.PartialIsWrapped` | volnix/ledger/entries.py:861-876 | a partial wrapper row is wrapped as it stands, and a wrapper of a wrapper one level down |
| `LedgerEntries.UnreadableIff` | volnix/ledger/entries.py:843-859 | a row raises for its shape exactly when the payload is missing, malformed or no dictionary |
| `LedgerEntries.OddTypesAndVersions` | volnix/ledger/entries.py:878-881 | which errors other types and versions raise |
| `LedgerEntries.StoredRow` | volnix/ledger/entries.py:102-104 | what is stored for a wrapper |
| `ConfigObjects.DeepMerge` | volnix/config/_utils.py:13-32 | a new dictionary that holds the merge, in whatever order items are visited; neither argument changes, and the picture says which of their objects stand in the result |
| `ConfigObjects.MergeOfValue` | volnix/config/_utils.py:28-31 | rebuilding where both layers have a dictionary and sharing everywhere else yields the value of the merge |
| `ConfigMerge.MergeLaws` | volnix/config/_utils.py:13-32 | the empty dictionary is neutral, merging is idempotent, a repeated override is absorbed |
| `ConfigMerge.MergeAssociativeIff` | volnix/config/_utils.py:13-32 | merging is associative exactly when each middle scalar between two dictionaries hides only key paths that the upper one has |
| `ConfigMerge.MergeNotAssociative` | volnix/config/_utils.py:28-31 | the smallest layers on which grouping matters |
| `ConfigMerge.AbsorbsIffCovered` | volnix/config/_utils.py:13-32 | merging leaves the override unchanged exactly when the base adds no key path |
| `ConfigMerge.MergeReads` | volnix/config/_utils.py:28-31 | a scalar is read at a path exactly when the override has it, or the base has it and the override is silent there |
| `ConfigMerge.MergeFinds` | volnix/config/_utils.py:28-31 | something is found at a path exactly when the override has something there, or the base has and the override is silent there |
| `ConfigObjects.SetNested` | volnix/config/loader.py:187-201 | in place, the walk sets the value at the path, replacing what is not a dictionary on the way; it touches no object outside the configuration |
| `ConfigShapes.OpeningIsFree` | volnix/config/loader.py:197-199 | an empty dictionary opened on the way does not change what the whole walk leaves |
| `ConfigShapes.PutShows` | volnix/config/loader.py:201 | one write into one nested dictionary of a tree changes the whole configuration at that path alone |
| `ConfigPaths.SettingIsMerging` | volnix/config/loader.py:187-201 | setting a scalar at a path is merging the layer that holds it there |
| `ConfigObjects.ApplyEnvOverrides` | volnix/config/loader.py:112-130 | overrides are applied one after the other in environment order |
| `ConfigPaths.OverridesCommuteIff` | volnix/config/loader.py:125-129 | two overrides commute exactly when neither path is a prefix of the other, or they are equal |
| `ConfigPaths.EnvironmentOrderIrrelevantIff` | volnix/config/loader.py:125-129 | every order of the overrides gives one result if and only if every two of them are apart or equal |
| `ConfigPaths.AllReadBack` | volnix/config/loader.py:125-129 | when every two overrides are apart or equal, each is read back from the result |
| `ConfigPaths.OthersReadAsBefore` | volnix/config/loader.py:125-129 | a path apart from all overrides reads as before |
| `ConfigObjects.ApplyUserDataDefaults` | volnix/config/loader.py:89-110 | in place, fills in the defaults up to the first section that is no dictionary; raises exactly when there is one |
| `ConfigPaths.DefaultsAreLowestLayer` | volnix/config/loader.py:91-95 | filling in the defaults is merging the configuration over the layer of defaults |
| `ConfigPaths.DefaultsNeverOverride` | volnix/config/loader.py:91-95 | a scalar is read afterwards exactly when it was configured, or it is a default where the configuration is silent |
| `ConfigPaths.DefaultsFillIn` | volnix/config/loader.py:108-109 | every missing key with a default gets it, the first if there are several; what is there stays |
| `ConfigSharing.WrittenShows` | volnix/config/builder.py:262 | a write into a dictionary shows wherever it stands, and changes nothing else |
| `ConfigSharing.WriteIsPathIff` | volnix/config/builder.py:262 | it is the write at one path if and only if the dictionary stands at no other, or nothing changes |
| `ConfigBuilding.ConfigBuilder.constructor` | volnix/config/builder.py:60-66 | the builder starts from a copy that shares nothing with its base, and shares within itself if the base does |
| `ConfigBuilding.ConfigBuilder.Raw` | volnix/config/builder.py:237-263 | refuses the empty path and blocked paths, leaving the configuration unchanged; otherwise writes one dictionary, and the result is the path set, or for a scalar the one-path layer merged, if and only if that dictionary stands at no other path or nothing changes |
| `ConfigBuilding.WalkInto` | volnix/config/builder.py:248-261 | the walk goes down what is there and then opens one new dictionary below the other; it changes one dictionary that was there at most |
| `ConfigBuilding.ObstructedIffBlocked` | volnix/config/builder.py:257-261 | the walk is refused exactly when a proper prefix of the path holds neither a dictionary nor `None` |
| `ConfigPaths.BlockedAtOnce` | volnix/config/builder.py:251-261 | on the way to a key, a scalar other than `None` blocks and nothing else does |
| `ConfigBuilding.ConfigBuilder.MergeSection` | volnix/config/builder.py:274-280 | refuses a section that is not a mapping; otherwise merges the arguments into the configuration under the section, whatever dictionaries they share with it |
| `ConfigBuilding.ConfigBuilder.Build` | volnix/config/builder.py:267-270 | every build hands out an equal configuration that shares nothing with the builder |
| `ConfigCopying.DeepCopy` | volnix/config/builder.py:66 | a copy made of new dictionaries, one for each original, with the same value |
| `ConfigCopying.RenamedTree` | volnix/config/builder.py:66 | such a copy has a dictionary at two paths exactly when the original has |
| `ActorRegistration.ActorRegistry.Register` | volnix/actors/registry.py:31-46 | refuses a taken id and changes nothing; otherwise appends the actor and keeps all indexes exact |
| `ActorRegistration.ActorRegistry.RegisterBatch` | volnix/actors/registry.py:48-51 | a batch registers everything before its first duplicate |
| `ActorRegistration.ActorRegistry.Query` | volnix/actors/registry.py:74-122 | returns, without repetition, exactly the actors that meet all filters, if and only if it does not ask for actors without a team or no such actor meets the other filters; asked for them it finds nobody |
| `ActorRegistration.TeamlessIsMissed` | volnix/actors/registry.py:102-104 | a registry of one actor without a team, asked for actors without a team, finds nobody |
| `ActorRegistration.ActorRegistry.CandidateIds` | volnix/actors/registry.py:92-104 | the intersected buckets stand for the actors that meet the index filters |
| `ActorRegistration.IdsByOnce` | volnix/actors/registry.py:42-46 | each index bucket holds an id once |
| `ActorRegistration.IdsByMembers` | volnix/actors/registry.py:42-46 | an id is in a bucket exactly when a registered actor has that key |
| `SlotState.SlotsAgree` | volnix/actors/slot_manager.py:104-192 | after every run of fresh tokens and safe restores the four maps describe one bijection, tokens resolve to distinct actors and stay within the limit |
| `SlotState.RestoreAgreesIff` | volnix/actors/slot_manager.py:157-192 | a restore keeps the maps in agreement exactly when the pinning is already there, or actor and token are free and a slot is left |
| `SlotState.SafeRestorePins` | volnix/actors/slot_manager.py:183-192 | a safe restore leaves the actor pinned to the token in all four maps under the given name, and every other token and actor as before |
| `SlotState.RestoreEffect` | volnix/actors/slot_manager.py:183-192 | what a restore does to each of the four maps, case by case |
| `SlotState.StaleTokenSurvives` | volnix/actors/slot_manager.py:174-177 | restoring a claimed actor under a new token leaves the old token live; releasing it then drops the new reverse entry |
| `SlotState.InverseKeptIff` | volnix/actors/slot_manager.py:183-192 | bindings and sessions stay inverse, and bindings within tokens, throughout a run if and only if no call takes a bound token away from another actor |
| `SlotState.StepInverseIff` | volnix/actors/slot_manager.py:157-192 | the same for one call |
| `SlotState.ReleaseUndoesRegister` | volnix/actors/slot_manager.py:320-329 | releasing the issued token restores the exact state before registration |
| `SlotState.RegisteredAgrees` | volnix/actors/slot_manager.py:118-133 | registration succeeds exactly for a known actor, a free slot and room below the limit |
| `SlotState.RegisterEffect` | volnix/actors/slot_manager.py:118-133 | what a registration does to each of the four maps, in any state |
| `SlotState.ReleasedAgrees` | volnix/actors/slot_manager.py:320-329 | release frees the actor's slot, kills the token and leaves the others |
| `SlotState.ReleaseEffect` | volnix/actors/slot_manager.py:320-329 | what a release does to each of the four maps, in any state |
| `SlotManagement.SlotBinding.ClaimSlot` | volnix/actors/slot_binding.py:37-53 | a reconnect succeeds, a second session is refused, and a new claim needs room |
| `SlotManagement.SlotBinding.ReleaseSlot` | volnix/actors/slot_binding.py:55-60 | removes the session and its actor's binding |
| `SlotManagement.SlotManager.DiscoverSlots` | volnix/actors/slot_manager.py:74-102 | lists the agent slots in registration order with role, permissions, budget and claim status |
| `SlotManagement.SlotAt` | volnix/actors/slot_manager.py:77-101 | each slot is that of an agent that is no default gateway actor, in registration order, with its data and claim status |
| `SlotManagement.SlotManager.Register` | volnix/actors/slot_manager.py:104-155 | the registration step on the four maps, and the result built from the registered actor |
| `SlotManagement.SlotManager.RestoreAssignment` | volnix/actors/slot_manager.py:157-192 | the restore step on the four maps |
| `SlotManagement.SlotManager.Release` | volnix/actors/slot_manager.py:320-329 | the release step on the four maps |
| `SlotManagement.SlotManager.AutoAssign` | volnix/actors/slot_manager.py:194-224 | in every state: binds the preferred free slot in all four maps and returns its data; fails exactly when disabled, without a free slot, or at the limit |
| `SlotManagement.TargetIsFree` | volnix/actors/slot_manager.py:211-223 | the chosen slot is free, belongs to a registered agent, and matches the role hint whenever a free slot does |
| `SlotManagement.TargetIsFirst` | volnix/actors/slot_manager.py:211-224 | no earlier registered free slot would do as well |
| `FrictionCounts.DistributeFriction` | volnix/actors/simple_generator.py:173-208 | counts are cumulative: hostile, then the larger of hostile and deceptive, then the largest of the three, within the batch, so the slice drops nothing; every intensity is a draw from the range of its category |
| `FrictionCounts.RoundedIsUnique` | volnix/actors/simple_generator.py:192-194 | the rounded count is the integer nearest to the percentage, and the even one of two |
| `FrictionCounts.RoundedWithin` | volnix/actors/simple_generator.py:192-194 | rounded counts keep the order of the intensities and stay within the batch |

## Left out

- The gate itself, activation, and re-firing of drained events live in the agency engine and are not part of this model.
- `policy_for`, `enabled`, `queue_depth` and the read-only copies of the cohort manager: single lookups.
- The seeded generator of the recency policy is an arbitrary fixed stream of numbers, the same on every call.
- Runs of the cohort manager in which an id is registered twice or an unregistered id is promoted; the calls themselves are described.
- Events, logging, ticks and timestamps carry no structure beyond what decisions use.
- The scheduler and the tasks of the bus: a suspended `publish` is an element of the field `publishes`, each method of `EventBus` is one stretch between two awaits, and the methods may be called in any order their preconditions allow. Cancelling a publish from outside exists in the protocol only.
- `EventBus.replay`, metrics snapshots, the database and the middleware's own code: a persist either appends or fails, middleware yields an event or drops it.
- A persist that writes its row and then reports failure is not modelled.
- `SetNested`, `ApplyEnvOverrides` and `ApplyUserDataDefaults` are stated for configurations in which no dictionary stands at two paths, as reading and merging separate layers yields them.
- `Raw` and `MergeSection` with a value that contains the dictionary it is stored in: such a configuration contains itself and has no value.
- The insertion order of dictionaries.
- `VolnixConfig` validation, TOML reading, `_coerce`, `_resolve_refs`, the names of the default data paths and the pack search paths of the builder.
- Splitting and lowering of environment names and dotted paths: paths are given as their segments.
- `DeserializeEntry`: pydantic validation is a parameter for the base fields and is not opened up for registered classes; numbers are exact, so non-finite ones are out.
- `LedgerEntries.WriteBack`: the redactor, the type filter and the ephemeral mode of the ledger are not modelled.
- `ActorRegistry.query` with unknown filter names raises; actor runtime states, `summary` and the list methods are single lookups or comprehensions.
- `SlotManager.resolve_actor_id`, profile and default-agent registration: registry calls with fixed defaults. Case folding of the role hint is a parameter of `AutoAssign`; tokens are given by the caller of the model.
- `SimpleActorGenerator`: personalities, behaviours and ids; intensities are arbitrary draws within their ranges, the shuffle is any permutation, and `total * x / 100` is an exact rational.
