# Assignment control plane and WebSocket bridge of a sticky proxy, in Dafny

The proxy routes each user ("routing key") to one backend. This project models the part that decides which
backend owns which key, keeps a weight index for that decision and moves keys while traffic flows, and the
bridge that keeps a client's WebSocket open while its backend connection is replaced.

What is modelled, file by file:

- `Basics`: the option type and the set of a list's elements.
- `Sums`, `Assignments`: sums over maps, the assignment table, and the load of a backend.
- `LeastLoadedPlan`, `LeastLoadedPlanner`, `LeastLoadedTheorems`, `LeastLoadedUnit`: the greedy weighted
  rebalance planner. Go's map iteration is an arbitrary choice (`:|`), so every result holds for every order.
- `SortedStrings`, `HashPlacement`: hash routing, the memory store's sorted list and the consistent-hash plan.
- `StoreSpec`, `RedisStore`, `StoreRuns`, `StoreSolo`, `StoreProgress`, `LuaTheorems`: the Redis store.
  `RedisStore` has the Lua script and the bulk pipelines as methods that run alone; `StoreRuns` has the same commands as
  steps of any number of concurrent operations, and `StoreSolo` shows that an operation without interference does what
  the methods do.
- `PostgresStore`: the PostgreSQL store as committed transactions, and its agreement with Redis.
- `Rebalancer`, `DrainManager`, `AccountDiscovery`, `KubernetesDiscovery`: the procedures that change the stores.
- `HoldManager`, `TransitionSystem`, `TransitionProgress`: held keys, and drains and rebalances of any number of
  goroutines on any number of replicas under the transition lock.
- `CircuitBreaker`, `PoisonPill`: timed state machines, each shown equal to a predicate on the whole event history.
- `RateLimiter`, `RateLimiterTheorems`, `RateLimiterLimits`: token buckets, with the staleness test of the cleanup and
  its deletion as separate steps.
- `BridgeParts`, `WebSocketBridge`, `BridgeBuffers`, `BridgeOrder`, `BridgeCurrent`, `BridgeDelivery`,
  `BridgeTheorems`, `BridgeStranding`, `BridgeAccounts`, `BridgePool`, `BridgeProgress`, `BridgeBounds`,
  `BridgeWitnesses`, `PooledRead`: the WebSocket bridge as a step system over readers, bounded queues, write pumps and
  swaps, and the read into a pooled buffer.

Clocks are parameters, the checksum of a routing key is an arbitrary function to 32-bit values, payloads are an
arbitrary function of connection and message number, and integers are unbounded. What a Go struct updates in
place is a class here; each method is proved against a function or relation on its state, and the theorems are
lemmas about that state.

Where a property does not hold of the code, the exact condition is proved instead, next to a run or an input at which it
fails:

- A bulk delete keeps the Redis index in step if and only if no present key is listed twice
  (`StoreSpec.BulkDeleteIndexIff`, `StoreSpec.RepeatedKeyDrifts`); an account reconciliation and a drain inherit that
  condition.
- A delete that reads a key and then removes it keeps the index in step if and only if the key is still as it was
  read (`StoreRuns.EraseOneIff`, `StoreRuns.KeyDeletedTwice`). A reconciliation leaves an exact index if and only if the
  counts hash shows, when it writes, only the increments that were pending at its scan (`StoreRuns.ReconcileExactIff`,
  `StoreRuns.AssignDuringReconcile`).
- A drain leaves its backend empty if and only if every assign that put a key there since it listed its users was undone
  by a later delete of the key, or by an on-demand assign after the backend left the active set
  (`StoreRuns.DrainEmptiesIff`, `StoreRuns.AssignDuringDrain`).
- The PostgreSQL totals are exact after every commit if and only if no backend is added that carries weight already but
  has no counts row (`PostgresStore.TotalsExactIff`, `PostgresStore.LateAddBreaksTotals`).
- The cleanup of the rate limiter lets go of a bucket between finding it stale and deleting it. As long as no request
  of that user falls in between, evictions are invisible and the token-bucket bound holds if and only if five minutes
  refill the burst (`RateLimiterLimits.CalmInvisibleIff`, `RateLimiterLimits.CalmBoundedIff`). Over all runs they hold
  if and only if the burst is zero (`RateLimiterLimits.AllRunsIff`, `RateLimiterLimits.SlipBreaksBound`).
- Mutual exclusion across replicas holds throughout a run if and only if nobody takes over an expired Redis lease whose
  owner is still under way (`TransitionSystem.ExclusiveIff`, `TransitionSystem.OverrunBreaksExclusion`).
- The bridge does not return every pooled buffer. Whatever waits in the channel of a backend connection that is given
  up, in the client's channel when the loop ends, or in the queue of a client pump that stops, is never taken again,
  and a swap request drops one message more. In a run that is over every buffer is back in the pool if and only if no
  step stranded one (`BridgeAccounts.AllReturnedIff`, `BridgePool.AllPooledIff`). A swap loses no message of the old
  backend if and only if the old reader's channel is empty at that step and the reader, which may hold one more
  message, does not push it afterwards (`BridgeAccounts.LeavesBackendCleanIff`, `BridgeWitnesses.LatePushStrands`,
  `BridgeWitnesses.SwapRequestStrands`, `BridgeWitnesses.CloseStrands`).

The comment at internal/proxy/rebalancer.go:117-118 says that least-loaded moves go round-robin. The planner names a
target in every move, so that branch is never taken for it (`Rebalancer.PlannedMoves`); the model follows the code.

## Model

| member | source | states |
|---|---|---|
| Assignments.EffectiveWeight | internal/proxy/assignment.go:17-22 | a positive weight counts as it is, any other as one |
| Assignments.ViewWeighed | internal/proxy/assignment.go:17-22 | every table has positive weights as the balancer sees it, which is what convergence asks for |
| LeastLoadedPlanner.SumWeights | internal/proxy/rebalancer.go:208-217 | the weights map holds the true load of every active or used backend, and each user is listed once under its backend |
| LeastLoadedPlanner.SumValues | internal/proxy/rebalancer.go:219-222 | the total is the sum over the map, whatever the order |
| LeastLoadedPlanner.PickTarget | internal/proxy/rebalancer.go:255-264 | the target is the first least-loaded active backend, below ideal and able to absorb the weight; no target means no named backend qualifies |
| LeastLoadedPlanner.ShedUser | internal/proxy/rebalancer.go:253-280 | one user is moved legally or had a reason to stay; the shadow map stays exact |
| LeastLoadedPlanner.ShedBackend | internal/proxy/rebalancer.go:248-281 | a backend sheds users until its excess is moved; every user of it is moved or had a reason to stay, users of others are untouched |
| LeastLoadedPlanner.PlanBackend | internal/proxy/rebalancer.go:237-281 | inactive backends shed everything, active ones what exceeds ideal + 1, others nothing |
| LeastLoadedPlanner.PlanBackends | internal/proxy/rebalancer.go:228-283 | over all backends in any order, every move is legal after the ones before it and every key moved or had a reason to stay |
| LeastLoadedPlanner.ComputeMoves | internal/proxy/rebalancer.go:198-284 | the result is a plan in the sense of `LeastLoadedPlan.IsPlan` for every map order, and the shadow map equals the loads after applying it |
| LeastLoadedTheorems.MovesOnce | internal/proxy/rebalancer.go:249-281 | each user moves at most once, from its own backend to a different active one, and keeps its weight |
| LeastLoadedTheorems.UnmovedKept | internal/proxy/rebalancer.go:268-279 | users without a move stay where they are |
| LeastLoadedTheorems.TotalKept | internal/proxy/rebalancer.go:208-281 | a plan conserves total weight, hence the ideal |
| LeastLoadedTheorems.LoadBounds | internal/proxy/rebalancer.go:219-281 | receivers end within ideal + 1, no active backend ends above max(start, ideal + 1), active donors keep at least 1 |
| LeastLoadedTheorems.DonorsOverloaded | internal/proxy/rebalancer.go:237-246 | an active backend gives users up only if it started above ideal + 1, and no more than it must: with some user it gave up it would end above ideal + 1 |
| LeastLoadedTheorems.StepDecreases | internal/proxy/rebalancer.go:258-281 | every planned move strictly decreases (stranded weight, sum of squared active loads) lexicographically |
| LeastLoadedTheorems.PlanDecreases | internal/proxy/rebalancer.go:198-284 | so does every non-empty plan |
| LeastLoadedTheorems.EmptyPlan | internal/proxy/rebalancer.go:198-284 | a plan is empty if and only if every key may stay in the table as it is |
| LeastLoadedTheorems.EmptinessOrderFree | internal/proxy/rebalancer.go:198-284 | whether a pass is empty does not depend on iteration order |
| LeastLoadedTheorems.PassStable | internal/proxy/rebalancer.go:198-284 | after a pass that changed nothing no pass changes anything |
| LeastLoadedTheorems.Converges | internal/proxy/rebalancer.go:198-284 | every endless sequence of passes over a fixed backend set becomes constant, for any weights and any orders |
| LeastLoadedUnit.SkippedIsFull | internal/proxy/rebalancer.go:255-270 | a unit-weight user is skipped if and only if every active backend has reached ideal |
| LeastLoadedUnit.ReceiversLevel | internal/proxy/rebalancer.go:255-264 | with unit weights users go where there is least: a backend that received any ends at most one above every active backend |
| LeastLoadedUnit.UnitPassBalances | internal/proxy/rebalancer.go:219-283 | with unit weights a pass ends with every active backend at ideal or above, or every used backend within its limit |
| LeastLoadedUnit.UnitPassSettles | internal/proxy/rebalancer.go:219-283 | with unit weights every user may stay where a pass leaves it: once a user is skipped nothing moves any more |
| LeastLoadedUnit.UnitPassIsFixpoint | internal/proxy/rebalancer.go:219-283 | with unit weights replanning after a pass gives no moves, whatever order either pass used and whatever the backend list |
| LeastLoadedUnit.FullLeavesRemainder | internal/proxy/rebalancer.go:219-226 | when no active backend is below ideal only the remainder of total / n is left to go around |
| LeastLoadedUnit.UnitPassBounds | internal/proxy/rebalancer.go:219-283 | final active loads are at most ideal + max(1, total mod n); what stays stranded is at most total mod n, and nothing if total < n |
| LeastLoadedUnit.StrandedCounts | internal/proxy/rebalancer.go:236-241 | with unit weights the stranded weight is the number of users left on inactive backends |
| SortedStrings.SortSorts | internal/proxy/store_memory.go:80-86 | sorting gives a sorted permutation |
| SortedStrings.SortOrderFree | internal/proxy/store_memory.go:80-86 | the sorted list depends only on the multiset of names |
| SortedStrings.EnumerationUnique | internal/proxy/store_memory.go:80-86 | a set has exactly one strictly ascending enumeration |
| SortedStrings.BeforeIsLexicographic | internal/proxy/store_memory.go:80-86 | the order is the lexicographic one: at the first difference the smaller character decides, and a proper prefix comes first |
| HashPlacement.AssignViaHash | internal/proxy/proxy.go:368-379 | routing fails exactly without backends; otherwise it answers a listed backend, over distinct backends the one that has exactly checksum mod n others before it in lexicographic order |
| HashPlacement.RoutedIff | internal/proxy/proxy.go:368-379 | so a listed backend is the answer if and only if the checksum leaves its rank as remainder, and every backend has a rank below n |
| HashPlacement.RoutingOrderFree | internal/proxy/proxy.go:368-379 | routing does not depend on the order of the backend list |
| HashPlacement.MemoryStore.RebuildSorted | internal/proxy/store_memory.go:80-86 | the list is the strictly sorted enumeration of the set |
| HashPlacement.MemoryStore.AddBackend | internal/proxy/store_memory.go:60-69 | adds one backend and keeps the list the strict enumeration |
| HashPlacement.MemoryStore.RemoveBackend | internal/proxy/store_memory.go:71-77 | removes one backend and keeps the list the strict enumeration |
| HashPlacement.MemoryStore.ActiveBackends | internal/proxy/store_memory.go:52-58 | returns the strict enumeration of the set |
| HashPlacement.ReplicasAgree | internal/proxy/store_memory.go:52-86 | two replicas with equal backend sets route every key alike, whatever their histories |
| HashPlacement.ComputeMoves | internal/proxy/rebalancer.go:289-312 | exactly the misplaced keys move, each once, to where they hash |
| HashPlacement.HashPlanPlaces | internal/proxy/rebalancer.go:289-312 | applying the plan puts every key where `AssignViaHash` would, with its weight |
| HashPlacement.HashPlanRanks | internal/proxy/rebalancer.go:289-312 | exactly the users whose backend is gone or has the wrong rank for their checksum move, each to the active backend of the right rank |
| HashPlacement.HashReplanEmpty | internal/proxy/rebalancer.go:289-312 | replanning after a plan is empty, even with the backends reordered |
| HashPlacement.HashPlanOrderFree | internal/proxy/rebalancer.go:289-312 | two plans for one table have the same moves, whatever the order of table and backends |
| StoreSpec.RemoveKeepsDrift | internal/proxy/redis.go:295-309 | a single delete keeps every backend's count in step with the table |
| StoreSpec.BulkDeleteIndexIff | internal/proxy/redis.go:441-482 | a bulk delete keeps the index in step if and only if no present key is listed twice |
| StoreSpec.RepeatedKeyDrifts | internal/proxy/redis.go:446-480 | a bulk delete that lists a present key twice, with the drift it leaves |
| StoreSpec.BulkAssignKeepsDrift | internal/proxy/redis.go:359-416 | a bulk assign keeps the index in step |
| StoreSpec.LuaKeepsDrift | internal/proxy/assign.lua:16-43 | the script keeps the index in step, also when it replaces a stale assignment |
| RedisStore.RedisStore.AssignViaTable | internal/proxy/assign.lua:8-44 | an assignment to an active backend is returned as it is; otherwise the stale one goes and an active backend of minimum count is assigned with weight 1, or none without active backends |
| RedisStore.RedisStore.LeastCounted | internal/proxy/assign.lua:29-38 | the selected backend is active and of minimum count, whatever order the set is listed in |
| RedisStore.RedisStore.DeleteAssignment | internal/proxy/redis.go:295-309 | removes the key and its effective weight; an absent key is reported and nothing changes |
| RedisStore.RedisStore.SetAbsent | internal/proxy/redis.go:366-389 | exactly the absent keys are set, with normalised weights, and the replies tell which |
| RedisStore.Aggregate | internal/proxy/redis.go:391-399 | the increments are the loads of what was set, the result names the backend of each key that was set |
| RedisStore.RedisStore.AddCounts | internal/proxy/redis.go:401-406 | every count grows by its increment and no other changes |
| RedisStore.RedisStore.BulkAssign | internal/proxy/redis.go:359-416 | keys that were there keep their assignment, every other entry is added with its backend, the time and a weight of at least one; counts grow by the weight that was set, the reply holds exactly the keys set |
| RedisStore.RedisStore.ReconcileAssignmentCounts | internal/proxy/redis.go:420-438 | from any counts, the index is exact afterwards |
| RedisStore.RedisStore.BulkDeleteAssignments | internal/proxy/redis.go:441-482 | removes the listed keys; each count falls by what was read, a key listed twice being read twice |
| RedisStore.RedisStore.GetBackendUsers | internal/proxy/redis.go:330-354 | exactly the keys on the backend are reported, and one of them twice if and only if the scan reported it twice |
| StoreRuns.LostStep | internal/proxy/redis.go:359-482 | what each command of each interleaved operation does to the weight missing from the index |
| StoreRuns.UndisturbedErase | internal/proxy/redis.go:441-482 | a delete that finds its keys as it read them removes exactly what it subtracts |
| StoreRuns.EraseOneIff | internal/proxy/redis.go:295-309 | a read-then-delete of one key keeps the index in step if and only if the key is still as it was read |
| StoreRuns.KeyDeletedTwice | internal/proxy/redis.go:441-482 | a run of two deletes that both read a key before either removes it, with the drift it leaves |
| StoreRuns.IndexInvariant | internal/proxy/redis.go:359-482 | in every state of every such run: weight of a backend in the table = its count + increments still pending in in-flight bulk assigns |
| StoreRuns.ReconcileExactIff | internal/proxy/redis.go:420-438 | from any drift, with other operations running smoothly between its scan and its write, a reconciliation leaves an exact index if and only if the counts hash has moved since the scan by no more than the increments pending then |
| StoreRuns.QuietReconcile | internal/proxy/redis.go:420-438 | with nothing pending at the scan and at the write, the index is exact afterwards if and only if no count changed in between |
| StoreRuns.AssignDuringReconcile | internal/proxy/redis.go:420-438 | a run in which an on-demand assign between scan and write is missing from the counts |
| StoreRuns.ReassignsReached | internal/proxy/rebalancer.go:108-150 | if every operation is begun with an entry for each key it deletes, then in every state what it is about to delete or has deleted is among what it will set |
| StoreRuns.NothingUnassigned | internal/proxy/rebalancer.go:108-150 | with on-demand assigns interleaved at will, if every operation begun assigns again what it deletes, every key assigned before is assigned once none is in flight |
| StoreRuns.LiveKept | internal/proxy/redis.go:359-416 | no single step but a delete that lists the key changes an assignment to an active backend |
| StoreRuns.LiveKeptThroughout | internal/proxy/redis.go:356-416 | over every run a live assignment is never overwritten: it stays while its backend is active and no delete has listed the key |
| StoreRuns.RepliesAgree | internal/proxy/assign.lua:8-22 | two on-demand assigns of a key answer the same if in between the backend stays active and no delete lists the key |
| StoreRuns.ActiveFollowsEvents | internal/proxy/redis.go:223-230 | a backend is active if and only if the last add or remove of it was an add, or there was none and it was active at first |
| StoreRuns.NotHandedOut | internal/proxy/drain.go:167-171 | a backend taken out of the active set is never returned until it is added again |
| StoreRuns.OnStep | internal/proxy/assign.lua:8-44 | a key not on a backend is put there exactly by an on-demand assign that answers it or a bulk assign of the absent key; a key on it is taken off exactly by a delete that found it or an on-demand assign while the backend is not active |
| StoreRuns.DrainLeavesNewcomers | internal/proxy/drain.go:119-171 | with a drain's listing, reads and delete interleaved at will, a key is on the drained backend later if and only if some step since the listing put it there and no step after that took it off |
| StoreRuns.DrainEmptiesIff | internal/proxy/drain.go:119-171 | so a drain leaves its backend empty if and only if every step since the listing that put a key there is followed by one that took it off |
| StoreRuns.AssignDuringDrain | internal/proxy/drain.go:119-171 | a run in which an on-demand assign during a drain leaves its key on the removed backend |
| StoreSolo.SoloRun | internal/proxy/redis.go:359-482 | the interleaved commands of one operation, run without interference, end in the state that the bulk delete followed by the bulk assign defines |
| StoreSolo.UntouchedDeleteExact | internal/proxy/redis.go:441-482 | among any other commands, a delete of distinct keys that no other command touches between its first read and its write subtracts exactly the weight it removes |
| StoreProgress.NeverBlocked | internal/proxy/redis.go:359-482 | whatever state others have left behind, an operation in flight has a command to issue |
| StoreProgress.AlwaysAnswered | internal/proxy/assign.lua:8-44 | an on-demand assign is answered in every state, whatever is in flight, and with nothing exactly without active backends |
| StoreProgress.OperationEnds | internal/proxy/redis.go:359-482 | among the commands of any others, every command of an operation uses up one of those it has left |
| StoreProgress.MoveEnds | internal/proxy/rebalancer.go:108-150 | a move of n keys with m entries ends within n + 2m + 2 commands of its own |
| LuaTheorems.PicksLeastLoaded | internal/proxy/assign.lua:8-44 | with an exact index the script answers the existing assignment or an active backend of minimum true load with weight 1, and nothing exactly without active backends; the answer is what the table holds and no other key changes |
| LuaTheorems.SpreadBounded | internal/proxy/assign.lua:8-44 | over any run of assigns on a fixed active set the loads stay within max(initial spread, 1) of each other |
| PostgresStore.SumRows | internal/proxy/store_postgres.go:230-242 | the per-backend deltas are the sums of the returned rows' stored weights |
| PostgresStore.StoredSumIsLoad | internal/proxy/store_postgres.go:55-61 | stored weights of at least one sum up to the load |
| PostgresStore.PostgresStore.AssignLeastLoaded | internal/proxy/store_postgres.go:67-129 | an existing assignment is kept and no other is answered; a new one goes to a healthy backend of minimum total among the unlocked rows or, if all are locked, to the one that was least when the second query began to wait, provided it still qualifies; an unlocked qualifying row always gives an answer, and what is answered is recorded |
| PostgresStore.PostgresStore.UpdateTotals | internal/proxy/store_postgres.go:249-257 | existing counts rows change by their delta, no row is created |
| PostgresStore.PostgresStore.BulkAssign | internal/proxy/store_postgres.go:189-263 | rows that were there are kept, every other entry is inserted with its backend, the time and a weight of at least one; totals of existing rows grow by the weight that was set |
| PostgresStore.PostgresStore.BulkDeleteAssignments | internal/proxy/store_postgres.go:265-316 | removes the listed keys; totals fall by the stored weights of the rows removed, also for a key listed twice |
| PostgresStore.PostgresStore.AddBackend | internal/proxy/store_postgres.go:339-350 | the backend is healthy afterwards; a missing counts row starts at zero, an existing one is kept |
| PostgresStore.PostgresStore.RemoveBackend | internal/proxy/store_postgres.go:352-356 | the backend is unhealthy afterwards, its rows stay |
| PostgresStore.PostgresStore.Migrate | internal/proxy/store_postgres.go:35-65 | counts rows of healthy backends equal the sum of their stored weights afterwards, other rows are untouched |
| PostgresStore.AssignKeepsTotals | internal/proxy/store_postgres.go:67-129 | totals stay exact; the pick is healthy, and of minimum true load if no row was locked or nothing changed during the wait |
| PostgresStore.AssignReplies | internal/proxy/store_postgres.go:67-129 | an assigned key keeps its assignment and no other is answered; a new one is recorded as answered; without an answer nothing changes; an unlocked qualifying row always gives an answer, and with no row locked there is none exactly if no healthy backend has a counts row |
| PostgresStore.BulkAssignKeepsTotals | internal/proxy/store_postgres.go:189-263 | totals stay exact whatever the targets |
| PostgresStore.BulkAssignRowsIff | internal/proxy/store_postgres.go:249-257 | every backend in use has a counts row afterwards if and only if the targets that were written have one |
| PostgresStore.BulkDeleteKeepsTotals | internal/proxy/store_postgres.go:265-316 | totals stay exact for any list of keys |
| PostgresStore.AddKeepsTotalsIff | internal/proxy/store_postgres.go:339-350 | adding a backend keeps totals exact if and only if it has a counts row or carries no weight |
| PostgresStore.LateAddBreaksTotals | internal/proxy/store_postgres.go:339-350 | a bulk assign to a backend that was never added, and then adding it, leaves a wrong total |
| PostgresStore.TotalsExactIff | internal/proxy/store_postgres.go:67-356 | over every run of on-demand assigns, bulk assigns, deletes, adds and removals the totals are exact after every commit if and only if no backend is added that carries weight already but has no counts row |
| PostgresStore.AssignmentKept | internal/proxy/store_postgres.go:67-129 | over every run of transactions an assigned key keeps its assignment until a delete lists it |
| PostgresStore.RepliesAgree | internal/proxy/store_postgres.go:67-129 | so all answers for a key are the same until a delete lists it |
| PostgresStore.StoresAgree | internal/proxy/store.go:21-27 | equal operations (targets added before, deletes of distinct keys) from empty Redis and PostgreSQL stores give equal tables and backend sets after every step, with both indexes exact |
| Rebalancer.NewAssignments | internal/proxy/rebalancer.go:117-142 | one entry per move with the stored weight, at the move's target or, without one, round-robin in plan order |
| Rebalancer.UnroutedFair | internal/proxy/rebalancer.go:132-140 | each active backend receives floor or ceiling of u / n of the u moves without a target |
| Rebalancer.DeleteThenAssign | internal/proxy/rebalancer.go:108-150 | delete then bulk assign gives the old table with the moved keys at their targets, same keys and weights, index kept |
| Rebalancer.PlannedMoves | internal/proxy/rebalancer.go:79-81 | both strategies move distinct keys of the table, and the least-loaded one always names a target |
| Rebalancer.ApplyMoves | internal/proxy/rebalancer.go:108-150 | as `DeleteThenAssign`, for the store's own methods; every moved key is placed and the reply names where |
| Rebalancer.Rebalance | internal/proxy/rebalancer.go:64-150 | the table becomes the plan applied to it, the active set and the index are kept, and with an exact index the counts equal the planner's shadow map |
| AccountDiscovery.Classify | internal/proxy/discovery.go:103-116 | accounts split into those to place and the stale keys to delete |
| AccountDiscovery.Spread | internal/proxy/discovery.go:131-138 | entries go round-robin over the sorted backends; of a repeated id the last counts |
| AccountDiscovery.Reconcile | internal/proxy/discovery.go:77-158 | deletes the stale keys and places the accounts round-robin over the sorted active set, or does nothing without active backends |
| AccountDiscovery.ReconciledTable | internal/proxy/discovery.go:77-158 | the table after a pass, key by key; the index keeps step if and only if no stale account is listed twice |
| AccountDiscovery.EveryAccountPlaced | internal/proxy/discovery.go:77-158 | every account ends on an active backend, valid assignments and other keys are untouched, no other key appears |
| AccountDiscovery.SecondPassIdle | internal/proxy/discovery.go:77-158 | a second pass changes nothing |
| AccountDiscovery.RoundRobinIsFair | internal/proxy/discovery.go:131-138 | each active backend receives floor or ceiling of k / n of the k newly placed accounts |
| DrainManager.Drain | internal/proxy/drain.go:119-171 | exactly the users of the drained backend lose their assignment and it leaves the active set; the index keeps step if and only if no two positions of the scan report the same key of that backend |
| KubernetesDiscovery.ResolvePort | internal/proxy/discovery_kubernetes.go:348-366 | the first port, or the first one of the configured name that has a number, or 0 |
| KubernetesDiscovery.FirstMatch | internal/proxy/discovery_kubernetes.go:358-364 | the named port is the first one with the name and a number |
| KubernetesDiscovery.NoMatch | internal/proxy/discovery_kubernetes.go:365 | without such a port the answer is 0 |
| KubernetesDiscovery.PortIs | internal/proxy/discovery_kubernetes.go:348-366 | the port is the first one, or the first of the configured name that has a number |
| KubernetesDiscovery.BuildDesiredState | internal/proxy/discovery_kubernetes.go:244-271 | a URL is desired in a state if and only if the last slice of the service with a port, and in it the last endpoint, that lists the URL gives it that state: terminating, or ready |
| KubernetesDiscovery.DesiredIff | internal/proxy/discovery_kubernetes.go:244-271 | the same for the function the method computes, on raw slices, endpoints, conditions and addresses |
| KubernetesDiscovery.LastSightingDecides | internal/proxy/discovery_kubernetes.go:244-271 | a URL is desired in a state if and only if its last sighting is in that state |
| KubernetesDiscovery.Discovery.ApplyDesiredState | internal/proxy/discovery_kubernetes.go:275-344 | newly active URLs are added, newly terminating and vanished ones removed, in any order |
| KubernetesDiscovery.ActiveFollowsLastSnapshot | internal/proxy/discovery_kubernetes.go:275-344 | over any sequence of snapshots, among URLs ever seen the active ones are exactly those active in the last snapshot, and URLs never seen are untouched |
| KubernetesDiscovery.ActiveFollowsEndpoints | internal/proxy/discovery_kubernetes.go:244-344 | over any sequence of snapshots, a URL that ever occurred is active if and only if its last occurrence in the last snapshot is an address of a ready endpoint; any other is untouched |
| HoldManager.HoldManager.MarkTransition | internal/proxy/hold.go:40-48 | refines `Mark`: new entries for keys not held, existing ones kept |
| HoldManager.HoldManager.ClearTransition | internal/proxy/hold.go:52-61 | refines `Clear`: held keys leave the map and their entries are closed |
| HoldManager.HoldManager.Lookup | internal/proxy/hold.go:68-73 | a request finds an entry to wait on exactly if its key is held, and that entry is in the map |
| HoldManager.MarkHolds | internal/proxy/hold.go:40-48 | marking holds exactly the old and the given keys, keeps existing entries and closes none |
| HoldManager.ClearReleases | internal/proxy/hold.go:52-61 | clearing releases exactly the given keys, closes each of their entries, and no entry is ever closed twice |
| HoldManager.WaitersReleased | internal/proxy/hold.go:15-88 | marking and clearing keep every waiter's entry in the map or closed |
| TransitionSystem.HoldsBelongToHolder | internal/proxy/rebalancer.go:64-95 | in every reachable state each replica has at most one operation in its critical section, the held keys are exactly those it marked and has not cleared, and no waiter is stranded |
| TransitionSystem.OnePerReplica | internal/proxy/transition.go:37-54 | critical sections of one replica never overlap |
| TransitionSystem.ClearedBeforeUnlock | internal/proxy/drain.go:117-138 | an operation about to unlock holds no key any more |
| TransitionSystem.TrueMeansCleared | internal/proxy/hold.go:63-88 | Wait answers true only if the key was in transition when asked and the operation that marked it has cleared it since |
| TransitionSystem.TrueIff | internal/proxy/hold.go:63-88 | a request is answered true if and only if its key was held when it asked, the operation that marked the key has cleared it since, and the request was woken by that |
| TransitionSystem.FalseIff | internal/proxy/hold.go:63-88 | it is answered false if and only if the key was not held when asked, or the wait timed out or was cancelled |
| TransitionSystem.WakesOnceCleared | internal/proxy/hold.go:67-88 | a waiting request can be answered true if and only if its entry has left the map, and false at any time |
| TransitionSystem.LeaseStep | internal/proxy/redis.go:514-521 | without a takeover of an expired lease the operation under way owns the lease, a try on a free lock takes it, and an unlock deletes the caller's own and leaves the lock free |
| TransitionSystem.ExclusiveIff | internal/proxy/transition.go:37-54 | in every distributed run, at most one operation on all replicas is between lock and unlock throughout if and only if nobody takes over an expired lease whose owner is still under way |
| TransitionSystem.ExclusiveAcrossReplicas | internal/proxy/transition.go:37-54 | without takeovers, in every state the one operation under way owns the lease, and an unlock deletes the caller's own lease |
| TransitionSystem.LockIffUnderWay | internal/proxy/redis.go:514-521 | without takeovers the lock is set exactly while an operation is under way, and by that operation |
| TransitionSystem.TryLockSucceedsIff | internal/proxy/transition.go:37-46 | without takeovers an idle worker gets the lock if and only if no operation is under way on any replica |
| TransitionSystem.TimelyRunsExclusive | internal/proxy/transition.go:37-54 | holders that release before their leases run out are never taken over, so exclusion holds |
| TransitionSystem.MutexFreeWhenReached | internal/proxy/transition.go:37-46 | in distributed mode without takeovers the local mutex is free, and can be taken, whenever it is reached |
| TransitionSystem.WithoutTtlAlwaysTimely | internal/proxy/transition.go:37-54 | holders of a lock without time to live are in time in every run |
| TransitionSystem.WithoutTtlExclusive | internal/proxy/store_postgres.go:390-426 | so a lock without time to live is exclusive in every distributed run |
| TransitionSystem.OverrunBreaksExclusion | internal/proxy/redis.go:514-521 | for every time to live, a run in which an overrun lets two replicas in and the first unlock would delete the other's lease |
| TransitionProgress.LeaseLasts | internal/proxy/redis.go:514-517 | whoever is under way took the lock and its lease lasts the whole time to live from that moment |
| TransitionProgress.PromptRunsExclusive | internal/proxy/transition.go:37-54 | if every operation ends within the time to live of taking the lock, operations exclude each other on all replicas |
| TransitionProgress.TakeoverAfterTtl | internal/proxy/redis.go:514-517 | a takeover comes no earlier than the time to live after the owner took the lock |
| TransitionProgress.UnlockFreesOthers | internal/proxy/redis.go:519-521 | an operation that was taken over frees the other's lease when it unlocks, and a third one gets in while the other is under way |
| TransitionProgress.NoDeadlock | internal/proxy/transition.go:37-54 | while an operation is under way, some operation can take a step |
| TransitionProgress.TryNeverBlocks | internal/proxy/transition.go:37-46 | an idle worker can always try the lock, gets it exactly if it is free, and changes nothing otherwise |
| TransitionProgress.LocalLockTaken | internal/proxy/transition.go:37-46 | without a distributed lock an idle worker always gets past it |
| TransitionProgress.MutexTakenIff | internal/proxy/transition.go:44 | the local mutex can be taken if and only if no goroutine of the replica is in its critical section |
| TransitionProgress.WaitsIffMarked | internal/proxy/hold.go:67-73 | in every run a new request waits if and only if the operation in the replica's critical section has its key marked, and is answered false otherwise |
| TransitionProgress.OperationsEnd | internal/proxy/rebalancer.go:64-95 | every step of an operation uses up one of those it has left |
| TransitionProgress.AtMostFiveEach | internal/proxy/rebalancer.go:64-95 | so unless somebody tries the lock again operations take at most five steps each |
| CircuitBreaker.RedisBreaker.IsCBOpen | internal/proxy/redis.go:143-159 | open inside the cooldown; after it the breaker becomes half-open and answers no |
| CircuitBreaker.RedisBreaker.RecordCBFailure | internal/proxy/redis.go:161-171 | counts the failure and (re)opens at the threshold |
| CircuitBreaker.RedisBreaker.RecordCBSuccess | internal/proxy/redis.go:173-182 | resets the streak and closes |
| CircuitBreaker.BreakerInvariant | internal/proxy/redis.go:143-182 | the counter is the trailing failure streak, closed means below the threshold, and the opening time is the last failure |
| CircuitBreaker.BreakerIsHistoryPredicate | internal/proxy/redis.go:143-182 | open is answered if and only if the trailing failure streak has reached the threshold and the last failure is younger than the cooldown |
| PoisonPill.PoisonPillDetector.RecordReassignment | internal/proxy/poison.go:39-75 | trims to the window, quarantines at the threshold, answers whether the key is quarantined |
| PoisonPill.PoisonPillDetector.IsQuarantined | internal/proxy/poison.go:78-83 | after any history of calls the answer is whether some reassignment reached the threshold and the key was not released since |
| PoisonPill.PoisonPillDetector.Unquarantine | internal/proxy/poison.go:87-95 | releases a quarantined key and adjusts the gauge, otherwise changes nothing |
| PoisonPill.PoisonPillDetector.Prune | internal/proxy/poison.go:126-146 | trims every list and drops the empty ones, in any order |
| PoisonPill.FirstKept | internal/proxy/poison.go:53-60 | the scan stops where the list trimmed of its old events begins |
| PoisonPill.TrimIsRecent | internal/proxy/poison.go:53-60 | on an ascending list trimming the front keeps exactly the events inside the window |
| PoisonPill.PruneKeepsWindow | internal/proxy/poison.go:126-146 | after a prune, in any history, a list is exactly the events of the list before that lie inside the window, and lists without such events are gone |
| PoisonPill.DetectorInvariant | internal/proxy/poison.go:39-146 | after every history the lists are sorted, non-empty, below the threshold and disjoint from quarantine, and the gauge is the quarantine's size |
| PoisonPill.DetectionIsHistoryPredicate | internal/proxy/poison.go:39-146 | with prunes anywhere, recording answers true if and only if the key is quarantined or its reassignments since its last release that lie in the window reach the threshold |
| RateLimiter.RateLimiter.Allow | internal/proxy/rate_limiter.go:43-67 | refills to at most the burst and takes one token if there is one |
| RateLimiter.RateLimiter.Sweep | internal/proxy/rate_limiter.go:72-96 | a sweep no request interrupts removes exactly the buckets idle for over five minutes, and equals a sequence of judgements and deletions |
| RateLimiterTheorems.WindowBound | internal/proxy/rate_limiter.go:43-96 | in every window of every run without a cleanup, or with one that no request interferes with and a burst that refills in five minutes, a user is allowed at most burst + rate * length requests |
| RateLimiterTheorems.RefusedIff | internal/proxy/rate_limiter.go:43-67 | in the runs of `WindowBound` a request is refused if and only if the burst is zero or letting it through would exceed burst + rate * length in some window that ends with it |
| RateLimiterTheorems.CalmDecisions | internal/proxy/rate_limiter.go:72-96 | in such runs every decision is the one a limiter without evictions makes |
| RateLimiterTheorems.LateSeesOldBucket | internal/proxy/rate_limiter.go:43-67 | whatever others do meanwhile, a request that looked its bucket up before the cleanup deleted it is decided as if the bucket were still there |
| RateLimiterTheorems.OrphanServes | internal/proxy/rate_limiter.go:43-67 | until the next deletion a deleted bucket serves such requests as a limiter with only that bucket would |
| RateLimiterTheorems.DoomedIff | internal/proxy/rate_limiter.go:80-91 | over every run the cleanup is about to delete a bucket if and only if it found it stale and has not deleted since |
| RateLimiterLimits.CalmBoundedIff | internal/proxy/rate_limiter.go:43-96 | over the runs in which no request falls between the judging of its bucket and the deletion, the bound always holds if and only if five minutes refill the burst |
| RateLimiterLimits.CalmInvisibleIff | internal/proxy/rate_limiter.go:72-96 | over those runs evictions change no decision if and only if five minutes refill the burst |
| RateLimiterLimits.SlipBreaksBound | internal/proxy/rate_limiter.go:82-89 | a run in which requests slip in between judging and deletion, get the burst twice at one moment and show the eviction |
| RateLimiterLimits.AllRunsIff | internal/proxy/rate_limiter.go:43-96 | over all runs the bound, and the invisibility of evictions, hold if and only if the burst is zero |
| RateLimiterLimits.ConfiguredLimits | internal/proxy/proxy.go:183 | for the configured limits both hold in all runs without such requests, and both fail in some run with them |
| BridgeParts.PumpStepLine | internal/proxy/websocket.go:220-268 | a pump keeps the order of what it was given, and after a failed write only drops from behind what is written |
| BridgeParts.PumpStepFaithful | internal/proxy/websocket.go:220-268 | what a pump writes is the message's payload, from a buffer outside the pool |
| BridgeParts.InletStepConsecutive | internal/proxy/websocket.go:464-482 | a reader's channel and hand hold consecutive messages of its connection |
| BridgeParts.OwnsGet | internal/proxy/websocket.go:488-501 | a buffer taken for a message belonged to no live message |
| BridgeParts.OwnsFree | internal/proxy/websocket.go:108-115 | releasing a live message keeps all others' buffers, and the buffer was not in the pool |
| BridgeBuffers.Conserved | internal/proxy/websocket.go:200-482 | a step moves messages between queues, batches, channels and hands; only reading adds one, only releasing or dropping removes one |
| BridgeBuffers.OwnsStep | internal/proxy/websocket.go:108-115 | every step keeps each live message in a buffer of its own with its payload in it |
| BridgeOrder.SendsStep | internal/proxy/websocket.go:270-414 | every step keeps client messages ascending on each connection and from connection to connection |
| BridgeCurrent.CurrentStep | internal/proxy/websocket.go:270-414 | every step keeps the current connection's line the run of client messages from the one that was next when it was dialed |
| BridgeDelivery.ForwardsStep | internal/proxy/websocket.go:316-343 | every step keeps the client's queue equal to what was forwarded, and that in connection order |
| BridgeTheorems.BackendsGetClientOrder | internal/proxy/websocket.go:270-414 | in every run with any number of swaps each backend connection gets an ordered, duplicate-free part of the client's messages with intact payloads, and earlier connections only earlier messages |
| BridgeTheorems.CurrentBackendMissesNothing | internal/proxy/websocket.go:270-414 | until a connection is given up it got the client messages from the one that was next when it was dialed, without a gap; while its pump works and the bridge is open, written, batch, queue and the message in hand are exactly all messages from there to the last one received |
| BridgeTheorems.ClientGetsPrefix | internal/proxy/websocket.go:316-343 | the client gets a prefix of what was forwarded, which is each connection's messages from its first on, one connection after the other, payloads intact; while its pump works nothing forwarded is missing from its line, and every message received from the last connection was forwarded or is in hand |
| BridgeTheorems.BuffersReleasedOnce | internal/proxy/websocket.go:108-115 | no buffer is released while it is in the pool and none is written from the pool |
| BridgeTheorems.ReleasedOnlyWhen | internal/proxy/websocket.go:200-482 | a message is released only when it was written, its pump failed, its reader was cancelled, its connection was given up or reported an error, or the new connection's queue is full and the bridge closes |
| BridgeStranding.StrandingStep | internal/proxy/websocket.go:270-414 | every step abandons or drops exactly the messages `StrandedBy` names from the state before it: what waits in the channel of a connection that is given up, in the client's channel when the loop ends, in the queue of a client pump that stops, and what is pushed there later |
| BridgeAccounts.BuffersConserved | internal/proxy/websocket.go:108-115 | in every run every message read is still within some goroutine's reach, was released, was dropped by a swap request, or is abandoned |
| BridgeAccounts.AbandonedForGood | internal/proxy/websocket.go:270-414 | what is abandoned stays abandoned: no later step takes, writes or releases it |
| BridgeAccounts.NothingStrandedIff | internal/proxy/websocket.go:270-414 | nothing is dropped or abandoned in a run if and only if no step strands anything |
| BridgeAccounts.LeavesCleanIff | internal/proxy/websocket.go:303-365 | the step that gives a backend connection up drops nothing and abandons nothing more if and only if the old reader's channel is empty and, when the loop ends, the client's channel too |
| BridgeAccounts.LeavesBackendCleanIff | internal/proxy/websocket.go:464-482 | over a run, no message of the connection is dropped then or left in its channel later if and only if the channel is empty at that step and its reader pushes nothing afterwards |
| BridgeAccounts.LeavesClientCleanIff | internal/proxy/websocket.go:464-482 | the same for the client's channel once the loop ends |
| BridgeAccounts.FinishedIsAbandoned | internal/proxy/websocket.go:274-283 | once the loop has returned and every pump and reader has ended, what is still live is exactly what was abandoned |
| BridgeAccounts.AllReturnedIff | internal/proxy/websocket.go:270-482 | in a run that is over, every buffer read into is back in the pool if and only if no step stranded one |
| BridgeAccounts.ReadOnce | internal/proxy/websocket.go:464-482 | over every run each message is read at most once |
| BridgeAccounts.NumberReadOnce | internal/proxy/websocket.go:464-482 | and no message number of a connection is read into two buffers |
| BridgeAccounts.OneFate | internal/proxy/websocket.go:108-115 | so each message is in exactly one place and is released at most once |
| BridgePool.PooledIff | internal/proxy/websocket.go:108-115 | unless the pool forgot it, in every state of every run a buffer is in the pool if and only if it exists and no live or dropped message holds it |
| BridgePool.AllPooledIff | internal/proxy/websocket.go:108-115 | in a run that is over, with nothing forgotten, every buffer is in the pool if and only if no step stranded one |
| BridgeProgress.NothingStuck | internal/proxy/websocket.go:200-482 | in every state of every run, while a message is within reach some goroutine can take a step without waiting for a connection |
| BridgeProgress.SwapRequestTaken | internal/proxy/websocket.go:357-364 | in every run a swap request is taken up if and only if the loop is at its select and the backend's reader has passed on a message or its failure; it stops the old reader and pump |
| BridgeProgress.EndsOnlyWhen | internal/proxy/websocket.go:270-414 | in every run the loop ends only because the client hung up, its pump failed, the backend ended or its pump failed without a swap, a dial failed, or a new connection's queue is full |
| BridgeProgress.ClosedWindsDown | internal/proxy/websocket.go:274-283 | a closed bridge whose reads have failed and that has no step left is finished: every pump and reader has ended |
| BridgeProgress.ShutdownEnds | internal/proxy/websocket.go:274-283 | once the bridge is closed and no message arrives, the number of steps left is bounded and falls with every step |
| BridgeBounds.BuffersBounded | internal/proxy/websocket.go:200-268 | in every state a pump ties up at most 32 buffers, a reader 9 and the loop one |
| BridgeBounds.BackendEndsAfterLast | internal/proxy/websocket.go:316-334 | when the loop notices that a backend connection ended, every message read from it was forwarded |
| BridgeBounds.ClientEndsAfterLast | internal/proxy/websocket.go:297-300 | when the loop notices that the client hung up, its messages were all handed to the current connection, from the one that was next when it was dialed |
| BridgeBounds.SwapForwardsAll | internal/proxy/websocket.go:395-412 | when a swap completes, the new connection was handed every message the client's reader has passed on |
| BridgeWitnesses.SwapRequestStrands | internal/proxy/websocket.go:357-364 | a run in which a swap request finds n messages waiting, drops the first and abandons the others |
| BridgeWitnesses.LatePushStrands | internal/proxy/websocket.go:474-480 | a run in which a swap strands nothing itself and the old reader then pushes the message it holds |
| BridgeWitnesses.CloseStrands | internal/proxy/websocket.go:274-302 | a finished run in which n backend messages wait when the client hangs up and none of their buffers is returned |
| PooledRead.Grow | internal/proxy/websocket.go:509-513 | growing keeps the content and more than doubles the capacity |
| PooledRead.ReadAllPooled | internal/proxy/websocket.go:506-525 | for a reader that stalls any finite number of times: success is a complete message, failure leaves a prefix of it, and a message shorter than the capacity stays in the buffer it was given |

## Left out

- HTTP serving, token parsing, the reverse proxy, admin handlers, metrics, configuration, manifests and load scripts: input and output around the modelled core.
- Hooks, local caches, cache notifications and connection tracking during a drain or rebalance: they do not change the stores.
- Store errors, except the failed count increment that leads to a reconciliation; JSON that does not decode.
- The write halves of a bulk delete and of a count reconciliation are one step each in `StoreRuns`, although a Redis pipeline lets other clients in between its commands; the reads of a delete are a step each.
- The health checker: its probing is input and output, and pruning before probing re-creates removed backends as healthy.
- The per-backend circuit breaker: its availability check drops counts below the threshold, so it opens after that many failures only without checks in between.
- The legacy sticky-key mode and the hash fallback of the Redis client.
- The PostgreSQL advisory locker beyond the lock contract that `TransitionSystem` models without a time to live.
- Wall-clock effects: waiting for a lock, hold timeouts and the retry interval of a drain.
- WebSocket framing, close frames (section 7.4.1 of RFC 6455) and write deadlines; a message is a payload.
- The goroutines of the bridge are steps on values rather than objects updated in place: a pooled buffer is a number, and aliasing is two messages with the same number.
- Which of several swap requests wins: a request is an event that may happen whenever the loop is at its select.
- Rounding: the rate limiter computes over real numbers.
- LeastLoadedUnit.UnitPassBounds: assumes distinct active backends, none of them with the empty name, which the planner reads as "no target".
- HashPlacement.AssignViaHash: the rank of the answer is stated for lists without repetition, which is what the stores return.
- KubernetesDiscovery.ActiveFollowsLastSnapshot: the configuration without a drain manager.
- DrainManager.Drain: the table mode of a drain without interference; `StoreRuns.DrainLeavesNewcomers` has it interleaved. Hooks and connection closing are left out.
- PooledRead.ReadAllPooled: a reader that stalls for ever, for which the loop does not end.
- RateLimiterTheorems.WindowBound: requests are decided in the order of their clock readings, although two requests may read the clock in one order and take the bucket's mutex in the other.
