# A verified model of the SCRM backend

The backend of this private-domain SCRM keeps six kinds of state that several
requests, workers and callbacks change behind each other's back. This project models
each of them in Dafny and proves what holds over every run, and exactly when the code
does not do what one would expect of it.

- **Task queue** (`TaskQueue`, `TaskQueueSchedules`, `TaskQueueDelays`, `TaskQueueDraining`,
  `TaskStore`, `MemoryTaskQueue`, `QueueAgreement`): batch tasks and their items, run by any
  number of database workers on stale lists with rollbacks, or by one in-memory loop with a
  limit per tick.
- **Contact-way rotation** (`ContactWayRotation`, `RotationFairness`, `RotationLimits`,
  `RotationCallbacks`, `RotationAgreement`, `RotationStore`, `StateCodec`): a store's QR code that moves from
  guide to guide, the idempotent callback handler, and the state string that ties them.
- **Rate limiter** (`IpRateLimiter`, `RateLimiterSweep`, `RateLimiterBounds`) and **response cache** (`ResponseCache`): each
  against a simpler reference that never forgets anything.
- **Customer operations** (`CustomerOps`, `OpsEffects`, `OpsAudit`, `OpsExceptions`,
  `OpsStore`): stages, tasks, audit logs and exceptions that trigger each other.
- **Customer relations** (`CustomerRelations`): one main guide per customer, who is the owner.
- **Money and paging** (`Money`, `PagingSync`).

Transactions and lock-held sections are atomic steps. Each part is specified by functions
on values; the classes update the same state in place, as the source does, and each method
is proved to have exactly the effect of its function. A WeCom update, an item handler, an
import, a fetch, a failing statement and the clock are inputs of the steps.
`Basics` holds shared vocabulary. `dafny verify dfyconfig.toml` checks everything.

What the proofs show about the code that one might not expect:

- A claim does not look at `next_attempt_at` again, so a worker with a stale list may retry an
  item before its delay has expired. The delay is kept exactly if there is one worker, no
  delay, or nothing is ever retried (`DelayIsKeptIff`).
- A request reads its clock before it gets the lock, so clocks may come out of order. The
  limiter's sweep is invisible exactly when a bucket refills within five minutes and one clock
  tick, less twice the skew of the clocks; otherwise a swept client gets its whole burst back
  early, and the rate bound fails with it (`SweepTransparentIff`, `RateBoundIff`).
- A Get that found an expired entry deletes whatever is stored by the time it gets the write
  lock. In every cache there is a run that loses a fresh entry this way
  (`LateDeleteLosesFreshEntry`); the cache then misses, but it never answers wrongly
  (`AnswersAgreeIff`, `HitIsLatestLiveSet`).
- Storing a key that is stored already can evict another entry from a full cache
  (`StoringAgainMayEvict`).
- A part equal to `bind` breaks the state parser (`RoundTripIff`).
- A callback that fails after its key is recorded and before its assignment is committed is
  lost: every redelivery is dropped as a duplicate (`RedeliveryRepairsIff`).
- Nothing in the source resets `assigned_today`, so the daily limit is one for the lifetime
  of the row; and once no guide is eligible the code keeps pointing at the last one, whose
  limit the next customer exceeds (`ExhaustedPoolOverflows`, `LimitIsExceeded`).
- set-main in memory accepts an ended relation (`MemorySetMainSafeIff`,
  `EndedRelationBecomesMain`).
- Processing a resolved exception reopens it, and can leave two open ones about the same
  thing; any lasting situation can be reported twice (`ResolvedStaysIff`, `DuplicatedIff`,
  `AnyLastingReportCanBeDuplicated`). Reports about customers are never closed by
  the end of what they report (`CustomerReportOutlivesItsCause`).
- `formatIntWithComma` prints -123 as "-,123"; amounts never reach it negative
  (`SignIsSeparatedIff`). `parseCNYCents` reads "-5" as 5 yuan (`SignIsIgnored`).
- WeCom is told before the binding is saved. The guide that WeCom shows and the one that the
  binding remembers agree exactly if the last switch WeCom accepted was saved, or was to the
  guide remembered anyway (`AgreementIff`); a single customer add can part them
  (`CallbackPartsThem`).
- A remote system that reports too small a total ends the sync early (`CompleteIff`).

## Model

| member | source | states |
|---|---|---|
| TaskQueue.CommitMovesItem | backend/workers.go:151-231 | Field by field, the item's row after its transaction: status, attempts, error and due time by the handler's answer and the budget; no other row. |
| TaskQueue.CommitMovesTask | backend/workers.go:163-245 | Field by field, the task's row: one counter, the start with the first claim, the end once the counters cover all items, and completed, failed or partial_failed by which counters are zero; no other row. |
| TaskQueue.StatusTellsItems | backend/workers.go:233-245 | In every committed state: completed exactly if drained without dead letters, failed if drained with dead letters only, partial_failed if drained with both, running if not drained but begun. |
| TaskQueue.FetchedItemsAreDue | backend/workers.go:98-109 | Fetched items are distinct, at most a batch, queued, due, and of tasks that have not ended. |
| TaskQueue.CommitKeepsInvariant | backend/workers.go:144-245 | One committed item transaction keeps the queue invariant of every task, the worked one and all others: counters equal the numbers of succeeded and dead items, terminal exactly when nothing is queued, nothing left running, dead letters have used all attempts. |
| TaskQueue.EnqueueKeepsInvariant | backend/batch_tags.go:196-239 | Enqueueing establishes the invariant for the new task and keeps it for every other one. |
| TaskQueue.EnqueueAddsFreshRows | backend/batch_tags.go:217-239 | One queued task row with its total, and one untouched queued row per fresh id with its customer; no existing row is rewritten or shadowed. |
| TaskQueue.NewItemsContents | backend/batch_tags.go:226-236 | The k-th item row is the k-th customer's, and there are no other rows. |
| TaskQueue.RunKeepsInvariant | backend/workers.go:98-245 | The queue invariant holds in every committed state of every schedule of enqueues, fetches and item transactions by any number of workers. |
| TaskQueue.StatusesPartition | backend/workers.go:144-245 | A task's items are shared out between queued, succeeded and dead letter in every committed state. |
| TaskQueueSchedules.FateIsFirstSuccess | backend/workers.go:175-213 | An item ends succeeded at its first successful attempt within the budget, else dead having used exactly all attempts. |
| TaskQueueSchedules.RunKeepsFates | backend/workers.go:98-245 | No schedule changes the fate of any item of a task, nor which items the task has. |
| TaskQueueSchedules.DrainedTaskMeetsItsFate | backend/workers.go:98-245 | However a task is drained, its items, counters and status are those computed from the fates beforehand. |
| TaskQueueSchedules.DrainedStatusByFates | backend/workers.go:233-245 | Under every draining schedule: completed exactly if no item is fated to die, failed if some are and none to succeed, partial_failed if there are both. |
| TaskQueueSchedules.ScheduleIndependence | backend/workers.go:98-255 | Any two schedules (workers, stale lists, batch sizes, clocks, rollbacks) that drain a task agree on its status, both counters and every item's progress. |
| TaskQueueSchedules.RunSpendsOneAttemptPerCommit | backend/workers.go:152-213 | Over a run, the attempts spent on a task's items grow by exactly the number of committed item transactions on it. |
| TaskQueueSchedules.RetryBudgetBoundsEverySchedule | backend/workers.go:152-213 | Past attempts and all further committed steps on a task together never exceed total times maxAttempts. |
| TaskQueueSchedules.ExhaustedBudgetDrains | backend/workers.go:178-213 | A task whose whole budget is spent has nothing queued. |
| TaskQueueDraining.ProcessesCommitAll | backend/workers.go:132-142 | Processing a fetched list that nobody else touches, without rollbacks, commits exactly the items of it. |
| TaskQueueDraining.UndrainedCanBeFetched | backend/workers.go:98-131 | Until a task is drained, an idle worker that waits long enough finds something of it to fetch. |
| TaskQueueDraining.DiligentWithinBudget | backend/workers.go:98-213 | A worker that fetches something of the task in every round and never rolls back has at most as many rounds as the task has attempts left, and then the task is drained. |
| TaskQueueDraining.PolicyWithinBudget | backend/workers.go:98-213 | Whatever due items its fetches prefer, a single worker that never rolls back has at most as many rounds with something to do as all items together have attempts left. |
| TaskQueueDraining.PolicyDrains | backend/workers.go:98-213 | Under any policy that returns a batch whenever something is due, in particular the oldest tasks first, its rounds drain every task. |
| TaskQueueDraining.DiligentWorkerDrains | backend/workers.go:98-213 | From every state of the invariant such a run of a single worker drains the task. |
| TaskQueueDelays.EarlyClaimIff | backend/workers.go:98-158 | A worker that comes to claim an item of its fetched list is early exactly if the last transaction on the item since the fetch asked for a time still to come. |
| TaskQueueDelays.OneWorkerIsNeverEarly | backend/workers.go:98-158 | A worker alone, under a clock that does not run backwards, never claims an item before it is due, whatever the delays and failures. |
| TaskQueueDelays.StaleWorkerRetriesEarly | backend/workers.go:152-158 | Two workers, at least two attempts, a positive delay and any item whose first attempt is refused: a concrete schedule claims the item before its delay has expired. |
| TaskQueueDelays.DelayIsKeptIff | backend/workers.go:98-213 | No schedule of n workers ever claims an item early if and only if n is at most 1, the delay is not positive, or no item is ever retried (fewer than two attempts, or every first attempt succeeds). |
| TaskStores.TaskStore.EnqueueBatchTagTask | backend/batch_tags.go:196-244 | Checks, task row, item rows and commit in one transaction: the error of the first check or database access that fails and nothing changed, or exactly the specified tables. |
| TaskStores.TaskStore.InsertItems | backend/batch_tags.go:226-236 | The insert loop writes the rows of all customers, or stops at the failing insert. |
| TaskStores.TaskStore.ClaimItem | backend/workers.go:151-166 | Claims exactly a queued row, with one more attempt; otherwise nothing changes. |
| TaskStores.TaskStore.RecordOutcome | backend/workers.go:184-231 | Writes the outcome to the item and, unless it is retried, to one counter; says exactly which failing statement makes it give up. |
| TaskStores.TaskStore.ProcessQueuedTaskItem | backend/workers.go:144-245 | Commits exactly when the item is claimable and no statement of its path fails, and then has the specified effect; otherwise leaves the tables as they were. |
| TaskStores.TaskStore.ProcessQueuedTaskItems | backend/workers.go:98-142 | The worker's loop over its fetched list is one run of the schedule machine, one action per item in order. |
| MemoryTaskQueue.EnqueueKeepsInvariant | backend/batch_tags.go:150-178 | The invariant of the in-memory queue survives prepending a task and appending its items. |
| MemoryTaskQueue.DrainedStatusByCounts | backend/workers.go:423-437 | A drained non-empty task in memory: completed exactly if no item failed, failed if some did and none succeeded, partial_failed if there are both. |
| MemoryTaskQueue.HandledFields | backend/workers.go:384-421 | Field by field, an item after its only attempt, for supported and unsupported task types. |
| MemoryTaskQueue.HandlingKeepsCounts | backend/workers.go:384-396 | Handling one queued item moves one unit between its task's counters and leaves every other task's counts. |
| MemoryTaskQueue.TickProgress | backend/workers.go:353-382 | Queued items plus active tasks strictly decrease over a tick that handles something or finishes every task. |
| MemoryTaskQueue.CutServesInOrder | backend/workers.go:355-379 | Wherever the limit cuts a tick, nothing was handled while something earlier still waits. |
| MemoryTaskQueue.MemoryQueue.Tick | backend/workers.go:353-382 | A tick handles exactly min(limit, queued) items, first come first served, keeps the invariant, and with limit at least 1 and an active task gets strictly closer to idle. |
| MemoryTaskQueue.MemoryQueue.ProcessTaskItem | backend/workers.go:384-421 | One item and one counter change, by the handler's answer. |
| MemoryTaskQueue.MemoryQueue.FinishTaskIfDone | backend/workers.go:423-437 | A covered active task takes the status its counters call for; any other is left alone. |
| MemoryTaskQueue.MemoryQueue.EnqueueBatchTagTask | backend/batch_tags.go:150-178 | Task first, items last, one per customer in order, invariant kept. |
| QueueAgreement.CountIsSetSize | backend/workers.go:398-437 | Counting list entries and counting database rows agree. |
| QueueAgreement.DrainedMemoryTaskMatchesDatabase | backend/workers.go:353-437 | A drained non-empty task ends with the same status and counters in memory as under every draining database schedule with maxAttempts 1. |
| RateLimiterSweep.SweepTransparency | backend/middleware_cache_metrics.go:97-132 | For every trace whose clocks lie at most a given skew behind the latest one, the sweeping limiter decides exactly as one that never forgets a client, under the refill condition for that skew. |
| RateLimiterSweep.OrderedSweepTransparency | backend/middleware_cache_metrics.go:97-132 | With a nondecreasing clock, burst at most 300 times rps is enough. |
| RateLimiterSweep.SweepTransparentIff | backend/middleware_cache_metrics.go:97-132 | The exact condition for each skew: all traces agree if and only if burst * 10^9 <= (300 * 10^9 + 1 - 2 * skew) * rps, or the limiter is off. |
| RateLimiterSweep.SweptClientGetsMore | backend/middleware_cache_metrics.go:122-132 | Whenever the condition fails, a concrete trace of that skew is decided differently. |
| RateLimiterBounds.ReferenceRateBound | backend/middleware_cache_metrics.go:97-116 | For the bucket alone, from any state and with the clocks read in any order: requests granted to one address in any window are at most the burst plus the window's refill. |
| RateLimiterBounds.ReferenceGrantsIff | backend/middleware_cache_metrics.go:97-120 | With ordered clocks a request is granted if and only if every window that ends with it has room for one more grant within burst plus refill: none is refused without need. |
| RateLimiterBounds.LimiterGrantsIff | backend/middleware_cache_metrics.go:82-132 | The same for the limiter with its sweep, where that is invisible. |
| RateLimiterBounds.RateBound | backend/middleware_cache_metrics.go:82-132 | The same bound for the limiter as it is, sweep included, for clocks of the given skew and under its condition. |
| RateLimiterBounds.RateBoundIff | backend/middleware_cache_metrics.go:82-132 | For a positive rate and each skew, the bound holds in every window of every run exactly under that condition: elsewhere a drained, swept and drained client exceeds it. |
| RateLimiterBounds.DisorderExceedsBound | backend/middleware_cache_metrics.go:97-132 | Where clocks may lie more than five minutes apart no burst is small enough: a client is granted two bursts at one instant. |
| IpRateLimiter.LimitsAreClamped | backend/middleware_cache_metrics.go:82-95 | No negative rate, and a burst of at least the rate. |
| IpRateLimiter.OffLimiterAllowsAll | backend/middleware_cache_metrics.go:98-100 | Without a rate or a burst every request is allowed and nobody is remembered. |
| IpRateLimiter.SweepForgetsIdleClients | backend/middleware_cache_metrics.go:122-132 | Once 60 seconds have passed, exactly the clients idle for more than 300 are forgotten. |
| IpRateLimiter.RateLimiter.SweepLocked | backend/middleware_cache_metrics.go:122-132 | The delete-while-iterating loop forgets exactly the clients idle for more than five minutes. |
| IpRateLimiter.RateLimiter.AllowRequest | backend/middleware_cache_metrics.go:97-120 | The in-place bucket update makes the specified decision and leaves the specified state. |
| ResponseCaches.SetEffect | backend/middleware_cache_metrics.go:165-183 | A Set stores its entry for the ttl and loses no other live entry, unless the cache is full of live ones: then exactly one goes, even if the key was stored already. |
| ResponseCaches.StoringAgainMayEvict | backend/middleware_cache_metrics.go:171-176 | So storing a stored key again can evict another live entry. |
| ResponseCaches.InvalidationEffect | backend/middleware_cache_metrics.go:185-204 | Delete removes the key, DeletePrefix exactly the keys that begin with the prefix. |
| ResponseCaches.LookupEffect | backend/middleware_cache_metrics.go:146-163 | A lookup answers with the body of an entry up to and including its expiry, changes no entry, and leaves a delete to come for an expired one. |
| ResponseCaches.SweepMeaning | backend/middleware_cache_metrics.go:222-232 | After 60 seconds or when full, a sweep takes all expired entries and no others. |
| ResponseCaches.HitIsLatestLiveSet | backend/middleware_cache_metrics.go:146-220 | In every interleaving and with any clocks, a hit returns the body of the latest Set of the key, at most ttl old and not invalidated since. |
| ResponseCaches.AnswersAgreeIff | backend/middleware_cache_metrics.go:134-232 | The cache answers as an unbounded one exactly if that one misses too, or the entry of the latest Set was neither evicted nor lazily deleted since. |
| ResponseCaches.LateDeleteIsLeftOver | backend/middleware_cache_metrics.go:146-163 | In a possible run, a lazy delete that throws out an entry not yet expired was asked for by a lookup made before that entry's Set, of an entry that had expired. |
| ResponseCaches.LateDeleteLosesFreshEntry | backend/middleware_cache_metrics.go:146-192 | Whatever the ttl and the bound, there is a possible run in which such a delete loses a fresh entry. |
| ResponseCaches.EntryCountNeverExceedsBound | backend/middleware_cache_metrics.go:165-183 | In every possible run the cache never holds more than maxEntries entries. |
| ResponseCaches.LatestSet | backend/middleware_cache_metrics.go:165-220 | Finds the live Set of a key in a trace, or shows there is none. |
| ResponseCaches.ResponseCache.LookupKey | backend/middleware_cache_metrics.go:146-158 | The read-locked half of a Get: the answer, and whether a delete is still to come; a Lookup step. |
| ResponseCaches.ResponseCache.FinishGet | backend/middleware_cache_metrics.go:156-192 | The write-locked half, whatever has been stored in between: a LazyDelete step. |
| ResponseCaches.ResponseCache.Get | backend/middleware_cache_metrics.go:146-163 | Both halves with nothing in between: the answer, the entry gone if it had expired, no delete left to come. |
| ResponseCaches.ResponseCache.SweepLocked | backend/middleware_cache_metrics.go:222-232 | The sweep loop removes exactly the expired entries, when it is due or the cache is full. |
| ResponseCaches.ResponseCache.SetKey | backend/middleware_cache_metrics.go:165-183 | Sweep, evict one entry if still full, store: an enabled Set step. |
| ResponseCaches.ResponseCache.DeleteByPrefix | backend/middleware_cache_metrics.go:194-220 | The loop removes exactly the keys with the prefix. |
| StateCodec.SplitOfBuild | backend/wecom_contact_way_rotation.go:860-866 | The built state splits into its nine parts: four names, each with its sanitised value, and the version. |
| StateCodec.SplitMeaning | backend/wecom_contact_way_rotation.go:869 | Splitting cuts at every colon and loses nothing. |
| StateCodec.ParseMeaning | backend/wecom_contact_way_rotation.go:868-876 | Of any state, built or not, the parser returns what follows the first part that reads bind, trimmed, or nothing. |
| StateCodec.ParseOfBuild | backend/wecom_contact_way_rotation.go:860-876 | What the parser returns for every built state, including each way a part equal to bind misleads it. |
| StateCodec.RoundTripIff | backend/wecom_contact_way_rotation.go:860-896 | Parsing gives the sanitised id back for every id exactly when no sanitised store, manager or guide part is bind. |
| StateCodec.CleanIdRoundTrips | backend/wecom_contact_way_rotation.go:864-896 | A trimmed id without colon or space comes back itself. |
| StateCodec.SanitizedIsClean | backend/wecom_contact_way_rotation.go:891-896 | Sanitising leaves neither outer whitespace nor colons nor spaces, and sanitising again changes nothing. |
| StateCodec.SanitizeMeaning | backend/wecom_contact_way_rotation.go:891-896 | Sanitising trims and puts an underscore for each colon and each space, character by character. |
| StateCodec.TrimDropsOuterSpace | backend/wecom_contact_way_rotation.go:892 | Trimming takes whitespace from both ends, all of it and nothing else. |
| ContactWayRotation.PositiveModuloIsResidue | backend/wecom_contact_way_rotation.go:898-907 | Built from a truncating remainder, it is the mathematical residue for negative values too. |
| ContactWayRotation.EligibleKeepsOrder | backend/wecom_contact_way_rotation.go:828-852 | The eligible list holds exactly the active rows below their limit or without one, in the pool's order. |
| ContactWayRotation.SwitchOutcomes | backend/wecom_contact_way_rotation.go:475-541 | Which outcome a switch has: refusals, failures and success by the binding, its pool, WeCom and the database. |
| ContactWayRotation.SwitchEffect | backend/wecom_contact_way_rotation.go:493-541 | Field by field, what a switch writes to its binding by its outcome: guide, index, status and error. |
| ContactWayRotation.SwitchTouchesOneBinding | backend/wecom_contact_way_rotation.go:475-541 | Whatever comes of it, no other binding, pool, assignment or callback record changes. |
| ContactWayRotation.RetryNamesNextGuide | backend/wecom_contact_way_rotation.go:509-520 | A refused update is queued with the guide and the state that an accepted one would have installed. |
| ContactWayRotation.StateNames | backend/wecom_contact_way_rotation.go:508 | An installed state names the binding's store code and manager, the guide and the binding, in this order. |
| ContactWayRotation.SetStatusEffect | backend/wecom_contact_way_rotation.go:543-565 | A pause pauses, an enable enables, the error is cleared, and nothing else changes. |
| RotationFairness.ApplyTakesATurn | backend/wecom_contact_way_rotation.go:475-541 | Which operation takes a binding's turn: a switch or a handled customer add of this binding that nothing refuses; it picks the guide whose turn it is and moves on by one, and every other operation leaves the turn. |
| RotationFairness.PicksAreTurns | backend/wecom_contact_way_rotation.go:475-680 | Over any mix of switches, callbacks, failures, pauses and enables, of this binding and others, that leaves the eligible users the same, the picks walk the eligible list cyclically. |
| RotationFairness.ShareOfTurns | backend/wecom_contact_way_rotation.go:497-508 | The exact number of picks a guide has had after m turns, from where the turn started and ended. |
| RotationFairness.RoundRobinIsFair | backend/wecom_contact_way_rotation.go:475-680 | Over any such run, of m picks over n eligible guides each gets floor or ceiling of m/n. |
| RotationFairness.UnlimitedPoolIsFair | backend/wecom_contact_way_rotation.go:475-722 | If no active guide has a limit, that holds over every run without a forced switch of this binding, callbacks and shared pools included. |
| RotationCallbacks.ReplayEquivalence | backend/wecom_contact_way_rotation.go:629-740 | Any delivery sequence ends in the very state that the first deliveries of each key alone lead to, whatever fails. |
| RotationCallbacks.EachKeyIsHandledOnce | backend/wecom_contact_way_rotation.go:629-651 | A new key that is ever recorded is handled exactly once, any other never. |
| RotationCallbacks.OneAssignmentPerEffectiveKey | backend/wecom_contact_way_rotation.go:629-740 | The assignments of a run are exactly those of the effective first deliveries, in order. |
| RotationCallbacks.AssignmentRows | backend/wecom_contact_way_rotation.go:692-708 | Over every run, field by field: the k-th new row has the trimmed external user, guide, state and change type of the k-th effective first delivery, the binding its state leads to, and that binding's store and manager. |
| RotationCallbacks.EffectiveMeaning | backend/wecom_contact_way_rotation.go:652-668 | Effective are full and half customer adds whose trimmed state leads to a stored binding and whose handling does not fail before the assignment. |
| RotationCallbacks.HandleMarks | backend/wecom_contact_way_rotation.go:643-680 | Which keys are recorded, and which are marked as processed. |
| RotationCallbacks.CountersFollowAssignments | backend/wecom_contact_way_rotation.go:692-722 | Over every run, with any failures, a guide's counter and its assignment rows grow by the same amount. |
| RotationCallbacks.RedeliveryRepairsIff | backend/wecom_contact_way_rotation.go:629-740 | Redelivery recovers a failed callback's assignment exactly when the failing write was not between the key's insert and the assignment's commit. |
| RotationLimits.EligibleIffRoom | backend/wecom_contact_way_rotation.go:828-852 | Somebody is eligible exactly if an active guide is unlimited or capacity is left. |
| RotationLimits.OrderlyAddStep | backend/wecom_contact_way_rotation.go:629-740 | One customer add counts the guide the code points at and leaves it pointing at an eligible one, if there is one. |
| RotationLimits.DailyLimitsHoldIff | backend/wecom_contact_way_rotation.go:493-532 | Over a run of orderly adds every positive limit is respected if and only if an active guide is unlimited or the customers fit the pool's capacity. |
| RotationLimits.ExhaustedPoolOverflows | backend/wecom_contact_way_rotation.go:497-506 | Once nobody is eligible the next customer exceeds the current guide's limit, for good. |
| RotationLimits.NextCustomerIsOrderly | backend/wecom_contact_way_rotation.go:629-740 | Wherever the state is readable and the key new, a customer who adds the guide the code shows is such an orderly add. |
| RotationLimits.LimitIsExceeded | backend/wecom_contact_way_rotation.go:493-722 | A run that exceeds a limit: two customers of a store whose only guide may take one. |
| RotationLimits.SwitchPointsAtEligible | backend/wecom_contact_way_rotation.go:475-541 | A successful switch or activation leaves the binding pointing at an eligible guide of its pool. |
| RotationLimits.SwitchedStateLeadsBack | backend/wecom_contact_way_rotation.go:508-541 | The state string a switch installs leads the next callback back to the same binding. |
| RotationAgreement.SwitchKeepsAgreementIff | backend/wecom_contact_way_rotation.go:508-538 | A switch parts the guide WeCom shows from the one the binding remembers exactly if it reaches WeCom, is accepted with another guide, and is not saved. |
| RotationAgreement.AgreementIff | backend/wecom_contact_way_rotation.go:475-740 | After any run of switches, pauses and callbacks of any bindings the two agree exactly if the last accepted switch of the binding was saved or to the guide remembered anyway; without one, exactly if they agreed at the start. |
| RotationAgreement.AgreementIsKept | backend/wecom_contact_way_rotation.go:475-740 | They stay in agreement over every run in which no accepted switch goes unsaved. |
| RotationAgreement.UnsavedCallbackParts | backend/wecom_contact_way_rotation.go:629-680 | Any handled customer add whose switch goes unsaved parts them, if the next turn is another guide's. |
| RotationAgreement.CallbackPartsThem | backend/wecom_contact_way_rotation.go:629-680 | Which happens in a store of two guides, whoever the customer and whatever the event key. |
| RotationStores.RotationStore.SwitchBinding | backend/wecom_contact_way_rotation.go:475-541 | The in-place switch with its refusals and with any of its reads, the WeCom update, its writes, commit or read-back failing: once committed the binding remembers an eligible guide of its pool, without a commit no binding's guide, index or status moves, and the caller gets the binding exactly if the commit and the read-back succeed. |
| RotationStores.RotationStore.HandleCustomerEvent | backend/wecom_contact_way_rotation.go:629-680 | The handler has the specified effect, whichever of its own accesses fails and whatever goes wrong in its switch. |
| CustomerRelations.RunKeepsInvariant | backend/customers.go:492-609 | Over every run of add, set-main, end and handover: at most one main relation per customer, active, its guide the owner; ended exactly if an end time is set. |
| CustomerRelations.RelationsAreNeverLostOrRevived | backend/customers.go:532-609 | Over every run relations keep their customer and guide, none is lost, and an ended one stays ended. |
| CustomerRelations.SetMainTakesEffectIff | backend/customers.go:555-586 | set-main puts the guide in charge exactly for an active relation of this customer, and otherwise changes nothing. |
| CustomerRelations.SetMainTouchesMainFlags | backend/customers.go:555-586 | Of the relations set-main moves only main flags, and only this customer's; no other customer's owner moves. |
| CustomerRelations.EndTakesEffectIff | backend/customers.go:573-590 | end ends exactly a stored relation of this customer that is not the main one, at this time; each refusal leaves all as it was, and no other row or owner ever moves. |
| CustomerRelations.AddTakesEffectIff | backend/customers.go:492-529 | add inserts one active relation that is not the main one, to the guide id or else the trimmed name; exactly a blank name is refused. |
| CustomerRelations.HandoverPutsReceiverInCharge | backend/handover.go:283-320 | A handover of a stored customer puts the receiver in charge, ends the old main relation and touches no other customer's; otherwise nothing changes. |
| CustomerRelations.MemoryEffects | backend/customer_actions.go:129-144 | In memory, field by field, what set-main and end do to each relation and to the owner. |
| CustomerRelations.MemorySetMainSafeIff | backend/customer_actions.go:129-138 | In memory the main relation stays an active one exactly when set-main is not asked for an ended one. |
| CustomerRelations.EndedRelationBecomesMain | backend/customer_actions.go:129-144 | Ending any relation but the main one and then making it the main one succeeds twice and leaves an ended main relation, its guide the owner. |
| CustomerRelations.RelationStore.SetMainGuide | backend/customers.go:532-586 | The three updates of set-main, in order, with both refusals. |
| CustomerRelations.RelationStore.ApplyHandover | backend/handover.go:283-320 | Owner, old main relation, new relation, in order, or nothing for an unknown customer. |
| OpsEffects.StageRequestEffect | backend/customer_ops.go:119-140 | A stage request, field by field: the customer's stage and the entry about it, a visit task exactly for high intent without an open one, nothing else; refused for unknown customers and empty stages. |
| OpsEffects.FollowupRequestEffect | backend/customer_ops.go:161-179 | A follow-up, field by field: the record with the stage before, the stage it names if that is another one, then the reminder if it names a time; refused for unknown customers. |
| OpsEffects.TaskRequestEffect | backend/customer_ops.go:202-208 | A new task, field by field: in front, pending unless a status is given, for the named worker or else the customer's guide, with its entry. |
| OpsEffects.TaskVerbEffect | backend/customer_ops.go:211-255 | A task verb, field by field: the status that process, complete and ignore write, the worker that assign sets, the entry about it, no other task; refused for unknown tasks and verbs. |
| OpsEffects.CompletionLogsStage | backend/customer_ops.go:415-423 | A completed first follow-up takes its waiting customer to following, with the entry; no other completion moves a stage. |
| OpsEffects.ExceptionVerbEffect | backend/customer_ops.go:353-379 | process, resolve and ignore write their status to the exception with this id and to no other; refused for unknown exceptions and verbs. |
| OpsAudit.NextKeepsAudit | backend/customer_ops.go:381-469 | Every request, with all its cascades between tasks, follow-ups and stages, extends both audit trails without a gap. |
| OpsAudit.AuditReplay | backend/customer_ops.go:381-469 | From empty logs, over every run: each customer's entries replay from its first stage to its current one, each task's from its first status (empty if created on the way) to its current one, and no task is lost. |
| OpsAudit.ChangeStageLeads | backend/customer_ops.go:458-469 | A stage change moves that customer only; high intent leaves an open visit task, a new one exactly if none was open, and no other task is touched. |
| OpsAudit.FollowupLeads | backend/customer_ops.go:429-456 | A follow-up moves its customer exactly if it names another stage; its record holds the stage before, and a next time leaves a reminder task. |
| OpsAudit.CompletionMovesStageIff | backend/customer_ops.go:407-427 | A task's new status moves a customer's stage exactly if it completes that customer's first follow-up while the customer still waits for it. |
| OpsExceptions.RefreshReportsExactlyWhatIsNeeded | backend/customer_ops.go:512-549 | After a refresh a needed report is open, once if it was not open before; the number of open reports of anything else, and of what was already reported, is unchanged. |
| OpsExceptions.NeedsMeaning | backend/customer_ops.go:512-527 | What the refresh asks for is exactly the overdue tasks and the first_follow_pending and dormant customers. |
| OpsExceptions.RefreshOnlyAddsPendingReports | backend/customer_ops.go:529-549 | A refresh only puts fresh pending entries about needed things in front of the untouched list. |
| OpsExceptions.RefreshReportsTasksFirst | backend/customer_ops.go:512-527 | Overdue tasks are reported before customers, so they stand behind them in the list. |
| OpsExceptions.RefreshIsIdempotent | backend/customer_ops.go:512-549 | A second refresh changes nothing. |
| OpsExceptions.ExceptionStatusStep | backend/customer_ops.go:353-379 | What any request does to any exception: it is never deleted or relabelled, and only an operator's verb or the completion of its task moves its status. |
| OpsExceptions.ResolvedStaysIff | backend/customer_ops.go:367-377 | A resolved exception stays resolved under a request exactly if that does not process or ignore it. |
| OpsExceptions.CompletedTaskStaysQuiet | backend/customer_ops.go:407-427 | Completing a task resolves every exception about it, and over any later run that reopens none they all stay resolved and no new one appears. |
| OpsExceptions.NoNewReports | backend/customer_ops.go:512-549 | Once a task is not overdue, every exception about it in any later state was there before, reopened or not. |
| OpsExceptions.CustomerReportOutlivesItsCause | backend/customer_ops.go:551-558 | An open report about a customer stays open over every run without an operator's act on exceptions, whatever stage the customer reaches. |
| OpsExceptions.DuplicatedIff | backend/customer_ops.go:367-375 | At most one open exception per situation is kept by every request except exactly this one: processing a closed exception whose situation is already reported by an open one. |
| OpsExceptions.AnyLastingReportCanBeDuplicated | backend/customer_ops.go:353-379 | Any situation that is reported once and lasts can be reported twice: resolve the report, refresh, process the old one. |
| OpsExceptions.DormantReportIsDuplicated | backend/customer_ops.go:512-549 | So it happens to the report about a dormant customer. |
| OpsStores.OpsStore.ChangeCustomerStage | backend/customer_ops.go:458-469 | In place, one customer's stage moves, and after high intent the customer has an open visit task. |
| OpsStores.OpsStore.SetOpsTaskStatus | backend/customer_ops.go:407-427 | Status and log, then the two cascades of a completion. |
| OpsStores.OpsStore.AddCustomerFollowup | backend/customer_ops.go:429-456 | In place, the customer moves to the stage the follow-up names, if any, and a next time leaves an open reminder task in front. |
| OpsStores.OpsStore.ResolveExceptionsByTask | backend/customer_ops.go:551-558 | The loop resolves exactly the exceptions with this task id. |
| OpsStores.OpsStore.EnsureException | backend/customer_ops.go:529-549 | The search loop adds an exception exactly if no open one reports the same thing. |
| OpsStores.OpsStore.RefreshExceptions | backend/customer_ops.go:512-527 | Both loops together have the specified effect. |
| OpsStores.OpsStore.Handle | backend/customer_ops.go:103-255 | Every request, with its refusals for unknown ids, verbs and empty stages, has the specified effect and answer. |
| Money.FormatIntWithComma | backend/utils.go:196-208 | The prepending loop computes the grouped text. |
| Money.GroupedShape | backend/utils.go:196-208 | Counted from the right, exactly every fourth character is a comma. |
| Money.GroupingOnlyAddsCommas | backend/utils.go:196-208 | Without its commas the grouped text is the number's. |
| Money.SignIsSeparatedIff | backend/utils.go:196-208 | A negative number prints with a comma right after its sign exactly if its digits fill whole groups of three. |
| Money.ParseCNYCents | backend/utils.go:166-182 | The filter loop and the rounding, with 0 for unreadable text; leading and trailing spaces do not matter. |
| Money.PointedTextIsRounded | backend/utils.go:166-182 | Text with a point and any number of decimals is read to the nearest cent, upwards on a tie, told from the digits before and after the point. |
| Money.PointlessTextIsWhole | backend/utils.go:166-182 | Text without a point is a whole number of yuan, told from its digits. |
| Money.UnreadableIsZero | backend/utils.go:178-180 | Text without a digit or with two points reads as 0. |
| Money.PrintedIs | backend/utils.go:184-194 | Without commas: the yuan sign, the yuan, and any cents as two digits after a point; nothing for amounts that are not positive. |
| Money.NoLeadingZero | backend/utils.go:197 | A printed number has no leading zero. |
| Money.ReadableIff | backend/utils.go:171-180 | Text has an amount exactly if it has a digit and at most one point. |
| Money.SignIsIgnored | backend/utils.go:171-176 | A minus sign in front is dropped: the amount is read as the positive one. |
| Money.ReadingPrintedAmounts | backend/utils.go:166-194 | Parsing the formatted text of any number of cents gives it back if it is positive, and 0 otherwise. |
| PagingSync.PageSize | backend/monobase_sync.go:471-476 | Always between 1 and 200, the configured size if that is, else 100. |
| PagingSync.TalliesAddUp | backend/monobase_sync.go:193-209 | Total plus Failed is the number of attempted items. |
| PagingSync.OccurrencesAreCounts | backend/monobase_sync.go:193-209 | Each statistic is the number of attempts with its outcome. |
| PagingSync.SyncResource | backend/monobase_sync.go:182-215 | Against any fixed remote list, any reported totals and any failing fetch: the loop ends at the first stopping fetch, has attempted exactly the items before it, each once in order, and the statistics count their outcomes, with Total = Added + Updated + Skipped. |
| PagingSync.FetchCount | backend/monobase_sync.go:188-213 | With a steady reported total T, n items and page size p the loop makes min(n/p + 1, max(1, ceil(T/p))) fetches. |
| PagingSync.CompleteIff | backend/monobase_sync.go:210-212 | Every item is attempted exactly if one page holds them all or the reported total reaches into the last page. |
| PagingSync.HonestTotalIsComplete | backend/monobase_sync.go:182-215 | With the right total: max(1, ceil(n/p)) fetches, and every item attempted once, in order. |

## Left out

- HTTP handlers, JSON and XML decoding, SQL text, row scanning, Redis, and the WeCom and Monobase network calls.
- Integer widths, float64 rounding, wall-clock formatting and id collisions: integers are unbounded, tokens and amounts exact, clocks integers, new ids fresh.
- Database isolation: a transaction is one atomic step or none, so what two transactions read of each other under READ COMMITTED is not captured.
- `processDBBatchTagItem` and the in-memory tag writes: what an item's handler answers is an arbitrary function of the item and its attempt number.
- The tasks' `last_error` column, which is overwritten by whichever item fails last and so does depend on the schedule; an item's own error text is modelled.
- The events inbox and its workers, which follow the pattern of the task items with less state.
- `maxAttempts` is at least 1 in the queue invariant: `runWorkers` (backend/workers.go:23-26) replaces smaller values by 3.
- The order in which queued items are fetched: any batch of distinct due items of active tasks is allowed, or any policy of choosing one.
- In-memory task items have unique ids and belong to a stored task, as the enqueue operation makes them.
- The truncation of long WeCom error texts, the legacy event row of a callback (only its failure is modelled) and the retry-task replay, which updates WeCom without the binding.
- Upserts and edits of a store's guide pool: pools are given, in the query's order, with one row per guide.
- The event key's SHA-1: the key is an arbitrary function of the cleaned event.
- The nil cache and the nil limiter, which answer as if they were not there.
- Customer operations: timelines, tags, touches, materials, due times, role filters and the status label; customers are not created or deleted in memory mode.
- In-memory relations other than set-main and end, and the names copied next to guide ids.
- OpsStores.OpsStore.Handle: refusals by the caller's role or by the request method, which depend on the request and not on the state.
- A WeCom error is taken to mean that WeCom goes on showing what it showed; an update that was carried out although its answer got lost is not told apart.
- Database failures of a pause or an enable, which change nothing or only the answer.
- RotationStores.RotationStore: the pool is read with the specification's filter function instead of a row scan.
- Handover requests, their forced items and who receives: only the application to one customer is modelled.
- `appendUnique`, list filters and single-branch defaults would only add easy members.
