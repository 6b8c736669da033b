# Verified model of the token-sale platform

A Dafny model of the parts of the platform that keep money, tokens, sessions and queues
consistent, with proofs about every run rather than single calls. Each module follows one
component; `dafny verify dfyconfig.toml` checks them all.

| module | component |
|---|---|
| `SaleLedger`, `SaleProtocol`, `SaleTheorems`, `SaleCounterexamples`, `SaleService` | contribute, finalize, claim, refund and withdraw over contribution and sale rows: as database transactions, as interleaved sessions with row locks and a unique index, the theorems about all interleavings, the runs that show their conditions are needed, and the service object |
| `SalePhases` | validation of the phases of a new sale, and which phase is active |
| `Withdrawals` | issuer withdrawals in exact amounts and in micro-USDC |
| `WebhookQueue` | the webhook retry sweep with its dead letters |
| `EventListener`, `ListenerReplay` | the block cursor and the effect of contract logs, and what crashes, lost cursor writes and replays do to them |
| `RateLimit`, `RateLimitMiddleware` | the sliding-window limiter and the keys it is driven with |
| `TokenBucket` | the outgoing request limiter |
| `CircuitBreaker` | the RPC circuit breaker and the provider choice |
| `TokenBlacklist` | expiring blacklist entries, token rotation and logout |
| `LoginLockout` | failed logins and the lock |
| `Vesting` | linear vesting with a cliff, and claims against it |
| `Slugs`, `TokenFormat`, `Wallets` | slugs of token names, printing of token amounts, primary wallets |
| `Wrappers`, `AsciiText`, `Digits`, `Sets`, `Extrema`, `RecentTimes` | option and result types, character classes, decimal numerals, sizes of sets, smaller and larger, lists of time stamps |

How the model is made:

- The ledger is a state machine of sessions. `contribute` is four steps (duplicate check,
  lock and validate, commit or conflict, look-up after a conflict), any of which may be the
  last; `finalize`, `claim` and `refund` read in one step and write in a later one, as they
  take no lock when they read. A run is any sequence of steps of any sessions.
- On-chain verification, KYC, screening, the clock, connection checks and transfer outcomes
  are parameters of each call, and take any value.
- Times and amounts are `real`; clocks never run backwards from one call to the next. Token
  expiry times are whole seconds.
- Where a property needs a condition, the condition is stated on the state before the step,
  and a concrete run shows that it cannot be dropped.

The model follows the code where its own documentation differs from it or is silent:

- `contribute` promises to return an existing contribution for a known transaction hash; the
  check before the lock refuses it, and only a lost race returns it.
- The webhook task speaks of a backoff of 1, 4 and 16 seconds; the delay is only logged, and
  every sweep tries every event in its batch.
- The listener selects contributions by wallet and status only, so that a claim or refund log
  of one sale ends the open contributions of its wallet to every sale.
- The circuit breaker promises one test call in the half-open state; every call is allowed
  there, and a failed one need not reopen it.

## Model

| member | source | states |
|---|---|---|
| `SaleTheorems.LedgerSound` | apps/api/services/sale_contribute_service.py:106-293 | after any interleaving of any number of contribute, finalize, claim, refund and withdraw sessions: one row per tx_hash, total_raised is the sum of the rows and of the four per-status sums, a non-zero hard cap is never exceeded, withdrawals stay within what was raised |
| `SaleTheorems.ConflictFindsTheWinner` | apps/api/services/sale_contribute_service.py:279-293 | a session whose commit hit the unique index always finds the row that beat it, never the second conflict error; whatever row a session reports carries its own tx_hash |
| `SaleTheorems.UserMaximumHolds` | apps/api/services/sale_contribute_service.py:231-251 | where only the database sum limits a sale, no interleaving takes a user past the maximum of a phase |
| `SaleTheorems.CallsOnlyClimb` | apps/api/services/sale_contribute_service.py:380-609 | in every run in which each finalize, claim and refund call is uninterrupted, among contribute sessions in any interleaving, the status of each contribution only climbs between any two moments |
| `SaleTheorems.CallsSolvent` | apps/api/api/v1/endpoints/issuer_withdrawals.py:119-196 | in every such run withdrawn plus refunded never exceeds raised |
| `SaleTheorems.RunClimbsIff` | apps/api/services/sale_contribute_service.py:405-609 | over any interleaving of single steps, statuses climb between any two moments if and only if no step rewrites a row that ended after it was selected |
| `SaleTheorems.StepClimbsIff` | apps/api/services/sale_contribute_service.py:405-609 | a committing step keeps every status climbing if and only if no row it rewrites was claimed or refunded after it was selected |
| `SaleTheorems.ImmediateClaimClimbs` | apps/api/services/sale_contribute_service.py:459-492 | a claim that commits in the state it read is never such a step |
| `SaleTheorems.ImmediateRefundClimbs` | apps/api/services/sale_contribute_service.py:582-609 | neither is such a refund |
| `SaleTheorems.ImmediateFinalizeClimbs` | apps/api/services/sale_contribute_service.py:380-419 | neither is such a finalization |
| `SaleCounterexamples.RefundOverwritesClaim` | apps/api/services/sale_contribute_service.py:583-609 | the condition is needed: a reachable run in which a refund overwrites a claimed contribution |
| `SaleTheorems.StepSolvencyIff` | apps/api/services/sale_contribute_service.py:399-419 | a step keeps refunds and withdrawals apart if and only if it is not a finalization that finalizes a sale with a refund made or under way, or fails one that money was withdrawn from |
| `SaleTheorems.CrossingIsStale` | apps/api/services/sale_contribute_service.py:399-419 | only a finalization that no longer finds its sale active can do that |
| `SaleTheorems.Solvent` | apps/api/api/v1/endpoints/issuer_withdrawals.py:119-196 | over any interleaving without such a finalization, withdrawn plus refunded never exceeds raised |
| `SaleCounterexamples.CrossingBreaksSolvency` | apps/api/services/sale_contribute_service.py:380-419 | the condition is needed: two finalizations that both read ACTIVE let the issuer withdraw what was already refunded |
| `SaleCounterexamples.OpenSaleIsValid` | apps/api/schemas/sale.py:36-73 | the sale of these runs is one that can be created |
| `SaleTheorems.FinalizeLeavesUnseenPending` | apps/api/services/sale_contribute_service.py:409-415 | after a finalization the pending rows of the sale are exactly those its bulk update did not see |
| `SaleCounterexamples.LateCommitStrandsContribution` | apps/api/services/sale_contribute_service.py:406-419 | a reachable finalized sale with a contribution that can be neither claimed nor refunded |
| `SaleTheorems.StatusesPartition` | apps/api/services/sale_contribute_service.py:257-277 | pending, confirmed, claimed and refunded amounts sum to all amounts of the sale |
| `SaleProtocol.StepKeepsInv` | apps/api/services/sale_contribute_service.py:106-293 | each single step of each session keeps the whole invariant: ledger, row locks, and what every other session still relies on |
| `SaleProtocol.ReachableInv` | apps/api/services/sale_contribute_service.py:106-293 | so it holds after every run from an empty ledger |
| `SaleProtocol.LockedSaleUntouched` | apps/api/services/sale_contribute_service.py:119-128 | while a session holds the sale row no step of another session or withdrawal writes it or takes it |
| `SaleProtocol.MarkExtends` | apps/api/services/sale_contribute_service.py:484-490 | marking rows never touches hash, sale, amount, user or phase |
| `SaleLedger.SplittingGainsNothing` | apps/api/services/sale_contribute_service.py:207-274 | a second contribution to a phase is accepted exactly when the two together would have been accepted as one, unless it is below the minimum: splitting gets neither around nor into the limits |
| `SaleLedger.ValidateAccepts` | apps/api/services/sale_contribute_service.py:141-277 | the row of an accepted request, field by field: amount and wallet of the on-chain event, or else of the request; tokens that times the price give the amount, unless the event says how many; the phase taken, and each limit it respects |
| `SaleLedger.AcceptedExactlyWhenAdmitted` | apps/api/services/sale_contribute_service.py:129-274 | a request is accepted if and only if the sale is active and the phase it goes to admits it under whitelist, minimum, maximum, price and hard cap: nothing is refused beyond those |
| `SaleLedger.RefusedForTheFirstReason` | apps/api/services/sale_contribute_service.py:129-274 | a refusal names the first of these that fails: the sale, its status, the phase, then the limits in order |
| `SaleLedger.ChosenPhase` | apps/api/services/sale_contribute_service.py:147-163 | the phase that is chosen is the one the event names by index, or else the first in the list whose dates include the present |
| `SaleLedger.UserSumMeans` | apps/api/services/sale_contribute_service.py:231-247 | the sum behind the maximum adds up exactly the rows of that user, sale and phase, whatever their status |
| `SaleLedger.SaleSumMeans` | apps/api/services/sale_contribute_service.py:257-277 | the sums behind the ledger theorems add up exactly the rows of that sale in those statuses |
| `SaleLedger.FirstActiveIsFirst` | apps/api/services/sale_contribute_service.py:154-158 | the phase taken is the first active one in list order |
| `SaleLedger.FindTx` | apps/api/services/sale_contribute_service.py:107-111 | finds a row of that hash if and only if there is one |
| `SaleService.SaleContributeService.FindActivePhase` | apps/api/services/sale_contribute_service.py:155-158 | the loop computes the first active phase |
| `SaleService.SaleContributeService.Contribute` | apps/api/services/sale_contribute_service.py:27-296 | one uninterrupted call: recorded exactly when request, user, hash, sale and phase allow it; then one row is appended as asked and the raised total grows by its amount; otherwise nothing changes and the refusal names the first reason |
| `SaleService.ContributeMeans` | apps/api/services/sale_contribute_service.py:27-296 | the same of the transaction as a function |
| `SaleService.SaleContributeService.FinalizeSale` | apps/api/services/sale_contribute_service.py:380-419 | one uninterrupted finalization, on fields: only the issuer, only while active; finalized if and only if raised >= soft cap, and then exactly the pending rows of that sale become confirmed |
| `SaleService.SaleContributeService.MarkEach` | apps/api/services/sale_contribute_service.py:486-490 | the loop over the selected rows rewrites exactly those |
| `SaleService.SaleContributeService.ClaimTokens` | apps/api/services/sale_contribute_service.py:459-494 | one uninterrupted claim, on fields: exactly the confirmed rows of that user in that sale become claimed, with the time and the given hash, all others stay; nothing to claim if and only if there is no such row |
| `SaleService.SaleContributeService.ClaimRefund` | apps/api/services/sale_contribute_service.py:566-612 | one uninterrupted refund, on fields: exactly the pending and confirmed rows of that user in that sale become refunded, only in a failed or refunding sale; nothing to refund if and only if there is no such row |
| `SaleService.SelectList` | apps/api/services/sale_contribute_service.py:460-466 | the query result, each selected row once |
| `SaleService.ContributeIsSerial` | apps/api/services/sale_contribute_service.py:27-296 | the method is the run of the protocol in which the steps of the session follow each other directly |
| `SaleService.FinalizeIsSerial` | apps/api/services/sale_contribute_service.py:380-419 | the same for finalization |
| `SaleService.ClaimIsSerial` | apps/api/services/sale_contribute_service.py:459-494 | the same for claims |
| `SaleService.RefundIsSerial` | apps/api/services/sale_contribute_service.py:566-612 | the same for refunds |
| `SalePhases.AcceptsExactlyNonOverlapping` | apps/api/schemas/sale.py:65-72 | given proper phases, sorting and comparing neighbours accepts exactly the lists, in any order, whose phases are pairwise apart |
| `SalePhases.SortOrders` | apps/api/schemas/sale.py:66-66 | the insertion sort that stands for sorted() puts the phases in start order |
| `SalePhases.NeighboursSuffice` | apps/api/schemas/sale.py:67-72 | among proper phases in start order, comparing neighbours is comparing all pairs |
| `SalePhases.AcceptedSale` | apps/api/schemas/sale.py:21-73 | a request is accepted if and only if its caps are positive and ordered, each phase is valid, and the phases are pairwise apart; a refusal for caps or overlap is deserved |
| `SalePhases.ActiveTogether` | apps/api/models/sale_phase.py:97-109 | two phases of an accepted sale are active together only at a shared boundary, and never a third |
| `SalePhases.PickedPhaseIsUnique` | apps/api/services/sale_contribute_service.py:154-158 | away from a boundary the phase contribute picks does not depend on list order |
| `Withdrawals.PayoutsCovered` | apps/api/api/v1/endpoints/issuer_withdrawals.py:138-196 | truncated payouts sum to at most floor(withdrawn * 10^6) <= floor(raised * 10^6); if all transfer on-chain the record exceeds what was paid by less than one micro-USDC a withdrawal |
| `Withdrawals.UnpaidBounds` | apps/api/api/v1/endpoints/issuer_withdrawals.py:168-195 | the same from any starting amount, as the invariant of a run |
| `Withdrawals.IssuerWithdrawals.ExecuteWithdrawal` | apps/api/api/v1/endpoints/issuer_withdrawals.py:119-203 | one call, on fields: paid if and only if the issuer asks a positive amount within what is left of its own finalized sale and the transfer succeeds; whole micro-USDC; the record grows by the amount |
| `WebhookQueue.Fairness` | apps/api/workers/tasks.py:314-345 | a pending event with k older pending ones is processed or dead-lettered within 3 * (k / 50 + 1) sweeps, whatever arrives and whichever calls fail, if no event at or before it is replayed |
| `WebhookQueue.FairnessIsExact` | apps/api/workers/tasks.py:314-345 | for every k the bound is met with equality: one sweep earlier the event can still be pending |
| `WebhookQueue.ThreeSweepsAdvance` | apps/api/workers/tasks.py:315-320 | three sweeps clear the fifty oldest |
| `WebhookQueue.FrontResolves` | apps/api/workers/tasks.py:323-343 | an event among the first fifty is resolved once its attempts are used up |
| `WebhookQueue.SweepReducesDebt` | apps/api/workers/tasks.py:323-343 | every sweep that finds a pending event strictly reduces the attempts still owed |
| `WebhookQueue.ReachableRetryable` | apps/api/workers/tasks.py:324-343 | every reachable pending event has fewer than three attempts |
| `WebhookQueue.StepRetryable` | apps/api/api/v1/endpoints/admin_operations.py:140-147 | also across deliveries and replays |
| `WebhookQueue.Batch` | apps/api/workers/tasks.py:315-321 | the query returns exactly the fifty oldest pending events, oldest first |
| `WebhookQueue.WebhookTask.TryEvent` | apps/api/workers/tasks.py:324-343 | the loop body on one event, on fields: processed with the time on success, dead-lettered at the third failure, else one attempt more |
| `WebhookQueue.WebhookTask.ProcessWebhooks` | apps/api/workers/tasks.py:300-347 | the sweep: what becomes of every event, on fields, and a count of exactly the events that became processed |
| `WebhookQueue.DeadLetterMeansThreeFailures` | apps/api/workers/tasks.py:323-343 | over runs: an event is dead-lettered only when handling it has failed three times since it was delivered or last replayed, and a pending one counts its failures exactly |
| `WebhookQueue.SuccessIsProcessed` | apps/api/workers/tasks.py:329-333 | an event in the batch whose handler succeeds is processed, however often it failed before |
| `WebhookQueue.ProcessedStays` | apps/api/workers/tasks.py:315-320 | a processed event stays as it is over any run |
| `WebhookQueue.WebhookTask.Receive` | apps/api/api/v1/endpoints/kyc.py:125-156 | a delivery is stored processed, or pending with one attempt used |
| `WebhookQueue.WebhookTask.ReplayWebhook` | apps/api/api/v1/endpoints/admin_operations.py:127-148 | an unprocessed event becomes pending with no attempts used; a processed one is left alone |
| `RateLimit.WindowBound` | packages/common/middleware/rate_limit.py:89-114 | over any run every half-open window holds at most limit + burst admissions |
| `RateLimit.RemainingIsExact` | packages/common/middleware/rate_limit.py:107-114 | the remaining count returned is what is left of the allowance in the window ending now |
| `RateLimit.CleanupHarmlessIff` | packages/common/middleware/rate_limit.py:116-125 | forgetting stale lists can change no later decision if and only if max_age >= window |
| `RateLimit.ChargedLikeHistory` | packages/common/middleware/rate_limit.py:100-114 | deciding on the pruned list is deciding on the full history, and leaves the recent part of the new history |
| `RateLimit.AgreesPrunes` | packages/common/middleware/rate_limit.py:103-105 | the pruned list pruned again is the recent part of the full history |
| `RateLimit.AgreesForgotten` | packages/common/middleware/rate_limit.py:122-125 | a stale list may be forgotten |
| `RecentTimes.Prune` | packages/common/middleware/rate_limit.py:104-104 | the comprehension keeps exactly the recent entries |
| `RecentTimes.RecentIsSuffix` | packages/common/middleware/rate_limit.py:104-104 | in a sorted list they are a suffix |
| `RateLimit.SlidingWindowCounter.IsAllowed` | packages/common/middleware/rate_limit.py:89-114 | reply and new state in terms of the full admission history; other keys untouched |
| `RateLimit.SlidingWindowCounter.Cleanup` | packages/common/middleware/rate_limit.py:116-125 | drops exactly the stale keys, and keeps the agreement with the full history when max_age >= window |
| `RateLimitMiddleware.FirstMatchWins` | packages/common/middleware/rate_limit.py:58-70 | the first matching pattern gives the limit |
| `RateLimitMiddleware.OneLimitPerKey` | packages/common/middleware/rate_limit.py:192-196 | with client keys that contain no colon, as the hashed ones do, each rate key belongs to one client and one limit |
| `RateLimitMiddleware.BudgetsOfClient` | packages/common/middleware/rate_limit.py:192-196 | the paths of a client at the default limit share one budget, every other path has its own |
| `RateLimitMiddleware.CustomKeysMayCollide` | packages/common/middleware/rate_limit.py:162-165 | with a colon in a client key two limits can meet on one key |
| `RateLimitMiddleware.Middleware.Dispatch` | packages/common/middleware/rate_limit.py:181-202 | a request is served or refused as the full history of its key calls for |
| `RateLimitMiddleware.Middleware.WindowsBounded` | packages/common/middleware/rate_limit.py:181-202 | every one-minute window of a client on a path holds at most that limit plus burst |
| `EventListener.RowMovesOnce` | apps/api/services/event_listener_service.py:301-325 | no log moves a row that is claimed or refunded |
| `EventListener.LastFinalizationDecides` | apps/api/services/event_listener_service.py:327-337 | the last finalization log decides the sale status whatever it was |
| `EventListener.CursorCoversBlocks` | apps/api/services/event_listener_service.py:142-172 | every block in (c0, cursor] is scanned at least once, exactly once if all cursor writes succeed, and nothing at or below c0 |
| `EventListener.RangesAreBounded` | apps/api/services/event_listener_service.py:147-150 | each range belongs to one poll of the run: it starts after the cursor that poll found and passes neither the head that poll saw nor fifty blocks |
| `EventListener.CatchUpTime` | apps/api/services/event_listener_service.py:142-172 | against a fixed head the cursor has caught up if and only if ceil((head - c0) / 50) polls were stored |
| `EventListener.EventListenerService.HandleSaleEvent` | apps/api/services/event_listener_service.py:270-337 | the effect of one log, on fields: a claim log makes the confirmed rows of its wallet claimed, a refund log the pending and confirmed ones refunded, with its hash; a finalization log sets the status of its sale |
| `EventListener.EventListenerService.UpdateRows` | apps/api/services/event_listener_service.py:308-323 | the loops over the selected contributions rewrite exactly those: to claimed for a claim log, to refunded for a refund log |
| `EventListener.EventListenerService.HandleAll` | apps/api/services/event_listener_service.py:214-226 | the loop over the logs of one event handles them in order up to the first exception |
| `EventListener.EventListenerService.PollEvents` | apps/api/services/event_listener_service.py:142-172 | one poll: new tables and count, and the cursor fifty blocks on or at the head if it could be stored |
| `EventListener.LogReachesOtherSales` | apps/api/services/event_listener_service.py:301-325 | a claim or refund log of one sale changes contributions to other sales exactly when its wallet has open ones there; the contract that logged it plays no part |
| `EventListener.NothingSkippedIff` | apps/api/services/event_listener_service.py:214-226 | a poll handles every log of its range if and only if no swallowed exception cuts a loop short; the cursor passes the range in either case |
| `EventListener.EventListenerService.PollContract` | apps/api/services/event_listener_service.py:207-268 | one contract, with the exceptions it swallows: new tables and count |
| `EventListener.EventListenerService.PollAll` | apps/api/services/event_listener_service.py:156-168 | the loops over sale, token and fraction contracts |
| `ListenerReplay.RunIsCleanPassIff` | apps/api/services/event_listener_service.py:142-172 | a run of polls of which some crashed or could not store the cursor ends with the tables of one pass over the blocks up to the cursor if and only if no attempt let a row be overtaken |
| `ListenerReplay.RowReplayIff` | apps/api/services/event_listener_service.py:270-337 | replaying a range that has grown leaves a row as one pass does if and only if the first log that ends it is not among the added blocks when an earlier one has been handled |
| `ListenerReplay.OvertakenInOneSale` | apps/api/services/event_listener_service.py:214-222 | with one sale that is exactly a confirmed row whose wallet has a refund log but no claim log in the first blocks and a claim log in the added ones |
| `ListenerReplay.CrashAndReplay` | apps/api/services/event_listener_service.py:270-337 | stopping after any log of a range and handling the same range again gives the state of one clean pass |
| `ListenerReplay.RepeatedCrashes` | apps/api/services/event_listener_service.py:270-337 | so do any number of crashes and replays |
| `ListenerReplay.FullRangeRepeats` | apps/api/services/event_listener_service.py:144-150 | once fifty blocks are there a repeated poll scans the same range |
| `ListenerReplay.RangePart` | apps/api/services/event_listener_service.py:150-168 | a shorter range from the same block has the logs of the longer one up to its end, in the same order |
| `ListenerReplay.PollIsVisit` | apps/api/services/event_listener_service.py:142-172 | a poll without swallowed exceptions is a visit of these runs |
| `ListenerReplay.EveryRunIsRounds` | apps/api/services/event_listener_service.py:142-172 | every run that ends with a stored cursor has this shape |
| `ListenerReplay.LongerReplayMayDiffer` | apps/api/services/event_listener_service.py:207-226 | the condition is needed: a run that ends refunded where one pass ends claimed |
| `ListenerReplay.LogsOfOneSale` | apps/api/services/event_listener_service.py:214-222 | the order in which one poll handles the four kinds of log |
| `ListenerReplay.PolledLogs` | apps/api/services/event_listener_service.py:156-168 | the logs of a poll are exactly the logs on chain of the watched contracts and events within the range |
| `ListenerReplay.FirstEndingMeans` | apps/api/services/event_listener_service.py:301-325 | over any logs a row that moves is claimed if the first log that ends it is a claim and refunded if that is a refund, with the hash of that log and every other field unchanged |
| `Vesting.ClaimsTakeMaximum` | apps/api/models/vesting_schedule.py:96-121 | after any claims at any times, claimed_amount is the maximum of its start and the vested amount at each claim |
| `Vesting.ClaimIsMax` | apps/api/models/vesting_schedule.py:96-121 | one claim takes the maximum of what was claimed and what has vested |
| `Vesting.ClaimOrderIrrelevant` | apps/api/services/vesting_service.py:179-190 | the outcome does not depend on order or repetition |
| `Vesting.ClaimsStayWithinTotal` | apps/api/models/vesting_schedule.py:96-121 | claimed_amount never falls, never exceeds the total, and is the total after a claim once cliff and vesting end have passed |
| `Vesting.OnlyLatestClaimMatters` | apps/api/services/vesting_service.py:179-190 | at non-decreasing times a run of claims ends where its last claim alone would |
| `Vesting.TranchesSumToGrowth` | apps/api/services/vesting_service.py:181-195 | the tranches returned sum to the growth of claimed_amount |
| `Vesting.VestedBounds` | apps/api/models/vesting_schedule.py:112-121 | what has vested lies between zero and the total |
| `Vesting.VestedMonotone` | apps/api/models/vesting_schedule.py:112-121 | it never shrinks as time passes |
| `Vesting.VestedIsLinear` | apps/api/models/vesting_schedule.py:112-121 | between cliff and end the vested share, before rounding, is to the total as the time since the cliff is to the time from cliff to end |
| `Vesting.ZeroDurationUnreachable` | apps/api/models/vesting_schedule.py:109-117 | the guard on a zero duration is unreachable |
| `Vesting.VestingSchedule.ClaimTranche` | apps/api/services/vesting_service.py:164-195 | one call: reply and new claimed_amount, the maximum of the old one and the linear share; nothing before the cliff, the total from the end on |
| `TokenBucket.GrantsBounded` | packages/common/utils/base_client.py:27-43 | n <= R + 2 R (c - start) for the n-th grant completing at c |
| `TokenBucket.FactorTwoIsExact` | packages/common/utils/base_client.py:36-41 | met with equality at every whole rate by runs of any length, since time slept is credited again |
| `TokenBucket.GrantsArePaidFor` | packages/common/utils/base_client.py:30-43 | every grant is paid for by the initial burst, credited time or slept time |
| `TokenBucket.LevelBounds` | packages/common/utils/base_client.py:32-43 | the level stays in [0, R] |
| `TokenBucket.CreditIsElapsed` | packages/common/utils/base_client.py:31-36 | the refills credit exactly the time up to last_update |
| `TokenBucket.SleepsFitInElapsedTime` | packages/common/utils/base_client.py:29-40 | sleeps never overlap |
| `TokenBucket.RateLimiter.TakeOrWait` | packages/common/utils/base_client.py:30-43 | refill for the time passed up to the cap, then take a token or wait exactly as long as the missing part takes |
| `TokenBucket.RateLimiter.Acquire` | packages/common/utils/base_client.py:27-43 | one acquire: new state and completion time |
| `TokenBucket.RateLimiter.RateIsLimited` | packages/common/utils/base_client.py:27-43 | the bounds hold of every reachable limiter |
| `CircuitBreaker.ListIsWindow` | apps/api/core/web3_provider.py:40-60 | the pruned list is the failures since the last success within a minute of the latest, and CLOSED means fewer than five |
| `CircuitBreaker.TripsExactlyAtFive` | apps/api/core/web3_provider.py:47-49 | a failure trips the breaker if and only if that window then holds five |
| `CircuitBreaker.NoRequestForThirtySeconds` | apps/api/core/web3_provider.py:62-72 | after a trip no request is allowed for thirty seconds unless a success is recorded |
| `CircuitBreaker.RefusesAfterTrip` | apps/api/core/web3_provider.py:62-72 | whatever else fails meanwhile |
| `CircuitBreaker.FailedProbe` | apps/api/core/web3_provider.py:74-75 | requests stay allowed after a failed probe if and only if fewer than five failures lie in the last minute |
| `CircuitBreaker.ProbeNeedNotReopen` | apps/api/core/web3_provider.py:74-75 | a failed probe that leaves the breaker half-open |
| `CircuitBreaker.Circuit.OnFailure` | apps/api/core/web3_provider.py:40-54 | one recorded failure: open since now if and only if five are left in the window, else only the list changes |
| `CircuitBreaker.Circuit.OnSuccess` | apps/api/core/web3_provider.py:56-60 | one recorded success: closed, with an empty list |
| `CircuitBreaker.Circuit.AllowRequest` | apps/api/core/web3_provider.py:62-75 | one question: refused exactly while open for less than thirty seconds; after that half-open |
| `CircuitBreaker.Circuit.GetProvider` | apps/api/core/web3_provider.py:90-123 | what the driver records, and which provider it returns |
| `TokenBlacklist.AuthService.DecodeToken` | packages/common/services/auth_service.py:150-172 | answers as if the blacklist never forgot: accepted if and only if signed here, never blacklisted, not expired |
| `TokenBlacklist.AuthService.RefreshTokens` | apps/api/services/auth_service.py:137-168 | each refresh token is exchanged at most once and is rejected from then on; the new one is usable if and only if it is neither the very string just rotated nor one blacklisted before |
| `TokenBlacklist.DeadTokens` | apps/api/services/auth_service.py:160-168 | the two ways in which a rotation returns a token that is already blacklisted |
| `TokenBlacklist.AuthService.Logout` | apps/api/services/auth_service.py:193-211 | both tokens are blacklisted for good, each entry for the configured time |
| `TokenBlacklist.AuthService.Add` | packages/common/services/auth_service.py:52-60 | an entry that lives for the configured time keeps the agreement with a permanent blacklist |
| `TokenBlacklist.AuthService.Contains` | packages/common/services/auth_service.py:62-69 | an entry counts until it lapses |
| `TokenBlacklist.AuthService.Issue` | packages/common/services/auth_service.py:100-148 | a token of that subject and kind that expires after the lifetime of its kind, counted from the current second |
| `TokenBlacklist.OutlastsIff` | packages/common/services/auth_service.py:22-22 | an entry outlasts every token of a lifetime if and only if it lives one second longer |
| `TokenBlacklist.TtlCoversDefaults` | packages/common/services/auth_service.py:22-22 | so the configured time always covers refresh tokens, and access tokens exactly when they outlive refresh tokens by less than a minute |
| `LoginLockout.WrongPasswordsBounded` | apps/api/api/v1/endpoints/auth.py:97-111 | in an interval of length T at most 5 + floor(T / 15 min) wrong passwords are compared |
| `LoginLockout.BoundIsAttained` | apps/api/services/auth_service.py:228-232 | and that many can be |
| `LoginLockout.LockReaches` | apps/api/services/auth_service.py:224-233 | from the fifth on, each comparison locks the account for another fifteen minutes |
| `LoginLockout.LockedOnlyAfterFive` | apps/api/services/auth_service.py:213-232 | an account is locked only after five comparisons and less than fifteen minutes after a wrong one |
| `LoginLockout.User.RecordFailedLogin` | apps/api/services/auth_service.py:224-233 | the counter grows by one, and from five on the account is locked for fifteen minutes |
| `LoginLockout.User.TryLogin` | apps/api/api/v1/endpoints/auth.py:97-111 | one login of an existing account: refused unseen exactly while locked; a correct password clears counter and lock, a wrong one counts |
| `Slugs.SlugifyIsOnePass` | apps/api/services/token_service.py:18-24 | the chain of substitutions is one pass that keeps letters and digits in order with a dash where a separator stood |
| `Slugs.SlugsAreFixpoints` | apps/api/services/token_service.py:18-24 | the result is in normal form; the texts left alone are exactly the normal forms; hence idempotent |
| `Slugs.WordsAreJoined` | apps/api/services/token_service.py:20-23 | white space, underscores and dashes between two words become one dash; other punctuation disappears |
| `Slugs.CaseIsFolded` | apps/api/services/token_service.py:20-20 | case does not matter |
| `Slugs.CandidatesDiffer` | apps/api/services/token_service.py:43-44 | numbered candidates are all different |
| `Slugs.FewTaken` | apps/api/services/token_service.py:38-44 | no more candidates are taken in a row than there are slugs |
| `Slugs.TokenService.GenerateUniqueSlug` | apps/api/services/token_service.py:34-45 | ends within n + 1 probes for n taken slugs, with the untaken slug of least suffix |
| `Slugs.NumberedSlugs` | apps/api/services/token_service.py:35-43 | a numbered slug is in normal form unless the name has no letter or digit |
| `TokenFormat.PrintsFloor` | apps/admin/src/lib/utils.ts:40-57 | digits read back as the amount rounded down to the last printed place, exactly at full precision; commas and point stand where they should |
| `TokenFormat.LosslessIffExactDivisor` | apps/admin/src/lib/utils.ts:47-49 | at full precision every amount reads back exactly if and only if the divisor is the power of ten |
| `TokenFormat.StraySign` | apps/admin/src/lib/utils.ts:48-56 | exactly which negative amounts print a sign inside the fraction |
| `TokenFormat.GroupedInGroups` | apps/admin/src/lib/utils.ts:56-56 | the whole part has a comma at every fourth place from the right |
| `Wallets.OnePrimaryEach` | apps/api/services/wallet_service.py:40-135 | in every sequential run no address is stored twice and each user with wallets has exactly one primary: the one last made primary, or else the first linked |
| `Wallets.NeverWithoutWalletAgain` | apps/api/services/wallet_service.py:105-116 | a user who has linked a wallet always has one |
| `Wallets.SetPrimaryMovesPrimary` | apps/api/services/wallet_service.py:122-133 | making a wallet primary moves the flag and leaves other users alone |
| `Wallets.UnlinkKeepsPrimary` | apps/api/services/wallet_service.py:105-117 | unlinking never removes the primary wallet |
| `Wallets.WalletService.LinkWallet` | apps/api/services/wallet_service.py:40-96 | one call: linked if and only if signed, valid, screened and not linked anywhere; the first wallet of a user is primary; the first check that fails gives the refusal |
| `Wallets.WalletService.ListWallets` | apps/api/services/wallet_service.py:34-38 | the rows of the user, in order |
| `Wallets.WalletService.UnlinkWallet` | apps/api/services/wallet_service.py:98-117 | one call: exactly that row of the user is removed, unless it is missing or primary |
| `Wallets.WalletService.SetPrimaryWallet` | apps/api/services/wallet_service.py:119-135 | one call: of the rows of the user exactly the chosen one is primary, others are untouched; a failed call leaves the committed table as it was |

## Left out

- PrintsFloor: speaks of non-negative amounts only, as on-chain amounts are; `StraySign` says what happens to negative ones. The en-US locale is assumed, and parsing the amount from a string is not modelled.
- SlugifyIsOnePass: speaks of ASCII text; for other text `\w`, `\s` and `lower` follow Unicode tables.
- AuthService.RefreshTokens: runs without interruption; overlapping calls with one token, and the fallback from Redis to the in-memory set, are not modelled.
- AuthService.DecodeToken: the access lifetime is less than the refresh lifetime plus a minute, as the defaults are; `TtlCoversDefaults` shows that this is needed.
- Solvent: leaves out the listener, whose `SaleFinalized` handler sets the sale status whatever it was.
- ClaimsStayWithinTotal: rounds by any monotone function that fixes zero and the total; the 28-digit rounding of the two Decimal operations is not modelled as such.
- PayoutsCovered: amounts are exact; the column scale of `total_withdrawn`, amounts that do not parse, and a transfer that is mined although its receipt never arrived are not modelled.
- AcceptedSale: leaves out the bounds on name, price and allocation of a phase, and mixed naive and zoned times.
- Fairness: sweeps do not overlap and are not cut short by the job timeout; events arrive in `created_at` order.
- RunIsCleanPassIff: the head never falls back, and the run swallows no exception; `NothingSkippedIff` says what those lose. The cursor that falls back to a hundred blocks before the head when it cannot be read is not modelled. A contract address belongs to one sale.
- GrantsBounded: an acquire cancelled in its sleep is not modelled.
- OnePrimaryEach: requests run one at a time; overlapping requests are not modelled.
- WrongPasswordsBounded: logins run one at a time; overlapping ones are not modelled.
- Row locks on contributions: a claim or refund may commit between any two steps of another, which is more than the database allows for rows written at once.
- Activation of a sale: no service in the repository does it, so a run starts from sales in any status with nothing raised. Allocations made outside the sale are left out.
- MFA, registration, password reset and cookies.
- `task_index_contribution` and `task_release_vesting`, which write outside the status order and read fields that the models do not define.
- Cryptography, RPC calls, receipts, event decoding and the contracts.
- Email, notifications, reports, pagination, caching, the admin and launchpad pages.
