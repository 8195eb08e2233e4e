# Verification of the kokoro services

A Dafny model of the parts of the kokoro services whose correctness is hard to see from
the code: the credit engine, the payment saga on top of it, and a group of self-contained
state machines (rate limiters, refresh-token rotation, MCP revision snapshots, the skill
upload loop, canonical texts, admin command receipts, ledger paging).

`dafny verify dfyconfig.toml` checks everything.

## How it is built

**Credit engine.** `CreditEngine` holds the tables of `kokoro-credit` (accounts, holds,
ledger, usage rows). `Exec` is the meaning of one repository call, that is, of one database
transaction; class `CreditRepository` does the same in place, method by method, and each
method is proved to compute `Exec`. The theorems are about `Exec` and `Run`, the state after
any sequence of calls: the reachable-state invariant (`CreditInvariants`), conservation
(`CreditConservation`), repeated calls and two-phase spending (`CreditReplay`), lazy against
eager refresh (`LazyRefresh`, on the calendar of `ResetBoundary`). `HoldContention` splits
capture, release and sweep into their statements (read, conditional update, bucket return,
entry and commit) and reset and deletion into read and write, with row locks and the
repeatable reads that are MySQL's default, and lets any number of workers interleave.
`HoldRaces` says what that amounts to: which laws hold of every schedule, that schedules with
undisturbed resets and deletions are sequential runs of the atomic calls, and exactly when
the ledger and deletion laws survive the others. `HoldRaceInputs` exhibits those that break
them. `HoldProgress` is the other half: a call nobody blocks is the atomic call, and some
worker can always go on. `CreditAnswers` says of each call, from the rows before it alone,
exactly when it goes through, which error it gives otherwise and what it writes.
`UsageQuota` adds priced holds, settlements and quotas.

**Payment saga.** `PaymentSaga` is a machine of workers with program counters; a client call
into the credit service may be lost before it takes effect, after the account was ensured,
or after the posting, and a worker may crash anywhere. Its credit tables are those of
`CreditEngine`, so exactly-once rests on the real unique keys. `PaymentSafety` proves the
invariant, `PaymentResults` states what it means for orders, ledger and refunds.
`PaymentService` is the in-place service, and `PaymentRuns` shows that a worker left to run
does what the service does. `PaymentRecovery` says when that succeeds: which orders a retry,
a refund or a sweep closes, and which events end processed.

**State machines.** `RateLimiter` and `RedisRateLimiter`, `RefreshTokens`, `McpRevisions`,
`SkillUploads` (with `SkillCandidates`), `AdminReceipts` (with `ReceiptResults` and
`IsoTime`), `LedgerPaging` (with `Base64Url`) each give the state, the steps, an invariant
of every run and the results. `RefreshAnswers`, `McpAnswers`, `SkillAnswers`,
`AdminEffects` and `AdminAnswers` add what each single step answers and writes, in terms of
the tables before it.
`JsonText`, `Canonical` and `StableJson` model JavaScript strings as UTF-16 units, JSON text
(section 7 of RFC 8259) and the three canonical serialisers; MCP fingerprints and package
digests are these texts themselves, SHA-256 being taken as injective. `JsonForms` gives the
two hashed texts letter by letter.

## What the proofs found

- A capture does not refresh the account first, so the balance it records can lag behind
  what an eagerly refreshed account would show. `CaptureSnapshotAgrees` says exactly when
  the two agree. Nothing else a caller sees depends on when refreshes happen.
- A reset and a deletion read the account without a lock and write later. A hold placed in
  between leaves a deleted account with an active hold, or a ledger that sums to 50 where
  110 are there (`HoldRaceInputs`). `RowWriteIsAtomic` gives the exact condition for one
  write, `LedgerExplainsBalanceUnlessDrift` and `DeletedIdleUnlessLate` for whole schedules.
- Two captures of one hold under one key that overlap, and two overlapping releases: the
  loser answers "hold not active" where a repeat one after the other would have been
  answered like the first (`OverlappingRepeatIsRefused`; `LoserAnswersAtomically` says that
  there is no third case).
- `stableJson` loses members named `__proto__`, because it copies by plain assignment, and
  prints a number too large for a double as null: `{"a":1e999}` is taken for `{"a":null}`
  (`ProtoMemberIsLost`, `OverflowIsTakenForNull`). It is exact up to member order on every
  payload with neither, and in general exact on what remains (`StableExact`).
- The upload service files zip entries by plain assignment as well: the content of an entry
  `pkg/__proto__` is lost (`ProtoEntryIsLost`). `CandidatesPartition` shows that nothing
  else is.
- The local package store writes in place and leaves a path that exists alone. A write that
  is stopped midway leaves a torn package, and the next upload of the same files answers
  `published` over it (`TornUploadIsPublished`). `WholeExactly` and `PublishedPackage` say
  exactly when stored packages are whole.
- The usage quota is checked before the idempotency key, so a repeated hold call can be
  refused although its hold exists (`RepeatedHoldNeedsRoom` says exactly when).
- Revoking a namespace after a replay does not reach a rotation that had already consumed
  its token: that worker still mints a live one (`DelayedMintOutlivesTheReplay`). Without a
  new login that is the only way: a token of the namespace can live again if and only if
  some worker was between consuming and minting at the replay and had begun less than a
  token's lifetime before it (`ReplayEndsTheNamespace`).
- The two limiters differ by one: twice the limit minus one in memory, twice the limit on
  aligned Redis windows. Both bounds are attained for every limit and window, by requests
  for one address. In memory a limit below 1 counts as 1: it still lets one request per
  window through.
- `balanceAfter` has no uniform meaning: grants and resets record the permanent bucket,
  spends and captures the sum of the three, which differ exactly while time credit is left
  (`BalanceAfterMeans`).
- A confirmation whose plan was deleted or whose team's account was closed meanwhile fails
  on every retry, even when its grant is already posted; otherwise one retry recovers it
  (`ConfirmRecovers`; `RefundRecovers` is the same for refunds).
- The skill repository reads a document without a revision as revision 0, and its
  conditional write then matches nothing. The declared record type has no such documents,
  but the code provides for them: `UnversionedStays` shows that no upload ever rewrites one,
  `PublishedExactly` that nothing else stops an accepted, changed item within the quota.

## Model

| member | source | states |
|---|---|---|
| CreditBuckets.DebitInOrder | kokoro-credit/src/domain/buckets.ts:39-50 | counting `remaining` down bucket by bucket yields the one greedy split: it takes what it reports, never overdraws, and touches a bucket only when all earlier-expiring ones are drained |
| CreditBuckets.DebitIsTheGreedySplit | kokoro-credit/src/domain/buckets.ts:39-50 | the greedy promise has exactly one solution on non-negative buckets, the debit |
| CreditBuckets.DebitSparesLastingCredit | kokoro-credit/src/domain/buckets.ts:10-11 | among all ways to pay the same total the debit keeps the most permanent credit, then the most period credit |
| CreditBuckets.DebitOfReservation | kokoro-credit/src/domain/buckets.ts:39-50 | spending x out of a reservation of a >= x takes from each bucket what spending x directly takes |
| CreditBuckets.DebitIsAdditive | kokoro-credit/src/domain/buckets.ts:39-50 | two debits in a row equal one debit of the sum, shortfall included |
| CreditBuckets.CreditBackConserves | kokoro-credit/src/domain/buckets.ts:72-83 | a give-back loses exactly the excess over the caps, never permanent credit |
| CreditBuckets.DebitThenCreditBack | kokoro-credit/src/domain/buckets.ts:39-83 | taking out and giving back restores the buckets exactly when no time bucket was above its allowance |
| ResetBoundary.DailyBoundaryIsLastMidnight | kokoro-credit/src/domain/reset-boundary.ts:7-9 | going through the UTC calendar yields the last midnight not after the clock |
| ResetBoundary.PeriodBoundaryIsMonthStart | kokoro-credit/src/domain/reset-boundary.ts:11-13 | the period boundary is the opening midnight of a month exactly when the clock lies in that month |
| ResetBoundary.PeriodBoundaryFacts | kokoro-credit/src/domain/reset-boundary.ts:7-17 | a boundary is never after the clock, is its own boundary, and a month boundary is a day boundary |
| ResetBoundary.BoundariesMonotone | kokoro-credit/src/domain/reset-boundary.ts:7-17 | boundaries never go back |
| ResetBoundary.CalendarIsGregorian | kokoro-credit/src/domain/reset-boundary.ts:7-13 | every month of every year starts on the day of the Gregorian calendar, by the day count of ECMA-262 (section 21.4.1.3) |
| CreditEngine.CreditRepository.EnsureAccount | kokoro-credit/src/infrastructure/prisma/prisma-credit-repository.ts:131-159 | finds, reactivates or creates the account; a deleted one is refused |
| CreditEngine.CreditRepository.GrantCredits | kokoro-credit/src/infrastructure/prisma/prisma-credit-repository.ts:161-201 | in place, the grant transaction: a known key answers its entry, otherwise the permanent bucket grows and one entry is appended |
| CreditEngine.CreditRepository.SpendCredits | kokoro-credit/src/infrastructure/prisma/prisma-credit-repository.ts:203-268 | in place, the spend transaction: refresh, greedy debit or refusal, one entry |
| CreditEngine.CreditRepository.ResetBalance | kokoro-credit/src/infrastructure/prisma/prisma-credit-repository.ts:270-314 | in place and undisturbed, the reset of the permanent bucket, refused below the held total |
| CreditEngine.CreditRepository.HoldCredits | kokoro-credit/src/infrastructure/prisma/prisma-credit-repository.ts:316-382 | in place, the hold: refresh, greedy reservation split, held total, one active hold per key |
| CreditEngine.CreditRepository.ApplyBucketReturn | kokoro-credit/src/infrastructure/prisma/prisma-credit-repository.ts:102-129 | returns part of a reservation with caps and releases the whole of it from the held total |
| CreditEngine.CreditRepository.CaptureHold | kokoro-credit/src/infrastructure/prisma/prisma-credit-repository.ts:384-472 | in place, the capture: conditional transition, unused part returned, one entry and one usage row |
| CreditEngine.CreditRepository.ReleaseHold | kokoro-credit/src/infrastructure/prisma/prisma-credit-repository.ts:474-533 | in place, the release: a released hold answers itself, another inactive one is refused |
| CreditEngine.CreditRepository.Refreshed | kokoro-credit/src/infrastructure/prisma/prisma-credit-repository.ts:537-566 | in place, the lazy refresh on read |
| CreditEngine.CreditRepository.ReclaimExpiredHold | kokoro-credit/src/infrastructure/prisma/prisma-credit-repository.ts:589-619 | expires one overdue active hold and returns its reservation, or reports that it did not |
| CreditEngine.CreditRepository.SweepExpiredHolds | kokoro-credit/src/infrastructure/prisma/prisma-credit-repository.ts:570-587 | every overdue hold is expired, no other hold changes, the count is the number of overdue holds, and the result is the run of the single reclaims |
| CreditEngine.CreditRepository.DeleteAccount | kokoro-credit/src/infrastructure/prisma/prisma-credit-repository.ts:682-712 | undisturbed: an account with an active hold is not deleted; deletion is idempotent |
| CreditEngine.CreditRepository.RestoreAccount | kokoro-credit/src/infrastructure/prisma/prisma-credit-repository.ts:714-727 | clears the deletion mark |
| CreditInvariants.StepKeepsInv | kokoro-credit/src/infrastructure/prisma/prisma-credit-repository.ts:99-727 | every repository call keeps the reachable-state invariant |
| CreditInvariants.RunKeepsInv | kokoro-credit/src/infrastructure/prisma/prisma-credit-repository.ts:99-727 | over every run: buckets are never negative, time buckets never exceed their allowance, the held total is the sum of active reservations, a hold's three parts sum to its amount, keys are unique, and deleted accounts stay without active holds |
| CreditInvariants.StepKeepsIdle | kokoro-credit/src/infrastructure/prisma/prisma-credit-repository.ts:682-712 | no single call leaves a deleted account with an active hold |
| CreditInvariants.BalanceAfterMeans | kokoro-credit/src/infrastructure/prisma/prisma-credit-repository.ts:161-472 | a posted entry records all three buckets exactly for spends and captures or when no time credit is left, and the permanent bucket exactly for grants and resets or when no time credit is left |
| CreditInvariants.DeletedAccountHoldsNothing | kokoro-credit/src/infrastructure/prisma/prisma-credit-repository.ts:682-712 | after any calls one after the other a deleted account has no active hold and a zero held total |
| CreditConservation.EveryStepConserves | kokoro-credit/src/infrastructure/prisma/prisma-credit-repository.ts:99-619 | one call moves an account's worth by its ledger amount plus what a refresh added minus what caps destroyed |
| CreditConservation.RunConserves | kokoro-credit/src/infrastructure/prisma/prisma-credit-repository.ts:99-619 | over every run, spendable plus held credit equals the ledger sum plus refresh adjustments minus forfeits |
| CreditConservation.RunConservesPermanent | kokoro-credit/src/infrastructure/prisma/prisma-credit-repository.ts:99-619 | permanent credit, reserved part included, is exact over every run: only ledger amounts move it, and what time buckets paid for is spared |
| CreditConservation.LedgerExplainsBalance | kokoro-credit/src/infrastructure/prisma/prisma-credit-repository.ts:99-619 | with zero allowances, permanent plus held credit is the sum of the ledger after any calls one after the other |
| CreditReplay.SuccessIsRecorded | kokoro-credit/src/infrastructure/prisma/prisma-credit-repository.ts:161-533 | a successful keyed call leaves the row a repeat will find |
| CreditReplay.RepeatIsNoOp | kokoro-credit/src/infrastructure/prisma/prisma-credit-repository.ts:1021-1091 | a repeat of a successful call after any further calls changes nothing and answers the same entry or hold |
| CreditReplay.InsertedRepeatChangesNothing | kokoro-credit/src/infrastructure/prisma/prisma-credit-repository.ts:161-533 | inserting such a repeat anywhere later in a run leaves the final state of the run as it was |
| CreditReplay.HoldThenCaptureIsSpend | kokoro-credit/src/infrastructure/prisma/prisma-credit-repository.ts:316-472 | hold then capture of `actual` leaves the account row and entry of a direct spend of `actual`, whatever else happened to other rows meanwhile |
| CreditReplay.HoldThenReturnIsRefresh | kokoro-credit/src/infrastructure/prisma/prisma-credit-repository.ts:316-382 | hold then release or expiry leaves just the refreshed account |
| CreditAnswers.RefilledIs | kokoro-credit/src/infrastructure/prisma/prisma-credit-repository.ts:67-85 | a refresh sets a time bucket to its allowance, and its watermark to the boundary, exactly when the bucket was last reset before the last UTC midnight or the opening of the month; nothing else of the row moves |
| CreditAnswers.HoldAnswers | kokoro-credit/src/infrastructure/prisma/prisma-credit-repository.ts:316-382 | under a new key a hold goes through exactly when the amount is positive, the account live and active and its refilled buckets cover the amount, whatever is held already and whenever the hold expires; each other case has its error and writes nothing; a hold that goes through moves the amount from the earliest-expiring buckets into the held total and one row |
| CreditAnswers.SpendAnswers | kokoro-credit/src/infrastructure/prisma/prisma-credit-repository.ts:203-268 | a spend under a new key goes through in exactly the same cases, takes the amount greedily and posts one entry with what is left; each other case has its error and writes nothing |
| CreditAnswers.GrantAnswers | kokoro-credit/src/infrastructure/prisma/prisma-credit-repository.ts:161-201 | exactly when a grant goes through, each error, and the one entry and bucket it writes |
| CreditAnswers.ResetAnswers | kokoro-credit/src/infrastructure/prisma/prisma-credit-repository.ts:270-314 | exactly when a reset goes through, the refusal below the held total included, and that its entry posts the difference |
| CreditAnswers.CaptureAnswers | kokoro-credit/src/infrastructure/prisma/prisma-credit-repository.ts:384-472 | a capture under a new key goes through exactly for a positive amount within an active hold; each other case has its error; it charges the amount, gives back the rest of the reservation and drops the whole of it from the held total |
| CreditAnswers.ReleaseAnswers | kokoro-credit/src/infrastructure/prisma/prisma-credit-repository.ts:474-533 | exactly when a release goes through, answers itself or is refused, and what it gives back |
| CreditAnswers.ReclaimAnswers | kokoro-credit/src/infrastructure/prisma/prisma-credit-repository.ts:589-619 | a hold is reclaimed exactly when it is active and past its expiry; otherwise nothing is written |
| CreditAnswers.EnsureAnswers | kokoro-credit/src/infrastructure/prisma/prisma-credit-repository.ts:131-159 | which account row a call finds, reactivates or creates, with what in it, and when it is refused |
| CreditAnswers.DeleteAnswers | kokoro-credit/src/infrastructure/prisma/prisma-credit-repository.ts:682-712 | an account is deleted exactly when it exists and has no active hold; only its mark is written |
| CreditAnswers.RestoreAnswers | kokoro-credit/src/infrastructure/prisma/prisma-credit-repository.ts:714-727 | a deleted account becomes live again with everything else in it as it was |
| LazyRefresh.AccessesCollapse | kokoro-credit/src/infrastructure/prisma/prisma-credit-repository.ts:67-85 | any non-decreasing series of refreshes equals one at the last time, and watermarks never go back |
| LazyRefresh.LazyIsClockDriven | kokoro-credit/src/infrastructure/prisma/prisma-credit-repository.ts:67-85 | lazy refresh, also of an account never refreshed before, equals a clock that resets the buckets at every UTC midnight and month start in between |
| LazyRefresh.EagerRefreshIsUnobservable | kokoro-credit/src/infrastructure/prisma/prisma-credit-repository.ts:537-566 | adding refreshes at any moments of any run changes no answer, no hold, no usage row, no posted amount and no bucket as the next reader sees it |
| LazyRefresh.CaptureSnapshotAgrees | kokoro-credit/src/infrastructure/prisma/prisma-credit-repository.ts:432-446 | the balance a capture records agrees with the refreshed one exactly when what is stale is filled by what the capture returns |
| LazyRefresh.CaptureSnapshotCanLag | kokoro-credit/src/infrastructure/prisma/prisma-credit-repository.ts:432-446 | a run from empty tables in which the two differ: 40 recorded, 100 with a refresh |
| HoldContention.EarlyAnswerIsAtomic | kokoro-credit/src/infrastructure/prisma/prisma-credit-repository.ts:386-408 | a call that stops after its reads answers what the atomic call answers there |
| HoldContention.SettlementIsAtomic | kokoro-credit/src/infrastructure/prisma/prisma-credit-repository.ts:410-466 | a winner's writes, computed from the row it read earlier, are those of the atomic call at its commit |
| HoldContention.LoserAnswersAtomically | kokoro-credit/src/infrastructure/prisma/prisma-credit-repository.ts:411-511 | a worker that lost the conditional update answers like the atomic call exactly when it is neither a capture whose key was recorded meanwhile nor a release of a hold released meanwhile |
| HoldContention.ActKeepsInv | kokoro-credit/src/infrastructure/prisma/prisma-credit-repository.ts:280-712 | every statement of every worker keeps the row locks exclusive, the committed tables in the reachable-state invariant, and the record of settlements in step with the holds |
| HoldRaces.EachHoldSettledOnce | kokoro-credit/src/infrastructure/prisma/prisma-credit-repository.ts:384-619 | under every interleaving and any crashes each hold is settled at most once, exactly once if and only if it is no longer active and in the way its status says, and the committed held total is the sum over active holds |
| HoldRaces.HeldIsOutstanding | kokoro-credit/src/infrastructure/prisma/prisma-credit-repository.ts:102-129 | at every moment, uncommitted writes included, an account's held total is the sum over its holds that are active or won and not yet returned |
| HoldRaces.SweepCountsItsWins | kokoro-credit/src/infrastructure/prisma/prisma-credit-repository.ts:570-619 | a sweep's count is exactly the active-to-expired moves it committed |
| HoldRaces.InterleavingIsSequential | kokoro-credit/src/infrastructure/prisma/prisma-credit-repository.ts:280-712 | the tables after any schedule of statements whose resets and deletions are undisturbed are those of the committed calls one after the other |
| HoldRaces.RowWriteIsAtomic | kokoro-credit/src/infrastructure/prisma/prisma-credit-repository.ts:280-298 | the late write of a reset or deletion is the atomic call exactly when its key is known, or the row is live, covers the held total and has the permanent bucket it had, or the account has no active hold |
| HoldRaces.RefusalIsAtomic | kokoro-credit/src/infrastructure/prisma/prisma-credit-repository.ts:684-702 | a reset or deletion refused on its reads answers like the atomic call |
| HoldRaces.ScheduleConserves | kokoro-credit/src/infrastructure/prisma/prisma-credit-repository.ts:99-712 | over every schedule an account's worth minus its ledger moves by refreshes, forfeits and the drifts of disturbed resets only |
| HoldRaces.LedgerExplainsBalanceUnlessDrift | kokoro-credit/src/infrastructure/prisma/prisma-credit-repository.ts:280-298 | with zero allowances the ledger explains the balance after a schedule exactly when those drifts cancel out |
| HoldRaces.DeletedIdleUnlessLate | kokoro-credit/src/infrastructure/prisma/prisma-credit-repository.ts:682-712 | deleted accounts hold nothing throughout a schedule exactly when no hold is placed between the count and the write of a deletion |
| HoldProgress.LoneCallIsAtomic | kokoro-credit/src/infrastructure/prisma/prisma-credit-repository.ts:384-533 | a capture or release with no other settlement under way ends, after its four statements, with the answer and the tables of the atomic call, other workers untouched |
| HoldProgress.LoneWriteIsAtomic | kokoro-credit/src/infrastructure/prisma/prisma-credit-repository.ts:270-314 | the same for the two statements of a reset or deletion |
| HoldProgress.OtherCallIsAtomic | kokoro-credit/src/infrastructure/prisma/prisma-credit-repository.ts:131-382 | any other call goes through in one statement unless a settlement has its account row locked |
| HoldProgress.LoneSweepExpiresAll | kokoro-credit/src/infrastructure/prisma/prisma-credit-repository.ts:570-619 | a sweep with no other settlement under way expires every overdue hold, one transaction each, no other hold, and reports their number |
| HoldProgress.NoDeadlock | kokoro-credit/src/infrastructure/prisma/prisma-credit-repository.ts:384-619 | in every state the interleaved statements can reach, as long as some worker has not ended one of them can make its next statement: the two row locks are always taken in one order |
| HoldRaceInputs.OverlappingRepeatIsRefused | kokoro-credit/src/infrastructure/prisma/prisma-credit-repository.ts:384-511 | of two overlapping captures with one key, and of two overlapping releases, of any active hold the second is refused, though it would be answered in sequence |
| HoldRaceInputs.ResetAroundHold | kokoro-credit/src/infrastructure/prisma/prisma-credit-repository.ts:280-298 | a reset to 50 around a hold of 60 out of 100 leaves 110 with a ledger of 50 |
| HoldRaceInputs.DeleteAroundHold | kokoro-credit/src/infrastructure/prisma/prisma-credit-repository.ts:684-709 | a deletion around a hold leaves a deleted account with an active hold |
| UsageQuota.CeilIsLeast | kokoro-credit/src/domain/amount.ts:15-21 | rounding up gives the least number of whole credits that covers the amount |
| UsageQuota.WelcomePosts | kokoro-credit/src/application/credit-service.ts:104-118 | the first call for an account opens it and posts one welcome grant under its own key to its permanent credit; the next posts nothing |
| UsageQuota.WelcomeKeysDistinct | kokoro-credit/src/application/credit-service.ts:109-115 | the welcome grants of two accounts never share a key |
| UsageQuota.CommittedIs | kokoro-credit/src/infrastructure/prisma/prisma-credit-repository.ts:909-922 | each entry of the account for a model or tool call since the month began counts its amount against the quota, nothing else does, and held credit is added |
| UsageQuota.HoldAmountExact | kokoro-credit/src/application/credit-service.ts:248-251 | the amount of a usage hold is the least number of whole credits, at least one, that covers estimate * (100 + percent) / 100 with the fraction cut off |
| UsageQuota.UsageHoldAnswers | kokoro-credit/src/application/credit-service.ts:234-268 | under a new key a usage hold goes through exactly when the account is not deleted, the quota leaves room beside what is settled and held, and the balance, a first welcome grant included, covers it; each other case has its error; the row carries that amount and expires the configured time from now |
| UsageQuota.CommittedLater | kokoro-credit/src/application/credit-service.ts:188-198 | time passing, month rollovers included, never raises what counts against the quota |
| UsageQuota.QuotaNeverExceeded | kokoro-credit/src/application/credit-service.ts:188-268 | in sequential runs of usage holds, settlements, releases, sweeps and unrelated calls, settled usage of the month plus held credit never exceeds a fixed quota |
| UsageQuota.SettlementCharge | kokoro-credit/src/application/credit-service.ts:344-396 | a settlement charges the smaller of the hold and the least whole credits covering the price, and releases the hold when that is nothing |
| UsageQuota.RepeatedHoldNeedsRoom | kokoro-credit/src/application/credit-service.ts:252-268 | a repeated hold call is answered with its hold exactly when a new hold of that size would still fit the quota |
| UsageQuota.CreditService.EnsureAccount | kokoro-credit/src/application/credit-service.ts:104-118 | a new account gets its welcome grant once |
| UsageQuota.CreditService.PlaceUsageHold | kokoro-credit/src/application/credit-service.ts:234-268 | in place, ensure, price, quota check and hold |
| UsageQuota.CreditService.Settle | kokoro-credit/src/application/credit-service.ts:344-396 | in place, clamp to the hold, then release or capture |
| PaymentSaga.KeysAreDistinct | kokoro-payment/src/application/payment-service.ts:110-260 | grant and reversal keys of orders never collide with one another |
| PaymentSafety.ScheduleSteps | kokoro-payment/src/application/payment-service.ts:98-277 | every action of every schedule keeps the saga invariant and takes nothing back |
| PaymentResults.SagaIsExactlyOnce | kokoro-payment/src/application/payment-service.ts:98-277 | under any schedule of confirms, refunds, sweeps, webhooks, replays, crashes and failing calls: paid or refunded means exactly one grant, refunded exactly one reversal and one refund row, and no reversal without its grant |
| PaymentResults.NothingIsTakenBack | kokoro-payment/src/infrastructure/prisma/prisma-payment-repository.ts:93-249 | from any reachable point on, order status only moves forward, orders keep their terms and a processed event stays processed |
| PaymentResults.ProcessedMeansDone | kokoro-payment/src/application/webhook-service.ts:79-170 | a processed payment event has its order paid or refunded, a processed refund event has it refunded with its row |
| PaymentResults.DeliveriesConverge | kokoro-payment/src/application/webhook-service.ts:40-170 | every schedule of duplicate, reordered and replayed deliveries that ends with both events processed ends in one status, one set of entries and one net credit |
| PaymentRecovery.ConfirmRecovers | kokoro-payment/src/application/payment-service.ts:98-153 | one undisturbed retry of an order left pending or confirming, wherever the last attempt died, makes it paid with one grant exactly when its plan is on sale and, for a plan with credits, its team's account is open; otherwise it fails and the order stays as it is or confirming |
| PaymentRecovery.RefundRecovers | kokoro-payment/src/application/payment-service.ts:222-277 | one undisturbed refund of a paid order, wherever an earlier attempt died, closes it with one reversal and one refund row exactly when the plan has no credits, or the team's account is open and the reversal is on record (and nothing more is charged) or covered by the balance; otherwise order, ledger and refund rows stay as they are |
| PaymentRecovery.SweepOutcome | kokoro-payment/src/application/payment-service.ts:140-153 | of any set of stale confirming orders, taken in any order, exactly those come out paid whose plan is on sale and has no credits, or whose team's account is open and whose own call meets no fault, as the tables stood before the sweep; they are counted and no other order changes |
| PaymentRecovery.SweepRecovers | kokoro-payment/src/application/payment-service.ts:140-153 | a sweep worker of the machine, left to run from its start, ends with that count and those orders paid |
| PaymentRecovery.EventIsProcessedExactly | kokoro-payment/src/application/webhook-service.ts:79-170 | from every reachable state, one undisturbed delivery of a new or merely received event, and one undisturbed replay of a received or failed one, leave it processed exactly when there is nothing to do, or its order is paid or can be confirmed, or is refunded with its row or can be reversed; otherwise failed |
| PaymentRecovery.RepeatedDeliveryIsIgnored | kokoro-payment/src/application/webhook-service.ts:79-97 | a delivery of an event already processed or failed, and a replay of a processed one, change nothing |
| PaymentRecovery.BothGetProcessed | kokoro-payment/src/application/webhook-service.ts:40-170 | for every plan on sale and open account, creating an order and delivering its payment and its refund once each ends with both events processed |
| PaymentRuns.ConfirmRuns | kokoro-payment/src/application/payment-service.ts:98-136 | a confirmation worker of the machine, left to run from its first read, ends within six statements with the tables and the success of the in-place confirmation, whatever its call meets |
| PaymentRuns.RefundRuns | kokoro-payment/src/application/payment-service.ts:222-277 | the same for a refund worker |
| PaymentRuns.SweepRuns | kokoro-payment/src/application/payment-service.ts:140-153 | the same for a sweep worker and its whole list |
| PaymentService.Service.MarkOrderConfirming | kokoro-payment/src/infrastructure/prisma/prisma-payment-repository.ts:93-107 | pending moves to confirming; succeeds for confirming or paid orders |
| PaymentService.Service.MarkOrderPaid | kokoro-payment/src/infrastructure/prisma/prisma-payment-repository.ts:117-135 | pending or confirming moves to paid; an order already paid is fine |
| PaymentService.Service.RefundOrderAtomically | kokoro-payment/src/infrastructure/prisma/prisma-payment-repository.ts:164-186 | paid moves to refunded together with its refund row, or nothing happens |
| PaymentService.Service.TransitionPaymentEventStatus | kokoro-payment/src/infrastructure/prisma/prisma-payment-repository.ts:233-249 | a processed event is terminal |
| PaymentService.Service.CallCredit | kokoro-payment/src/infrastructure/credit-grant-client.ts:37-88 | ensure the account, then post under the order's key, with every way the call may fail |
| PaymentService.Service.ConfirmOrder | kokoro-payment/src/application/payment-service.ts:98-136 | in place: guard, intent, grant, mark paid, with all failure points |
| PaymentService.Service.RefundOrder | kokoro-payment/src/application/payment-service.ts:222-277 | in place: guard, reversal, atomic refund row, with all failure points |
| PaymentService.Service.SweepStaleConfirmingOrders | kokoro-payment/src/application/payment-service.ts:140-153 | one failing order does not stop the rest: the orders that come out paid are exactly those recoverable before the sweep, the count is their number, and no other order changes |
| RateLimiter.KeyFixesDimension | kokoro-user/src/application/magic-link-rate-limiter.ts:24-30 | a key stands for one dimension and limit whatever request it comes from |
| RateLimiter.InMemoryLimiter.Consume | kokoro-user/src/application/magic-link-rate-limiter.ts:39-68 | purge, check and count loops over the live table compute the specified decision and table |
| RateLimiter.AnyIntervalBound | kokoro-user/src/application/magic-link-rate-limiter.ts:34-68 | on a non-decreasing clock any half-open interval one window long lets at most 2*limit - 1 requests through per key |
| RateLimiter.BoundIsAttained | kokoro-user/src/application/magic-link-rate-limiter.ts:34-68 | for every limit, below 1 included, and every window some run meets that bound |
| RateLimiter.PurgeIsUnobservable | kokoro-user/src/application/magic-link-rate-limiter.ts:43-47 | removing expired windows never changes a decision of any run |
| RateLimiter.DecisionIsExact | kokoro-user/src/application/magic-link-rate-limiter.ts:34-68 | a request is allowed exactly when its email and, when it is known, its IP each have room under their own limit; it is then counted in exactly those windows, and a refused request in none |
| RateLimiter.KeysSeparate | kokoro-user/src/application/magic-link-rate-limiter.ts:24-30 | an email and an IP never share a window, and two requests share one exactly when they have the same email or IP |
| RedisRateLimiter.RedisLimiter.Consume | kokoro-user/src/application/magic-link-rate-limiter.ts:89-112 | the loop of increments and expiries computes the specified counters, and any failing command, having taken effect or not, lets the request through |
| RedisRateLimiter.RedisKeepsWindow | kokoro-user/src/application/magic-link-rate-limiter.ts:89-112 | no aligned window ever admits more than the limit, and expiry never resets a counter while its window lasts |
| RedisRateLimiter.AnyIntervalBoundRedis | kokoro-user/src/application/magic-link-rate-limiter.ts:81-112 | whatever commands fail, the counters admit at most 2*limit requests per key in any interval one window long |
| RedisRateLimiter.BoundIsAttainedRedis | kokoro-user/src/application/magic-link-rate-limiter.ts:81-112 | for every limit and window some run meets that bound |
| RedisRateLimiter.AllAllowedBoundRedis | kokoro-user/src/application/magic-link-rate-limiter.ts:89-112 | of everything let through, such an interval holds at most 2*limit requests and those that failed open in it; with no failing command at most 2*limit |
| RedisRateLimiter.RedisDecisionIsExact | kokoro-user/src/application/magic-link-rate-limiter.ts:89-112 | with Redis reachable a request raises exactly its counters of the running window, allowed or not, a starting one gets one window to live, and the request is allowed exactly when each is then within its own limit |
| RedisRateLimiter.FaultStopsTheRequest | kokoro-user/src/application/magic-link-rate-limiter.ts:94-111 | a command that fails leaves the counters as the commands up to it left them, itself included when only its reply was lost, and lets the request through |
| RefreshTokens.PresentingIsExact | kokoro-user/src/infrastructure/prisma/prisma-refresh-token-repository.ts:28-62 | a token is consumed exactly when unconsumed, unrevoked and unexpired; its namespace is revoked exactly when it was consumed longer ago than the grace window; otherwise no row changes |
| RefreshTokens.ActKeeps | kokoro-user/src/application/refresh-service.ts:49-111 | every statement of every worker keeps the token families in order, and a row is consumed, revoked and linked at most once |
| RefreshTokens.RotationSafety | kokoro-user/src/application/refresh-service.ts:55-110 | under every interleaving no token is consumed twice, links run forward within one namespace and site with one predecessor and one successor, and each login has at most one unconsumed token |
| RefreshTokens.ReplayEndsTheSession | kokoro-user/src/infrastructure/prisma/prisma-refresh-token-repository.ts:45-58 | after a replay beyond the grace window no token its namespace had then is ever consumed again |
| RefreshTokens.LateMintSurvives | kokoro-user/src/application/refresh-service.ts:55-75 | a rotation that consumed its token before the replay still mints a live one after it |
| RefreshTokens.ReplayEndsTheNamespace | kokoro-user/src/infrastructure/prisma/prisma-refresh-token-repository.ts:45-76 | after a replay and without a new login a token of the namespace can live again if and only if some worker had consumed one before and not yet minted its successor; under the one configured lifetime, and counting from the replay on, if and only if such a worker began less than a lifetime before the replay |
| RefreshTokens.DelayedMintOutlivesTheReplay | kokoro-user/src/application/refresh-service.ts:55-75 | a run from no tokens at all in which a delayed worker mints after the replay |
| RefreshAnswers.PresentAnswers | kokoro-user/src/infrastructure/prisma/prisma-refresh-token-repository.ts:28-62 | among any other workers, a fresh token becomes its worker's to rotate, one used more than sixty seconds ago ends its namespace, and any other writes no row |
| RefreshAnswers.RotationSucceeds | kokoro-user/src/application/refresh-service.ts:55-83 | an undisturbed rotation succeeds exactly for a fresh token and a free hash, and then the old token is used and linked to a new one of the same namespace and site that lives the configured time from now |
| RefreshAnswers.RotationFails | kokoro-user/src/application/refresh-service.ts:55-83 | what a failed rotation leaves in each case: a used token, an ended namespace, or nothing |
| RefreshAnswers.UnknownHashFails | kokoro-user/src/application/refresh-service.ts:55-60 | an unknown token is refused and nothing is written |
| RefreshAnswers.LoginAnswers | kokoro-user/src/infrastructure/prisma/prisma-refresh-token-repository.ts:16-26 | a login adds the one row it was given, unrevoked, exactly when its hash is free |
| RefreshAnswers.CrashAnswers | kokoro-user/src/application/refresh-service.ts:55-83 | a request that stops leaves its rows as they are and takes no further step |
| RefreshAnswers.LogoutAnswers | kokoro-user/src/application/refresh-service.ts:87-93 | signing out ends the namespace of the token shown, used or not, and an unknown token writes nothing |
| RefreshAnswers.SuccessIsLinked | kokoro-user/src/application/refresh-service.ts:55-83 | under every interleaving, whoever was handed a new token was the one to use the old one, and the old one is linked to it for good |
| RefreshTokens.RefreshTokenRepository.Issue | kokoro-user/src/infrastructure/prisma/prisma-refresh-token-repository.ts:16-26 | appends a row unless its unique hash is taken |
| RefreshTokens.RefreshTokenRepository.ConsumeToken | kokoro-user/src/infrastructure/prisma/prisma-refresh-token-repository.ts:28-62 | conditional update first, then grace and replay check, in place |
| RefreshTokens.RefreshTokenRepository.MarkReplaced | kokoro-user/src/infrastructure/prisma/prisma-refresh-token-repository.ts:64-69 | links a token to its successor and touches nothing else |
| RefreshTokens.RefreshTokenRepository.RevokeAllForNamespace | kokoro-user/src/infrastructure/prisma/prisma-refresh-token-repository.ts:71-76 | revokes exactly the unrevoked tokens of the namespace |
| RefreshTokens.RefreshService.Rotate | kokoro-user/src/application/refresh-service.ts:55-83 | an uninterrupted rotation is one worker's consume, mint and link in a row |
| RefreshTokens.RefreshService.Revoke | kokoro-user/src/application/refresh-service.ts:87-93 | logout revokes the token's namespace; an unknown token changes nothing |
| JsonText.LeTotalOrder | kokoro-hub/src/domain/package.ts:7-18 | comparing by code point, and by UTF-16 unit, is a total order on all strings, ill-formed ones included |
| JsonText.CodePointCompare | kokoro-hub/src/domain/mcp-config-hash.ts:21-32 | the index loop returns the sign of that order, 0 only for equal strings |
| JsonText.QuoteSelfDelimiting | kokoro-hub/src/domain/package.ts:26-31 | a JSON string is self-delimiting and tells exactly which string it quotes |
| JsonText.PrintInjective | kokoro-payment/src/domain/idempotency.ts:47-49 | two JSON values print alike only when they are the same value |
| JsonForms.CodePointOrder | kokoro-hub/src/domain/package.ts:7-18 | the order by code point is decided by the first difference, upwards, else by length |
| JsonForms.CodePointsDecode | kokoro-hub/src/domain/package.ts:8-9 | the code points of a string write it back in UTF-16, and no surrogate pair among them is left apart |
| JsonForms.EscapeTable | kokoro-hub/src/domain/package.ts:24-31 | every escape: the two-letter ones, four lower-case hex digits for other control characters and lone surrogates, the character itself otherwise (section 7 of RFC 8259) |
| JsonForms.PrintIsWritten | kokoro-payment/src/domain/idempotency.ts:47-49 | printing through an accumulator writes the joined text of the value at every depth |
| Canonical.SortExact | kokoro-hub/src/domain/package.ts:20-22 | the sorted list tells exactly which elements there were and how often |
| Canonical.CanonicalJsonExact | kokoro-hub/src/domain/package.ts:20-31 | two packages have one canonical text exactly when they hold the same files, in whatever order they were added |
| JsonForms.CanonicalJsonIs | kokoro-hub/src/domain/package.ts:24-31 | letter by letter the hashed text of a package is what Python writes: paths in code-point order, a colon and a space, a comma and a space |
| Canonical.PackageRefInjective | kokoro-hub/src/domain/package.ts:37-39 | a package reference determines scope, name and digest |
| Canonical.CanonicalConfigExact | kokoro-hub/src/domain/mcp-config-hash.ts:35-47 | two configs have one fingerprint exactly when transport, url and secret reference agree and the tools agree up to order |
| JsonForms.CanonicalConfigIs | kokoro-hub/src/domain/mcp-config-hash.ts:35-43 | letter by letter the fingerprinted text of a config: the four members in this order, tools by code point, no space, an absent secret reference as null |
| StableJson.CanonicalizeExact | kokoro-payment/src/domain/idempotency.ts:51-66 | canonical values are equal exactly when the values agree up to member order at every depth, `__proto__` members not counted |
| StableJson.StableExact | kokoro-payment/src/domain/idempotency.ts:47-66 | the same for the printed text of every parsed payload, numbers that overflowed taken for null, a missing or null payload reading as the empty object |
| StableJson.StableExactOnPlain | kokoro-payment/src/domain/idempotency.ts:47-66 | on payloads without a `__proto__` member and without an overflowing number the text is exact at every depth |
| StableJson.ProtoMemberIsLost | kokoro-payment/src/domain/idempotency.ts:58-63 | an object with only a `__proto__` member has the text of the empty object |
| StableJson.OverflowIsTakenForNull | kokoro-payment/src/domain/idempotency.ts:47-49 | an object whose member overflowed has the text of the one with null there |
| StableJson.AcceptedRepeats | kokoro-payment/src/domain/idempotency.ts:32-45 | a repeated event is accepted exactly for the same type and the same payload up to member order |
| McpRevisions.StepKeeps | kokoro-hub/src/infrastructure/mongo/mongo-mcp-server-repository.ts:68-251 | every operation keeps revision rows numbered and never rewrites one |
| McpRevisions.RevisionsAreNumbered | kokoro-hub/src/infrastructure/mongo/mongo-mcp-server-repository.ts:68-101 | from any legacy hub, a server's rows are 1 to n without a gap, neighbours differ in fingerprint, and the last is the live content's |
| McpRevisions.ContentLock | kokoro-hub/src/infrastructure/mongo/mongo-mcp-server-repository.ts:141-184 | any grant ever handed out is answered in all later states by a snapshot with its fingerprint and so with its content |
| McpRevisions.GrantedExactly | kokoro-hub/src/infrastructure/mongo/mongo-mcp-server-repository.ts:104-123 | a server is granted exactly when live and enabled and, if official, not shadowed by a live server of the namespace, enabled or not |
| McpRevisions.UpsertWrites | kokoro-hub/src/infrastructure/mongo/mongo-mcp-server-repository.ts:186-234 | an upsert bumps the revision exactly when the fingerprint changed, revives a deleted server and keeps the enabled flag |
| McpRevisions.RepeatedUpsert | kokoro-hub/src/infrastructure/mongo/mongo-mcp-server-repository.ts:203-212 | registering the same content again adds no revision and no row |
| McpAnswers.NewServerAnswers | kokoro-hub/src/infrastructure/mongo/mongo-mcp-server-repository.ts:186-234 | a new server starts enabled at revision 1 with its content as first snapshot, and nothing else is written |
| McpAnswers.KnownServerAnswers | kokoro-hub/src/infrastructure/mongo/mongo-mcp-server-repository.ts:186-234 | an upsert of a known server rewrites that document alone, keeps its flag, and adds exactly the snapshots that a changed content or a legacy document calls for |
| McpAnswers.EnableAnswers | kokoro-hub/src/infrastructure/mongo/mongo-mcp-server-repository.ts:236-245 | a toggle finds exactly the servers that are not deleted and writes the flag of that one document alone |
| McpAnswers.DeleteAnswers | kokoro-hub/src/infrastructure/mongo/mongo-mcp-server-repository.ts:247-250 | a deletion marks that one server, whatever its state; flag, content and snapshots stay |
| McpAnswers.SnapshotAnswers | kokoro-hub/src/infrastructure/mongo/mongo-mcp-server-repository.ts:151-184 | a question is answered exactly for the revisions a server has reached, with the snapshot of that revision and the flags of the live document as they are now |
| McpAnswers.SnapshotWrites | kokoro-hub/src/infrastructure/mongo/mongo-mcp-server-repository.ts:151-184 | asking for a snapshot writes only the first revision and row of a legacy server |
| McpAnswers.GrantsInOrder | kokoro-hub/src/infrastructure/mongo/mongo-mcp-server-repository.ts:104-149 | grants come with the namespace's own servers before the official ones, each group by name in code-point order, and no name twice |
| McpAnswers.ResolveWrites | kokoro-hub/src/infrastructure/mongo/mongo-mcp-server-repository.ts:104-149 | resolving writes nothing but the first revision and snapshot of the legacy servers it grants |
| McpRevisions.McpServerRepository.Append | kokoro-hub/src/infrastructure/mongo/mongo-mcp-server-repository.ts:68-86 | inserts a snapshot row unless its key exists |
| McpRevisions.McpServerRepository.Migrate | kokoro-hub/src/infrastructure/mongo/mongo-mcp-server-repository.ts:90-101 | gives a document without a revision its first one, snapshot included |
| McpRevisions.McpServerRepository.Register | kokoro-hub/src/infrastructure/mongo/mongo-mcp-server-repository.ts:186-234 | the upsert in place |
| McpRevisions.McpServerRepository.SetServerEnabled | kokoro-hub/src/infrastructure/mongo/mongo-mcp-server-repository.ts:236-245 | toggles a live server or reports that there is none |
| McpRevisions.McpServerRepository.MarkServerDeleted | kokoro-hub/src/infrastructure/mongo/mongo-mcp-server-repository.ts:247-250 | marks a server deleted |
| McpRevisions.McpServerRepository.ActivePool | kokoro-hub/src/infrastructure/mongo/mongo-mcp-server-repository.ts:104-123 | the merge loop with its seen set computes the specified pool and migrations |
| McpRevisions.McpServerRepository.GetRevisionSnapshot | kokoro-hub/src/infrastructure/mongo/mongo-mcp-server-repository.ts:151-184 | migrates a legacy live document first, then answers the row with the live flags |
| SkillCandidates.ExtractCandidates | kokoro-hub/src/application/skill-upload-service.ts:59-82 | the grouping loop computes the specified candidates, or rejects a zip with a top-level file or nothing in it |
| SkillCandidates.CandidatesPartition | kokoro-hub/src/application/skill-upload-service.ts:59-82 | rejected exactly for a top-level file or no file entry; otherwise candidates have distinct names and together hold the file entries whose relative path is not `__proto__`, all file entries exactly when there is none of those |
| SkillCandidates.CandidatesAreDirectories | kokoro-hub/src/application/skill-upload-service.ts:59-82 | the candidates are exactly the directories under the root with a file below them, each with all its files by their paths in it and in zip order, but for one called `__proto__` |
| SkillCandidates.RejectedForBareEntries | kokoro-hub/src/application/skill-upload-service.ts:59-82 | rejected exactly for an entry outside every directory or when no directory has a file below it |
| SkillCandidates.ProtoEntryIsLost | kokoro-hub/src/application/skill-upload-service.ts:74-75 | a zip with only `pkg/__proto__` yields a candidate without files |
| SkillUploads.WriteMovesUsage | kokoro-hub/src/application/skill-upload-service.ts:175-200 | the counters the loop adopts are the real usage after the write |
| SkillUploads.UploadSafety | kokoro-hub/src/application/skill-upload-service.ts:140-220 | through any failures and at any point where the run stops, a torn package write included: counters equal usage, limits are kept, no stored package is overwritten, every uploaded document's package is in the store, and a whole package is filed under its digest |
| SkillUploads.WholeExactly | kokoro-hub/src/infrastructure/packages/local-package-store.ts:20-27 | after a run every stored package is whole exactly when all were before and no item was stopped while writing a new one |
| SkillUploads.PublishedPackage | kokoro-hub/src/infrastructure/packages/local-package-store.ts:20-27 | the package of a published document holds the published files unless a torn one lay under its reference, which is then kept |
| SkillUploads.TornUploadIsPublished | kokoro-hub/src/infrastructure/packages/local-package-store.ts:20-27 | an upload stopped in its first package write, and the same upload answered published over the torn package |
| SkillUploads.PublishedExactly | kokoro-hub/src/application/skill-upload-service.ts:155-218 | with nothing going wrong an item is published exactly when it is accepted, changed and within the quota and its document is absent or has a revision |
| SkillUploads.UnversionedStays | kokoro-hub/src/infrastructure/mongo/mongo-skill-repository.ts:234-273 | no upload ever rewrites a document that has no revision |
| SkillUploads.RowsTellTheTruth | kokoro-hub/src/application/skill-upload-service.ts:155-218 | published and unchanged rows mean the live document holds the candidate's content; a failed row means no document changed |
| SkillUploads.RepeatedUploadIsUnchanged | kokoro-hub/src/application/skill-upload-service.ts:164-174 | uploading the same files again, in any order, is answered unchanged and touches nothing |
| SkillAnswers.RejectedAnswers | kokoro-hub/src/application/skill-upload-service.ts:155-163 | an item that is missing or fails validation is answered failed and writes nothing |
| SkillAnswers.NewNameAnswers | kokoro-hub/src/application/skill-upload-service.ts:164-210 | a new name is published as revision 1 exactly when one more package of its size fits the limits, and fails without a trace otherwise |
| SkillAnswers.KnownNameAnswers | kokoro-hub/src/application/skill-upload-service.ts:164-210 | a known name is answered unchanged for the same content, and otherwise published as the next revision exactly when the exchanged size fits and the document has a revision; that document alone is rewritten |
| SkillAnswers.DisturbedAnswers | kokoro-hub/src/application/skill-upload-service.ts:183-218 | what each kind of failure or stop in the writing half leaves in the stores, the documents, the history and the answer |
| SkillUploads.SkillUploadService.PublishItem | kokoro-hub/src/application/skill-upload-service.ts:183-200 | package first, then document, then history, with every way to fail or stop in between |
| SkillUploads.SkillUploadService.Confirm | kokoro-hub/src/application/skill-upload-service.ts:140-220 | the publish loop with its two local counters computes the specified run |
| SkillUploads.WriteOne | kokoro-hub/src/infrastructure/mongo/mongo-skill-repository.ts:228-285 | the conditional write touches one document, which is then the live one of its name |
| IsoTime.IsoRoundTrip | kokoro-platform-admin/src/admin-auth-store.ts:32-67 | writing a time as an ISO text and reading it back gives the same millisecond |
| IsoTime.IsoLayout | kokoro-platform-admin/src/admin-auth-store.ts:32-67 | the text shows the civil fields of the time, each with its fixed number of digits, between the separators of section 5.6 of RFC 3339 |
| IsoTime.FromIsoExact | kokoro-credit/src/interfaces/http/routes.ts:49-61 | a text with a four-digit year from 1970 on is read as the time its fields stand for, and not at all with another layout or a field out of range |
| ReceiptResults.ResultRoundTrip | kokoro-platform-admin/src/admin-auth-store.ts:32-67 | every command result survives its storage as JSON |
| AdminReceipts.ActKeeps | kokoro-platform-admin/src/admin-auth-receipt.ts:98-146 | every statement of every transaction keeps receipts, applied effects and locks in step |
| AdminReceipts.ReceiptSafety | kokoro-platform-admin/src/admin-auth-receipt.ts:98-146 | under every interleaving each command id and key commits at most one effect, no receipt is left accepted, keys are in bijection, the tables are the effects replayed in commit order, and each receipt reads back its effect's result |
| AdminReceipts.MatchingReplay | kokoro-platform-admin/src/admin-auth-receipt.ts:73-96 | at any later time a matching repeat gets the original receipt and result, a changed payload a digest conflict, and no table changes |
| AdminReceipts.RetryIsAnswered | kokoro-platform-admin/src/admin-auth-receipt.ts:117-146 | the one retry after a unique conflict always finds a receipt and never meets a second conflict |
| AdminAnswers.LoneCommandIsAnswered | kokoro-platform-admin/src/admin-auth-receipt.ts:98-146 | a command under a new identity with no other transaction under way commits effect and receipt exactly when the tables allow the effect, and is otherwise refused and writes nothing |
| AdminAnswers.OtherIdentityConflicts | kokoro-platform-admin/src/admin-auth-receipt.ts:73-96 | at any later time a caller that uses the id or the key of a committed command, but not both for the same operation, gets an identity conflict and touches no table |
| AdminAnswers.NoDeadlock | kokoro-platform-admin/src/admin-auth-receipt.ts:98-146 | as long as some caller has not ended, one of the interleaved transactions can make its next statement |
| AdminEffects.EffectsAreExact | kokoro-platform-admin/src/admin-auth-store.ts:104-166 | under every interleaving the stored tokens are exactly those created and not consumed since, with what they were created with, the event log is the committed events in order, and each receipt reads back its command's answer in its turn |
| AdminEffects.ConsumedOnce | kokoro-platform-admin/src/admin-auth-store.ts:150-161 | between two committed consumptions of a token it was created again by its identifier |
| AdminEffects.RunAnswers | kokoro-platform-admin/src/admin-auth-store.ts:146-166 | an effect waits for a transaction that holds its token and otherwise runs exactly when a created token is new or a consumed one stored under its identifier |
| AdminEffects.CommitWrites | kokoro-platform-admin/src/admin-auth-store.ts:136-166 | a commit puts the effect into the tables and its receipt beside it at once |
| AdminReceipts.AdminAuthStore.ExecuteCommand | kokoro-platform-admin/src/admin-auth-receipt.ts:98-146 | an uninterrupted call answers from a known receipt and writes nothing, or commits its effect, as the tables before it allow, together with its receipt; an effect that cannot run is refused and writes nothing |
| Base64Url.RoundTrip | kokoro-credit/src/interfaces/http/routes.ts:44-61 | decoding undoes encoding for byte strings of every length (section 5 of RFC 4648) |
| Base64Url.EncodeIsBase64 | kokoro-credit/src/interfaces/http/routes.ts:44-47 | groups of three bytes become four letters, tails two or three, without padding |
| Base64Url.AlphabetIs | kokoro-credit/src/interfaces/http/routes.ts:44-47 | capitals, small letters, digits, then minus and underscore (section 5 of RFC 4648) |
| Base64Url.GroupKeepsItsValue | kokoro-credit/src/interfaces/http/routes.ts:44-47 | the letters of a group write the number its bytes are, with zero bits added to a tail |
| LedgerPaging.CursorRoundTrip | kokoro-credit/src/interfaces/http/routes.ts:44-61 | a cursor decodes to the time and id that were encoded |
| LedgerPaging.CursorReads | kokoro-credit/src/interfaces/http/routes.ts:49-61 | the cursor a text stands for: exactly the one whose time text, a space and non-empty id it decodes to, and none for any other text |
| LedgerPaging.RefusedExactly | kokoro-credit/src/interfaces/http/routes.ts:296-316 | a request is refused exactly for a page size outside 1 to 200 or a cursor that is empty or stands for none |
| LedgerPaging.AfterAny | kokoro-credit/src/infrastructure/prisma/prisma-credit-repository.ts:942-964 | a page starts at the first of the account's rows that comes after the cursor, whether or not the cursor is of a row that is there |
| LedgerPaging.OlderIsTotal | kokoro-credit/src/infrastructure/prisma/prisma-credit-repository.ts:942-964 | the index orders by time, newest first, then by id, and is total on rows that differ in one of the two |
| LedgerPaging.UsageLedger | kokoro-credit/src/interfaces/http/routes.ts:296-334 | the route with its read of one row too many answers the next `limit` rows after the cursor, and a cursor exactly when rows remain |
| LedgerPaging.PageOf | kokoro-credit/src/application/credit-service.ts:320-335 | a request in the middle of a session shows the rows that follow, entries that arrived meanwhile not repeated |
| LedgerPaging.PagesAreTheLedger | kokoro-credit/src/infrastructure/prisma/prisma-credit-repository.ts:942-964 | for every page size, given or not, following cursors ends and gives the ledger of the first request, each entry once and in order, whatever newer entries arrive |

## Left out

- Row lookups and storage engines: tables are maps and sequences with unique keys; a transaction is atomic except where its statements are modelled (holds, rotations, receipts, the saga). Overlapping settlements, resets and deletions are split. Spends and holds stay atomic, as they lock the account row before reading it; so do grants, which increment it in one statement after reading the deletion mark, so that a deletion in between is as if it came after the grant.
- Integer width of the 64-bit columns: amounts are unbounded, as they are in the services.
- Times before 1970, and clock skew between the services and their stores.
- Allowances are constants of an account: nothing in kokoro-credit/src writes dailyAllowanceMicros or periodAllowanceMicros (they are only read), and kokoro-credit/prisma/schema.prisma:26-27 defaults both to 0.
- Welcome grants outside `UsageQuota`: there they are other credit traffic.
- PaymentService.Service.SweepStaleConfirmingOrders: the threshold and the order of the query for stale orders are not modelled; the set of stale orders is arbitrary.
- Subscription events, checkout, provider configuration, plan upserts (a plan's amount is fixed over an order's life) and event payloads beyond the event kind and order.
- Traffic of others on the credit service is arbitrary but stays off the two order key families.
- Hold feature, label and model references, request ids and the pricing rules themselves: a price is an input.
- RedisRateLimiter.AnyIntervalBoundRedis: counts what the counters admit; requests let through because Redis failed are added by `AllAllowedBoundRedis`. Redis expiry is taken to run on the limiter's clock.
- CreditEngine.CreditRepository.ResetBalance: one step here; its read and its later write are separate steps in `HoldContention`.
- CreditEngine.CreditRepository.DeleteAccount: one step here, as the reset.
- CreditInvariants.DeletedAccountHoldsNothing: for calls one after the other; `HoldRaces.DeletedIdleUnlessLate` is exact for overlapping ones.
- CreditConservation.LedgerExplainsBalance: for calls one after the other; `HoldRaces.LedgerExplainsBalanceUnlessDrift` is exact for overlapping ones.
- HoldRaces.InterleavingIsSequential: two overlapping grants, spends or holds under one key are two atomic calls; how the loser of their unique key reports is not modelled.
- UsageQuota.QuotaNeverExceeded: for sequential runs only, since the source checks the quota outside the hold transaction.
- RefreshTokens.RotationSafety: signing the access token is a step that may fail and has no other effect.
- McpRevisions.ContentLock: upserts, reads with their migrations, toggles and deletes are each atomic; the source has no compare-and-swap there. The official catalogue listing only migrates and is left out.
- SkillUploads.UploadSafety: what a torn package holds is not modelled, only that it is no whole zip; no concurrent writer of the same namespace; zip reading and package validation are inputs, curation and review fields are not modelled.
- StableJson.StableExact: values are JSON values, so `undefined` inside a payload is not modelled; negative zero is the number 0, as both print alike.
- LedgerPaging.CursorRoundTrip: row ids are ASCII, as generated ids are; date texts other than ISO ones, which the date constructor also reads, are not modelled.
- ReceiptResults.ResultRoundTrip: the digest algorithm has one value and is not carried; operator queries and request canonicalisation are left out.
- HTTP servers and schemas, RBAC, approvals, team roles, site and model management, admin listings and statistics: easy members or library behaviour.
- Cryptography: SHA-256 is injective, signatures are not modelled.
