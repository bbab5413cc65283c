# StellarYield backend: a verified model

This project models the parts of the backend that decide what users and
operators see, and proves what their design promises:

- **Indexer**. The polling loop, any number of backfills and the catch-up of
  resumed contracts are a step machine over a chain log, the database and the
  process memory (`IndexerMachine`). Coverage (no gap) is an invariant of what
  the control state relies on, and the guards under which a step keeps it are
  exact (`IndexerCoverage`, `IndexerSchedules`). `IndexerWriters` takes the
  batches apart event by event: pause check, look for the row, handler, insert
  and commit of several writers under READ COMMITTED (PostgreSQL manual, section
  13.2.1), whose control is that machine. `IndexerInterleavings` relates the
  two, `IndexerExactlyOnce` (over `EventStore`) proves exactly-once application
  with its exact condition, and `IndexerRaces` has the runs from boot that fail
  it. `IndexerProgress` says what an undisturbed tick or backfill hands over, and
  `IndexerFloor` what the start block keeps out. The `Indexer` class
  (`IndexerObject`, `IndexerRuns`) has the source's loops; a tick and a backfill
  are proved to be exactly their own steps.
- **Vault totals** (`VaultTotals`). The total that a deposit reads in one
  statement and writes in another, under overlapping writers.
- **Positions** (`Handlers`, `Accounting`, `Rebuild`, `Agreement`). The event
  handlers with their clamp at zero, the phase-by-phase rebuild, and the exact
  difference between the two.
- **Vault list** (`Sql`, `FilterTree`, `VaultList`, `Keyset`, `ListPaging`). The
  filter tree is printed to tokens with positional parameters and read back by a
  parser in which AND binds tighter than OR (PostgreSQL manual, section 4.1.6);
  the result is evaluated in three-valued logic (section 9.1). Pagination follows
  cursors over the sorted table, and the page statement selects what it takes.
- **Webhooks** (`Webhooks`, `Tiers`). Circuit breaker, in-place retries,
  fallback escalation and replays as serial steps, with a potential function
  for the global bound; the dispatch order.
- **Epoch anomalies** (`EpochAnomaly`), **compound projection** (`Projection`),
  **redemption** (`Redemption`), **operation ids** (`Toid`, SEP-0035 and section
  4.3.1 of IEEE 754-2019) and **ledger times** (`LedgerEstimator`).
- **SSE replay** (`Sse`) and the **RPC semaphore** (`RpcLimiter`).

`Common` holds options, maxima, filters and sums over maps, `Arithmetic`
truncating division. Classes stand for what the source updates in place; their
methods are proved against the step or fold functions the theorems are about.

## What the code does differently from what is written about it

- A tick computes a capped `batchTo` (indexer.ts:473) but fetches without an
  upper ledger and records the chain tip (indexer.ts:514). `TickCommitSafeIff`
  gives the exact condition.
- Replays are described as de-duplicated (indexer.ts:690), but the guard
  compares the raw event type with rows stored under the resolved one, and the
  unique slot of a claim is always position (0, 0).
  `NeverAppliedTwiceIffRecognisable` gives the exact condition;
  `UnmatchedTypeAppliedTwice` and `LostSlotAppliedTwice` are the two ways out.
- `queueBackfill` is described as processed on the next tick (indexer.ts:2438)
  but runs at once. Overlapping a tick it can lose an event in three ways
  (`LoweredCursorLosesEvent`, `StaleControlsLoseEvent`,
  `PauseInsideLosesEvent`); `SafeIffOrderly` gives the exact guards.
- The unique constraint is there for concurrent writers (migration 058) and
  protects the row, not the handler: a tick and a backfill that both look before
  the other commits apply an event twice (`OverlapAppliesTwice`).
- A replay runs outside a transaction (indexer.ts:714-735): when it stops
  between a handler and its row, by a crash or by a failing insert that is
  swallowed, the event counts twice (`TornReplayAppliesTwice`,
  `FailedInsertAppliesTwice`). `SyncedIffHarmless` gives the exact condition for
  all of this.
- A deposit reads `total_assets` and writes it back in two statements
  (indexer.ts:1414-1430), so overlapping writers can lose a deposit
  (`ExactIffNeverStale`).
- Re-running the anomaly scan is described as always giving the same verdict
  (epochAnomaly.ts:80-84). That holds exactly for harmless closing orders
  (`IndependentIffHarmless`); epochs 1 to 8 and then 0 are not one
  (`LateEpochMatters`).
- A contract paused before the first commit is marked at ledger 0 rather than at
  the start block (admin.ts:440-442), so its replay fetches below the start
  block (`PausedBeforeFirstCommit`, `StaysAboveIff`).
- The tiebreaker by id is on the cursor query alone (vault.ts:720), so numbered
  pages of rows that tie may be cut from different orders (`ListingUniqueIff`).
- The semaphore decrements on a hand-over (rpcLimiter.ts:40), so every hand-over
  loses a permit; `DeadStateIsReachable` shows where that ends.
- The estimator promises ±10 s (ledgerEstimator.ts:29-31). Between anchors 1000
  ledgers apart that needs ledgers that close within 40 ms of each other's pace
  (`TenSecondsIff`).
- A cursor carries milliseconds while `created_at` holds microseconds, and the
  default sort is not the cursor's order (`CompleteIffSeparate`,
  `OnlyCreatedAtPages`).
- An empty `in` list passes validation and is refused by the database
  (`FragmentMeansTree`).
- Amounts between −10^18 and 0 are formatted with the sign inside the number
  (`FormatReadsBackIff`).
- The fee preview values an empty vault one to one and the portfolio at zero
  (`PreviewsExceedPortfolio`).

An orderly run meets the guards of `Orderly`. Plain hypotheses imply them
(`SeparateActsAreOrderly`): RPC answers reach the ledger the batch is recorded
up to; an admin backfill starts at or before the recorded cursor; no backfill
overlaps a tick, and none commits before memory has noted the commit of another.
Nothing was executed.

## Model

| member | source | states |
|---|---|---|
| IndexerCoverage.SafeIffOrderly | backend/src/services/indexer.ts:440-735 | in every state of the control machine, with any number of backfills overlapping the tick and readings of the controls under way, a step keeps the coverage invariant on every chain if and only if it meets its guard; the guards speak of cursors, markers, controls, answers and the missed events only |
| IndexerCoverage.NoGapInAnyOrderlyRun | backend/src/services/indexer.ts:440-735 | in every state reached from boot by steps that meet their guards, under any interleaving of ticks, backfills, pauses, resumes, RPC failures, rollbacks and crashes, every watched event up to the recorded cursor, and up to the cursor in memory, was handed over or its contract has a pause marker strictly below it |
| IndexerCoverage.StepKeepsInv | backend/src/services/indexer.ts:440-735 | a step that meets its guard keeps the invariant: whatever the state relies on having been handed over has been |
| IndexerCoverage.RunKeepsInv | backend/src/services/indexer.ts:440-735 | the invariant holds after every run of such steps |
| IndexerCoverage.InvCovers | backend/src/services/indexer.ts:440-605 | the invariant leaves no gap behind either cursor |
| IndexerCoverage.HandsOver | backend/src/services/indexer.ts:505-586 | a step hands over exactly the chain events it fetches but those its pause checks missed |
| IndexerCoverage.TickCommitSafeIff | backend/src/services/indexer.ts:470-532 | the tick records the chain tip although it computed a capped range: that is safe, and without a gap at the cursor, for every chain if and only if the answer reaches the tip and every missed event was handed over before, is settled or is excused by a marker |
| IndexerCoverage.ReplayBatchSafeIff | backend/src/services/indexer.ts:714-735 | a replay batch is safe for every chain if and only if the answer reaches its end and each event it missed, whenever in the batch that was, had been handed over before or is settled |
| IndexerCoverage.ReplayLeavesNoGapIff | backend/src/services/indexer.ts:692-735 | the last batch of a replay followed by the clearing of the marker leaves no gap behind either cursor, on any chain, if and only if the batch meets its guard |
| IndexerCoverage.ReplayClearSafeIff | backend/src/services/indexer.ts:692-712 | clearing a marker is safe for every chain if and only if neither memory nor a reading under way takes the contract for paused and it is caught up to both cursors, to where the tick goes on, to where every backfill goes on, and to the end of those that leave it out |
| IndexerCoverage.ClearLeavesNoGapIff | backend/src/services/indexer.ts:692-712 | clearing a marker leaves no gap behind either cursor, on any chain, if and only if the contract is caught up to both |
| IndexerCoverage.BackfillSafeIff | backend/src/services/indexer.ts:538-553 | a backfill may start at a ledger on every chain if and only if that ledger is already relied on for each watched contract without a marker; at or before either cursor it always is |
| IndexerCoverage.BackfillBeyondCursors | backend/src/services/indexer.ts:538-589 | with nothing else under way a backfill and its first batch leave no gap on any chain if and only if it does not start beyond both cursors |
| IndexerCoverage.BackfillBatchSafeIff | backend/src/services/indexer.ts:555-589 | a backfill batch is safe, and without a gap at the cursor, for every chain if and only if the answer reaches its end and no missed event is lost |
| IndexerSchedules.SeparateRunsAreOrderly | backend/src/services/indexer.ts:440-735 | steps of the control machine that respect the plain hypotheses meet all guards |
| IndexerSchedules.LoweredCursorLosesEvent | backend/src/services/indexer.ts:692-712 | a run from boot in which a backfill overlapping a tick lowers the memory cursor, so that a resumed contract is not replayed, its marker is cleared and an event is neither handed nor excused |
| IndexerSchedules.StaleControlsLoseEvent | backend/src/services/indexer.ts:653-679 | a run from boot in which a backfill installs controls it had read before a contract was resumed, so that the tick leaves the contract out once it is caught up, although neither cursor goes down and nothing is missed |
| IndexerProgress.TickHandsExactly | backend/src/services/indexer.ts:440-712 | a tick without failure or other actors hands over, beyond what was handed before, exactly the events of watched contracts that are not paused, after the cursor in memory, and those of resumed contracts after their marker and up to that cursor; both cursors end at the tip, and exactly the paused contracts keep their markers |
| IndexerProgress.WholeTick | backend/src/services/indexer.ts:440-712 | the steps the tick method takes are such steps |
| IndexerProgress.BackfillHandsExactly | backend/src/services/indexer.ts:538-605 | a backfill without failure or other actors hands over every event of an active contract after its start and up to the tip, nothing at or before its start, nothing of the others and nothing beyond its answers, and leaves both cursors at the tip; with every contract paused, or nothing to fill, it does nothing |
| IndexerProgress.WholeBackfill | backend/src/services/indexer.ts:538-605 | the steps the backfill method takes are such steps |
| IndexerProgress.MarkerIsFirstPause | backend/src/api/controllers/admin.ts:440-447 | whatever follows, the marker of a paused contract is the cursor recorded at its first pause until a replay clears it |
| IndexerProgress.PausedUntilResumed | backend/src/api/controllers/admin.ts:440-447 | over any run a contract is paused if and only if the last pause or resume of it was a pause, or there was none and it was paused before |
| IndexerProgress.FailedReadingKeepsControls | backend/src/services/indexer.ts:653-679 | a reading of the controls replaces those in memory, and a failed one leaves them, in a tick and in a backfill |
| IndexerFloor.StaysAboveIff | backend/src/services/indexer.ts:332-348 | a step keeps everything fetched above the configured start block if and only if an explicit backfill starts at or above it and no contract is paused for the first time while the recorded cursor is below it |
| IndexerFloor.NothingBelowStartBlock | backend/src/services/indexer.ts:332-348 | from boot, no run of such steps hands over an event at or below the start block |
| IndexerFloor.FirstTickStartsBehind | backend/src/services/indexer.ts:339-346 | on an empty database the first tick fetches from the ledger after the start block |
| IndexerFloor.PausedBeforeFirstCommit | backend/src/api/controllers/admin.ts:440-447 | a run from boot in which a contract paused before the first commit is marked at ledger 0, and once resumed is replayed from below the start block |
| IndexerMachine.ProcessAllHands | backend/src/services/indexer.ts:607-650 | a batch hands over exactly its events but those missed, and moves neither cursor nor markers |
| IndexerWriters.WritersRunControl | backend/src/services/indexer.ts:440-760 | whatever the writers do event by event, and however they interleave, cursor, markers and memory go through a run of the control machine |
| IndexerWriters.NoGapInAnyOrderlyActs | backend/src/services/indexer.ts:607-650 | hence no gap arises event by event either, the pause being read at the check of each event |
| IndexerWriters.CloseHands | backend/src/services/indexer.ts:505-532 | ending a batch hands over its events but those that memory took for paused at their own checks |
| IndexerWriters.SlotsStayApart | backend/src/db/migrations/058_indexed_events_position_unique.sql:1-22 | however writers interleave, no two of them have uncommitted rows in one unique slot |
| IndexerInterleavings.SeparateActsAreOrderly | backend/src/services/indexer.ts:440-735 | event by event: when answers reach the ledger their batch is recorded up to, admin backfills start at or before the recorded cursor, no backfill overlaps a tick and none commits before memory has noted the commit of another, every control step meets its guard; between whatever events pauses, resumes and readings fall |
| IndexerInterleavings.NoGapWithoutOverlap | backend/src/services/indexer.ts:440-735 | hence such runs leave no gap |
| IndexerInterleavings.BlockIsStep | backend/src/services/indexer.ts:505-586 | a batch that nothing interrupts, done event by event, is one step of the control machine with the event store of that step |
| IndexerInterleavings.PlainRunIsActs | backend/src/services/indexer.ts:440-735 | every run of the control machine whose batches come one at a time is a run of the writers |
| IndexerRaces.PauseInsideLosesEvent | backend/src/services/indexer.ts:612-620 | a run from boot in which the pause check of one event falls between two readings of the controls: memory takes the contract for active when the batch ends, yet the event is neither handed over nor excused |
| IndexerExactlyOnce.SyncedIffHarmless | backend/src/services/indexer.ts:505-742 | when the guard recognises stored events: along any interleaving of tick, backfills and replays, with crashes, rollbacks and failing inserts anywhere, the history holds every published event once with its row, contains every event handed over and has the positions and the minted and burned shares as its fold, if and only if no writer publishes an event published since it looked for the row and no replay stops between handler and row |
| IndexerExactlyOnce.ActKeepsSyncIff | backend/src/services/indexer.ts:505-742 | the same for one act in any sound state |
| IndexerExactlyOnce.ApartChecksAreHarmless | backend/src/services/indexer.ts:737-742 | when no writer checks an event between the check of another and its publication, and no replay stops between handler and row, the run is harmless |
| IndexerExactlyOnce.OneAtATimeIsHarmless | backend/src/services/indexer.ts:505-586 | when batches come one at a time, a run is harmless if and only if no replay stops between handler and row |
| IndexerExactlyOnce.AppliedOnceInHarmlessRun | backend/src/services/indexer.ts:737-742 | in every harmless run, orderly or not, no event is applied twice and every event handed over is applied |
| IndexerExactlyOnce.CoveredEventsAppliedExactlyOnce | backend/src/services/indexer.ts:440-742 | in an orderly and harmless run every watched event up to the cursor occurs exactly once in the committed history, unless a marker strictly below it excuses it |
| IndexerExactlyOnce.ShareRowsAreFoldInAnyRun | backend/src/services/indexer.ts:1394-1480 | in any run at all, with clashes and any event types, positions and minted and burned shares are the fold of the handlers that ran, in the order they were committed |
| IndexerExactlyOnce.BooksAreFoldBatchByBatch | backend/src/services/indexer.ts:737-995 | while nothing interrupts a batch all the books are the fold of the handlers that ran, in their order |
| IndexerExactlyOnce.StepDelivers | backend/src/services/indexer.ts:505-586 | what a step of the control machine does to the event store is to process one batch of chain events but those missed, and nothing for all steps but the replay batch, the commit and the backfill batch |
| IndexerRaces.OverlapAppliesTwice | backend/src/services/indexer.ts:737-742 | a run from boot, without a crash and with matching types, in which a tick and a backfill both look for the row before the other commits and the event is applied twice |
| IndexerRaces.TornReplayAppliesTwice | backend/src/services/indexer.ts:714-735 | a run from boot in which a crash between handler and row makes the next tick apply the event again, whatever its types |
| IndexerRaces.FailedInsertAppliesTwice | backend/src/services/indexer.ts:628-643 | a run from boot, without a crash, in which a failing insert is swallowed and the next batch of the same replay applies the event again |
| VaultTotals.ExactIffNeverStale | backend/src/services/indexer.ts:1412-1430 | with any number of overlapping writers the total of a vault is the sum of the committed deposits all along a run if and only if nobody writes back a total that has changed since it was read |
| VaultTotals.OneAtATimeIsNeverStale | backend/src/services/indexer.ts:1412-1430 | writers that come one at a time never do |
| VaultTotals.OverlappingDepositsLoseOne | backend/src/services/indexer.ts:1412-1430 | two overlapping deposits: the one committed first is missing from the total |
| VaultTotals.RowIsLocked | backend/src/services/indexer.ts:1426-1430 | along any run at most one writer has written the row of the vault and not committed |
| IndexerObject.Indexer.Tick | backend/src/services/indexer.ts:440-536 | one tick is exactly its own steps: begin, reading and installing the controls, for each resumed contract in some order its pick, its batches until one fails and its clearing, then fetch, commit and finish as far as they get, no batch missing an event that memory does not take for paused; answers reaching the tip, it keeps the coverage invariant whatever fails; without a failure both cursors are the tip and nothing is left to replay |
| IndexerObject.Indexer.Backfill | backend/src/services/indexer.ts:538-605 | a backfill is exactly its start, its batches with their notes in memory until one fails, and its end; started at or before the cursor with answers reaching the tip it keeps the coverage invariant whatever fails; without a failure the range is done |
| IndexerObject.Indexer.BackfillBatch | backend/src/services/indexer.ts:555-603 | one backfill batch commits its events and the cursor together or changes nothing |
| IndexerRuns.JobStepRun | backend/src/services/indexer.ts:555-603 | that batch is the backfill step of the machine and its note in memory |
| IndexerObject.Indexer.FillBatches | backend/src/services/indexer.ts:555-603 | the loop tries batches while they succeed below the tip, and none after |
| IndexerObject.Indexer.ReplayResumedContracts | backend/src/services/indexer.ts:692-712 | every resumed contract is caught up once, in some order, with the stated effect on database and controls |
| IndexerRuns.ReplayStepsRun | backend/src/services/indexer.ts:692-712 | that effect is a run of exactly the replay steps of those contracts in that order |
| IndexerObject.Indexer.ReplayContract | backend/src/services/indexer.ts:714-735 | the replay loop of one contract leaves the database as its batches do and reports whether every answer arrived |
| IndexerRuns.ReplayRun | backend/src/services/indexer.ts:714-735 | those batches are a run of exactly one replay batch a call, up to the first failure |
| IndexerObject.Indexer.FetchAndCommit | backend/src/services/indexer.ts:479-532 | fetch, commit and finish of a tick are exactly those machine steps, ending at the first failure |
| IndexerObject.Indexer.ProcessEvents | backend/src/services/indexer.ts:510-513 | the event loop has the effect of the batch function, missing the events of paused contracts |
| EventStore.DeliveredExactlyOnce | backend/src/services/indexer.ts:737-742 | delivering any sequence, with any repetitions, of recognisable events to a store in order applies each new event once and leaves the fold of the applied history |
| EventStore.AppliedAreFirstOccurrences | backend/src/services/indexer.ts:737-742 | from an empty store the applied history is the sequence of first occurrences of what was delivered |
| EventStore.NeverAppliedTwiceIffRecognisable | backend/src/services/indexer.ts:737-742 | no delivery sequence applies an event twice if and only if every event is stored under the type the guard compares and no two share a unique slot |
| EventStore.UnmatchedTypeAppliedTwice | backend/src/services/indexer.ts:2341-2362 | an event stored under another type than its raw type is applied twice when delivered twice |
| EventStore.LostSlotAppliedTwice | backend/src/db/migrations/058_indexed_events_position_unique.sql:1-22 | an event whose row is lost to the unique slot of another is applied twice when delivered twice |
| EventStore.OneRow | backend/src/services/indexer.ts:973-990 | one event leaves one row with its id, contract, stored type and ledger, a claim at position (0, 0) and every other event at its own |
| EventStore.CompeteIff | backend/src/db/migrations/058_indexed_events_position_unique.sql:10-22 | of two events with different ids only the first leaves a row if and only if they are of one contract and ledger and both are claims, or one is a claim and the other at (0, 0), or neither is and their positions are equal |
| EventStore.TwoClaimsOneRow | backend/src/services/indexer.ts:973-990 | two claims of one contract and ledger with different ids leave one row, whatever their positions, and the second is applied again when delivered again |
| EventStore.SecondIsSkippedIff | backend/src/services/indexer.ts:737-742 | the second of two deliveries is skipped if and only if it has the id, contract and ledger of the first and the first was stored under the type the second arrives with |
| EventStore.CheckedBeforeIff | backend/src/services/indexer.ts:737-742 | an event whose row was looked for, and not found, before another delivery is published without a duplicate if and only if the other event is a different one |
| EventStore.OverlappingBatchesDoubleDeposit | backend/src/services/indexer.ts:571-586 | two overlapping backfill batches apply a deposit twice when the guard compares the raw type |
| EventStore.HalfThenDelivered | backend/src/services/indexer.ts:724-729 | an event whose handler ran without its row is applied again by its next delivery |
| Handlers.BookKeeper.HandleDeposit | backend/src/services/indexer.ts:1394-1430 | the deposit upsert and the vault totals are the specified update of the books |
| Handlers.BookKeeper.HandleWithdraw | backend/src/services/indexer.ts:1458-1476 | the clamped withdrawal, exit flag and totals are the specified update |
| Handlers.BookKeeper.HandleYieldDistributed | backend/src/services/indexer.ts:1525-1540 | the first epoch row and one snapshot per holder are inserted, existing ones kept |
| Handlers.BookKeeper.HandleYieldClaimed | backend/src/services/indexer.ts:1735-1751 | the claim is added to the snapshot, created with zero shares when missing |
| Handlers.BookKeeper.ProcessBody | backend/src/services/indexer.ts:744-995 | an event changes the books as its handlers do, the distribution handler running twice |
| Accounting.ShareConservation | backend/src/services/indexer.ts:1398-1476 | after any run the shares held in a vault are what was held before plus ever minted minus ever burned plus what the zero clamp absorbed |
| Accounting.RunStaysSound | backend/src/services/indexer.ts:1402-1472 | shares never become negative, and with positive deposits the exit time is set exactly when shares are zero |
| Accounting.SoundAfterIff | backend/src/services/indexer.ts:1398-1476 | one event keeps signs and exit flag right if and only if, when it is a deposit, it leaves the user with shares and no negative deposit total |
| Accounting.SoundThroughoutIff | backend/src/services/indexer.ts:1398-1476 | a whole run from sound books is sound at every point if and only if each of its deposits does so at its point |
| Accounting.ZeroDepositBreaksExitFlag | backend/src/services/indexer.ts:1402-1409 | a deposit of no shares by a user without a position leaves a holder with no shares and no exit time, from any sound books |
| Accounting.BalanceIsSignedSumPlusAbsorbed | backend/src/services/indexer.ts:1398-1476 | each balance is the signed sum of its events plus what the clamp absorbed at that key |
| Accounting.DepositedIsAssetSumPlusAbsorbed | backend/src/services/indexer.ts:1398-1472 | over any run from any books the deposit total of a key is what it was, plus the assets deposited, minus the assets withdrawn, plus what the clamp absorbed at each point |
| Accounting.VaultTotalsAreSums | backend/src/services/indexer.ts:1412-1476 | over any run the totals of a vault are what they were plus the assets deposited, the shares minted and the shares burned; withdrawals leave the assets alone |
| Accounting.SecondCallIsIdle | backend/src/services/indexer.ts:793-822 | the second call of the distribution handler for one event changes nothing |
| Accounting.SnapshotIsFrozen | backend/src/services/indexer.ts:1533-1540 | once a snapshot row exists its shares never change, whatever follows |
| Accounting.SnapshotIsBalanceAtDistribution | backend/src/services/indexer.ts:1525-1540 | with the first distribution of an epoch at i and whatever else in the log, the snapshot equals the shares held just before i if and only if, for a holder, no claim came first, and, for a user who held exactly none, no later distribution found shares before any claim |
| Accounting.SecondDistributionRecordsLateHolder | backend/src/services/indexer.ts:1533-1540 | a second distribution of the same epoch snapshots a holder who arrived after the first |
| Accounting.ClaimedIsSumOfClaims | backend/src/services/indexer.ts:1735-1751 | the claimed total of a snapshot is the sum of the claims of that epoch |
| Accounting.EpochRowIsFirst | backend/src/services/indexer.ts:1525-1530 | the epoch row keeps the amount of the first distribution |
| Accounting.OthersUntouched | backend/src/services/indexer.ts:1394-1751 | a run changes no row of a vault without events in it, and no row at all of a contract that has no vault |
| Toid.ToDoubleIsNearest | backend/src/services/indexer.ts:202-210 | the modelled conversion yields a 53-bit floating-point number and none is nearer to the id |
| Toid.TxIndexExactIff | backend/src/services/indexer.ts:206-210 | for every operation id below 2^63 the transaction index comes back if and only if the operation index plus half the spacing of doubles stays below 4096; otherwise it is that of the next transaction |
| Toid.SafeUpTo3583 | backend/src/services/indexer.ts:206-210 | every operation index up to 3583 is unpacked exactly |
| Toid.TightAt3584 | backend/src/services/indexer.ts:206-210 | from 3584 on, every id from 2^62 on is placed in the next transaction and collides with its first operation |
| Toid.ExactBelowTwoTo53 | backend/src/services/indexer.ts:206-210 | below ledger 2^21 unpacking is exact for every operation index |
| Rebuild.RebuildPositions | backend/src/scripts/rebuild-positions.ts:87-177 | the four loops build the phase-by-phase table |
| Rebuild.RebuiltBalance | backend/src/scripts/rebuild-positions.ts:87-177 | every rebuilt balance is deposits minus withdrawals plus transfers in minus transfers out plus exactly the debits dropped on unknown keys; the deposit total likewise |
| Rebuild.RebuiltIsSignedSumIffComplete | backend/src/scripts/rebuild-positions.ts:116-177 | with positive debits all balances equal the signed sums if and only if every withdrawing user has deposited and every transfer sender has deposited or received earlier |
| Rebuild.OrderInsideStreamsIsIrrelevant | backend/src/scripts/rebuild-positions.ts:75-177 | permuting deposits, withdrawals and refunds within their streams changes no balance, deposit total or row, on any log |
| Rebuild.OrderMattersByDroppedTransfers | backend/src/scripts/rebuild-positions.ts:75-177 | permuting all four streams moves a balance by exactly the difference in the transfer debits dropped, and no deposit total |
| Rebuild.CompleteLogsReorder | backend/src/scripts/rebuild-positions.ts:157-177 | between complete logs the order of transfers does not matter either |
| Rebuild.TransfersConserve | backend/src/scripts/rebuild-positions.ts:157-177 | transfers change a vault total by exactly the debits dropped |
| Rebuild.LastLedgerIsOfLastPhase | backend/src/scripts/rebuild-positions.ts:87-176 | on every log the recorded ledger is that of the last event, in the last phase with any, that touches the row |
| Rebuild.LastLedgerIsNewestIff | backend/src/scripts/rebuild-positions.ts:75-176 | with streams in ledger order the recorded ledger, the last one of the last phase that touches the row, is the newest that touches it if and only if no earlier phase ends later |
| Rebuild.LastLedgerIsNotNewest | backend/src/scripts/rebuild-positions.ts:98-176 | a transfer at ledger 5 overwrites a deposit at ledger 9 |
| Agreement.Difference | backend/src/scripts/rebuild-positions.ts:87-122 | on every log rebuilt minus indexed balance is the withdrawals the rebuild drops minus what the indexer clamp absorbs |
| Agreement.ImplementationsAgreeIff | backend/src/services/indexer.ts:1398-1476 | without negative withdrawals the two balances of a key agree if and only if no withdrawal overdraws it at its point or nobody ever deposited into it; otherwise the indexer shows more, by exactly what its clamp absorbed |
| Agreement.OverdraftDisagrees | backend/src/services/indexer.ts:1462-1472 | after depositing 5 and withdrawing 8 the rebuild says −3 and the indexer 0 |
| FilterTree.ValidIff | backend/src/services/vault.ts:67-96 | validation accepts exactly the well-formed trees of depth at most three, counting from the given depth |
| FilterTree.ReportsFirstError | backend/src/services/vault.ts:67-96 | validation reports the error of the first node in preorder that has one: too deep, an unknown field, an operator or value that does not fit, an empty group |
| FilterTree.Bindings.ApplyFilterTree | backend/src/services/vault.ts:108-169 | the recursive translation returns the specified fragment and next index and appends exactly the tree's values to the shared parameters; it throws exactly for a leaf it cannot translate |
| FilterTree.FragmentReads | backend/src/services/vault.ts:108-169 | whatever follows it, a parser with AND tighter than OR reads a fragment back as the tree's own expression, or refuses it exactly when the expression is undefined |
| FilterTree.MeaningHolds | backend/src/services/vault.ts:108-169 | that expression is TRUE in three-valued logic under the bound parameters exactly when the tree holds with NULL comparisons false |
| FilterTree.FragmentMeansTree | backend/src/services/vault.ts:108-169 | for every valid tree the fragment is accepted if and only if no `in` list is empty, and then selects exactly the rows the tree holds of |
| FilterTree.ParenthesesAreNeeded | backend/src/services/vault.ts:159-168 | without the emitted parentheses the same tokens select a row the tree does not hold of |
| Sql.JoinedByAnd | backend/src/services/vault.ts:695-695 | conditions joined by AND are read as their conjunction, and refused exactly when one is |
| Sql.JoinedByOr | backend/src/services/vault.ts:167-168 | parts joined by OR are read as their disjunction, and refused exactly when one is |
| Sql.AndBindsTighter | backend/src/services/vault.ts:167-168 | a OR b AND c is read as a OR (b AND c) |
| VaultList.QueryBuilder.BuildVaultListFilters | backend/src/services/vault.ts:426-464 | each filter given, and no other, adds its condition with the next placeholder and its value |
| VaultList.QueryBuilder.AddTree | backend/src/services/vault.ts:672-677 | the tree continues the numbering and leaves the index on the last placeholder used |
| VaultList.ListVaults | backend/src/services/vault.ts:662-780 | the page query and, without a cursor, the count query have the specified condition and parameters |
| VaultList.PlaceholdersInOrder | backend/src/services/vault.ts:662-742 | read left to right the placeholders are 1, 2, … n for the n parameters, and those of LIMIT and OFFSET denote the fetch size and the offset |
| VaultList.WhereSelects | backend/src/services/vault.ts:662-780 | both queries are accepted if and only if no `in` list is empty, and then TRUE of exactly the rows that pass each filter given, are neither archived nor unlisted, satisfy the tree and lie strictly after the cursor |
| VaultList.FiltersHoldIff | backend/src/services/vault.ts:426-464 | the row filters together hold exactly when each filter that is present and not empty holds, a missing column failing it |
| Keyset.ParseVaultSort | backend/src/services/vault.ts:284-335 | the sort parameter is accepted if and only if it has at most three valid entries and no field twice; then there is one specification an entry, in order, of the column printed with that name and in the direction written, or the default one |
| Keyset.AcceptedIff | backend/src/services/vault.ts:284-335 | that is so if and only if each entry says some column and direction and no two name one column |
| Keyset.PrintReadsBack | backend/src/services/vault.ts:284-335 | printed specifications, defaults filled in, read back as themselves and nothing else, whatever the default order |
| Keyset.FirstColumnDecides | backend/src/services/vault.ts:624-631 | two rows that differ in the first named column are listed in the direction written with it |
| Keyset.FeaturedFirst | backend/src/services/vault.ts:629-631 | in the default order featured vaults come first, by rank; among the others the columns decide |
| Keyset.TiebreakerIs | backend/src/services/vault.ts:633-720 | the order of the cursor query is the order by the columns, ties broken by id in the direction of the first |
| Keyset.ListingUniqueIff | backend/src/services/vault.ts:713-741 | without a cursor there is one order a query may return, if and only if no two neighbours tie on every column sorted by |
| Keyset.TrimPage | backend/src/services/vault.ts:747-757 | the extra row is dropped and the last row kept gives the next cursor |
| Keyset.WalkIsPrefix | backend/src/services/vault.ts:697-757 | after n requests the client holds exactly the first n·pageSize rows after its cursor, and is sent on exactly while more remain |
| Keyset.CompleteIffSeparate | backend/src/services/vault.ts:679-757 | listed by created_at alone, a table is paged without loss or repetition from every cursor and at every page size if and only if each row but the last is behind its own cursor and its successor after it |
| Keyset.WholeMillisecondsSeparate | backend/src/services/vault.ts:679-693 | whole-millisecond timestamps give that condition |
| Keyset.MicrosecondsLoop | backend/src/services/vault.ts:749-754 | two rows inside one millisecond send an ascending client round for ever |
| Keyset.OnlyCreatedAtPages | backend/src/services/vault.ts:629-693 | following the cursor is complete for every whole-millisecond table if and only if the sort is an explicit created_at alone; a second field, another first field and the default featured order each lose rows |
| ListPaging.AfterCursorIsAfter | backend/src/services/vault.ts:679-693 | the row comparison of the WHERE condition, created_at being compared as microseconds with milliseconds, is the order the paging follows |
| ListPaging.PageFetchesAfterCursor | backend/src/services/vault.ts:662-745 | for every listing in its order, the rows the page statement selects are exactly the rows after the cursor among those that pass filters, flags and tree |
| ListPaging.PageReturns | backend/src/services/vault.ts:697-741 | the page statement returns the first pageSize + 1 rows under a cursor and otherwise the pageSize rows after those of the earlier pages |
| ListPaging.PagesFit | backend/src/services/vault.ts:713-741 | the numbered pages of one listing, one after the other, are the listing: no row is left out or shown twice |
| ListPaging.ListPage | backend/src/services/vault.ts:745-757 | what is fetched under LIMIT and OFFSET and trimmed is the page of the paging over the rows that pass |
| Webhooks.DeliveryService.ProcessWebhookDelivery | backend/src/services/webhookWorker.ts:23-112 | one queued delivery is one step of the delivery machine, for every outcome |
| Webhooks.DeliveryService.RecordFailure | backend/src/services/webhookWorker.ts:114-170 | a failure raises the counter, opens the circuit at five and creates or advances the delivery row |
| Webhooks.DeliveryService.ProcessRetries | backend/src/services/notifications.ts:288-370 | a scan over due rows is a run of retry steps against the state each one finds |
| Webhooks.NotifyQueuesIff | backend/src/services/notifications.ts:122-184 | a first attempt is queued for exactly the listed webhooks that are active with a closed circuit, once each time they are listed |
| Webhooks.RetryEscalatesIff | backend/src/services/notifications.ts:422-437 | a retry adds one job without a delivery for the fallback of the row's webhook when it brings the row to its last attempt undelivered, and no job otherwise |
| Webhooks.EscalationsAreUsedUpRows | backend/src/services/notifications.ts:288-437 | over any run the jobs that retries add for a webhook are one for its fallback for each of its rows used up, and none without a fallback |
| Webhooks.RetriedIff | backend/src/services/notifications.ts:288-330 | a refused retry changes something if and only if the row is undelivered, has attempts left and its webhook is active with a closed circuit |
| Webhooks.DeliveredIsNeverRetried | backend/src/services/notifications.ts:297-306 | a delivered row stays so and is never selected again, at any later time |
| Webhooks.RowCountsItsTries | backend/src/services/webhookWorker.ts:114-170 | over any run a row has as many attempts more as tries for it failed, and is delivered if and only if it was or one of them was |
| Webhooks.NewRows | backend/src/services/webhookWorker.ts:114-170 | rows are added exactly by a failed first attempt and by a replay, each with attempt 1; a replay queues a job for its own row |
| Webhooks.CircuitOpensAtFiveInARow | backend/src/services/webhookWorker.ts:114-170 | over any run the failure counter is the number of failures since the last success, and the circuit is open if and only if five came in a row |
| Webhooks.WorkTakesItsJob | backend/src/services/webhookWorker.ts:23-112 | a worker takes its job off the queue and leaves the others in order; only a network error under a closed circuit may put it back |
| Webhooks.RequestsAreTries | backend/src/services/webhookWorker.ts:57-112 | a webhook is sent exactly its tries but those that fail the URL check |
| Webhooks.ReplayedIff | backend/src/api/controllers/admin.ts:943-984 | a replay is made if and only if the row exists and the circuit of its webhook is closed |
| Webhooks.RunSpends | backend/src/services/notifications.ts:288-437 | over any run, network attempts are paid from a budget that successes and replays refill by fixed amounts |
| Webhooks.AttemptsAreBounded | backend/src/services/notifications.ts:288-437 | from a fresh system a webhook receives at most 25 attempts, 25 more for each success and 5 for each replay, for any number of events and any fallback links |
| Webhooks.TotalAttemptsAreBounded | backend/src/services/notifications.ts:422-437 | without success or replay all webhooks together receive at most 25 attempts each, even when fallbacks form a cycle |
| Webhooks.TwentyFiveIsReached | backend/src/services/webhookWorker.ts:114-170 | a run spends all 25 |
| Tiers.Group | backend/src/services/notifications.ts:163-168 | each priority in use has its webhooks in their order |
| Tiers.Dispatch | backend/src/services/notifications.ts:160-184 | the dispatch order is the stable sort by priority, and the order of the query when that is sorted already |
| Tiers.StableSortIsUnique | backend/src/services/notifications.ts:160-184 | sorted by priority with every tier in its order there is only one sequence |
| EpochAnomaly.VerdictIsInteger | backend/src/services/epochAnomaly.ts:119-125 | for every non-empty sample the flat and non-flat SQL branches together are the integer test (n·y−S)² > 9·(n·Q−S²) |
| EpochAnomaly.FlatIffConstant | backend/src/services/epochAnomaly.ts:90-93 | the scaled variance is never negative and zero exactly when all yields of the window are equal |
| EpochAnomaly.FlatWindowFlagsAnyOther | backend/src/services/epochAnomaly.ts:121-122 | in a flat window a yield is flagged exactly when it differs |
| EpochAnomaly.ClosingEntersSample | backend/src/services/epochAnomaly.ts:97-118 | an epoch that closes enters the sample of an epoch of its vault if and only if it is one of the thirty before it |
| EpochAnomaly.FlaggedIff | backend/src/services/epochAnomaly.ts:97-125 | an epoch is flagged if and only if it is closed, seven or more epochs are in its sample and the SQL verdict over them says so |
| EpochAnomaly.RecordedIffFlagged | backend/src/services/epochAnomaly.ts:97-148 | after any schedule exactly the epochs that some scan found flagged are recorded |
| EpochAnomaly.RecordedByFirstScan | backend/src/services/epochAnomaly.ts:126-148 | each with the yield and the sample the first of those scans saw |
| EpochAnomaly.EpochAnomalyService.ScanAndRecord | backend/src/services/epochAnomaly.ts:97-148 | a scan inserts exactly the flagged epochs not yet recorded and keeps the rest |
| EpochAnomaly.IndependentIffHarmless | backend/src/services/epochAnomaly.ts:80-84 | whatever the yields and wherever the scans, the same epochs are flagged in the end, and the same rows stored, if and only if no epoch closes into the window of a closed epoch that already has a full sample |
| EpochAnomaly.IncreasingIsHarmless | backend/src/services/epochAnomaly.ts:80-84 | closing each vault's epochs in increasing order is enough |
| EpochAnomaly.LateEpochMatters | backend/src/services/epochAnomaly.ts:80-84 | closing epochs 1 to 8 and then 0 is not such an order: with some yields a scan in between flags an epoch that the last scan alone does not |
| Projection.GetCompoundProjection | backend/src/services/vault.ts:1975-2035 | null exactly without epochs; otherwise the formatted value and gain of the compounded mean yield |
| Projection.MeanYieldTrails | backend/src/services/vault.ts:1997-2011 | for yields that are not negative the mean compounded is at most the true mean yield per share and less than two units of its last decimal below it |
| Projection.MeanYieldIsOdd | backend/src/services/vault.ts:1997-2011 | losses mirror gains |
| Projection.CompoundedBounds | backend/src/services/vault.ts:2013-2015 | after n epochs value·D^n lies between p·(D+r)^n minus (D−1)·Σ(D+r)^(n−1−i)·D^i and p·(D+r)^n |
| Projection.GeometricClosed | backend/src/services/vault.ts:2013-2015 | the sum in the bound times the yield is (D+r)^n − D^n |
| Projection.BoundIsReached | backend/src/services/vault.ts:2013-2015 | the shortfall reaches the bound |
| Projection.MonotoneInPrincipal | backend/src/services/vault.ts:2013-2015 | a larger holding never projects to less |
| Projection.AtLeastSimpleInterest | backend/src/services/vault.ts:2013-2015 | with a yield not negative the value grows with every epoch by at least the first epoch's simple interest |
| Projection.OddInPrincipal | backend/src/services/vault.ts:2013-2015 | the projection of a negative amount mirrors that of its opposite |
| Projection.FormatReadsBackIff | backend/src/services/vault.ts:2019-2029 | the text reads back as the value if and only if the value is not negative or at most −10^18 |
| Redemption.Solvent | backend/src/services/vault.ts:1249-1252 | holders whose shares do not exceed the supply redeem at most the vault's assets in all |
| Redemption.NothingLeftBehind | backend/src/services/vault.ts:1249-1252 | holders of the whole supply redeem all assets but at most one unit each |
| Redemption.FeeRoundsUp | backend/src/services/vault.ts:1254-1255 | fee plus net is gross, and the fee is the exact fee rounded up |
| Redemption.FeeOutOfRange | backend/src/services/vault.ts:1247-1255 | on a gross of 10000 or more the net stays between zero and gross if and only if the rate is between 0 and 10000 |
| Redemption.SplittingNeverGains | backend/src/services/vault.ts:1249-1255 | redeeming in parts never raises the total net, and loses at most two units for every further part |
| Redemption.TwoUnitsLost | backend/src/services/vault.ts:1249-1255 | two units can be lost at once |
| Redemption.PerShareTrails | backend/src/services/user.ts:740-741 | the per-share valuation never exceeds the pro-rata one and trails it by fewer than `shares` units; without supply both are zero |
| Redemption.PortfolioTrails | backend/src/services/user.ts:752-755 | a whole portfolio trails by fewer units than it has shares |
| Redemption.PreviewsExceedPortfolio | backend/src/services/vault.ts:1249-1252 | over a portfolio the previews promise more than the portfolio is valued at by exactly the shares held in vaults without supply, so that both agree if and only if there are none |
| Sse.SseManager.BroadcastVaultEvent | backend/src/services/sseManager.ts:195-220 | an event gets the next id, enters the bounded buffer and reaches exactly the clients that want its vault |
| Sse.SseManager.AddVaultClient | backend/src/services/sseManager.ts:64-95 | a client receives exactly the buffered events above its last id, vault by vault, and is registered |
| Sse.SseManager.ReplayMissedVaultEvents | backend/src/services/sseManager.ts:117-135 | the replay loop writes exactly the buffered events above the id, vault by vault |
| Sse.RunKeepsHubOk | backend/src/services/sseManager.ts:195-235 | after any run buffer ids strictly increase, are a suffix of the vault's history within the buffer size, and never exceed the counter, warm-ups included |
| Sse.ReachableHubOk | backend/src/services/sseManager.ts:195-235 | so it is in every state reached from a fresh process |
| Sse.ReachableOrderOk | backend/src/services/sseManager.ts:195-212 | in every such state the replay order lists exactly the vaults with a buffer, each once |
| Sse.ReplayThenLive | backend/src/services/sseManager.ts:64-216 | a client with any filter, or none, that stays has received of each vault it gets the replay followed by every live event, and nothing of the others; one without a last id gets live events alone |
| Sse.GoneStaysGone | backend/src/services/sseManager.ts:97-108 | a client that disconnects is gone for good and its number is not given again |
| Sse.WarmedIdsAreNew | backend/src/services/sseManager.ts:227-235 | once a counter is warmed up to a persisted id every later event of the vault has a larger one |
| Sse.ReceivedIsReplayThenLive | backend/src/services/sseManager.ts:93-216 | what a one-vault client has received is its replay followed by the later live events |
| Sse.ReconnectIsGaplessIff | backend/src/services/sseManager.ts:117-216 | it is exactly the vault's events above its last id, in order, each once, if and only if no evicted event is above that id and no live one at or below it |
| Sse.ReconnectInWindowIsGapless | backend/src/services/sseManager.ts:117-216 | it is so for every last id between the last evicted one and the counter, warm-ups included |
| Sse.ReconnectServesIff | backend/src/services/sseManager.ts:117-216 | a client of any set of vaults, or of all, that had seen each up to some id and reconnects with one id gets of every vault exactly the later events, in order and each once, if and only if for each vault nothing above what was seen is evicted, no buffered event lies between the two ids on either side, and live events are above what was seen |
| Sse.UnfilteredReconnectServesIff | backend/src/services/sseManager.ts:125-216 | the same for a client without a filter or with an empty one in every state reached from a fresh process, over all vaults |
| Sse.TwoVaultsReconnectLosesEvent | backend/src/services/sseManager.ts:117-135 | a run from a fresh process: a client of two vaults receives one event of the first, disconnects, reconnects with its id, and an event the second had meanwhile reaches neither connection |
| RpcLimiter.RpcSemaphore.Acquire | backend/src/services/rpcLimiter.ts:25-44 | acquire grants or queues as the specified step |
| RpcLimiter.RpcSemaphore.Release | backend/src/services/rpcLimiter.ts:49-56 | release hands over to the first waiter, whose callback decrements again, or frees a permit |
| RpcLimiter.SemaphoreLaw | backend/src/services/rpcLimiter.ts:25-56 | in every reachable state in-flight never exceeds permits, waiters are served first come first served, and as written in-flight plus available is permits minus hand-overs |
| RpcLimiter.IntendedSemaphoreConserves | backend/src/services/rpcLimiter.ts:49-56 | without the decrement in-flight plus available is permits and a waiter exists only when nothing is available |
| RpcLimiter.IdleSemaphoreGrantsIff | backend/src/services/rpcLimiter.ts:25-29 | with nobody in flight an acquire is granted if and only if fewer permits leaked than exist |
| RpcLimiter.DeadForever | backend/src/services/rpcLimiter.ts:25-56 | once nothing is available and nobody in flight no later acquire is ever granted |
| RpcLimiter.DeadStateIsReachable | backend/src/services/rpcLimiter.ts:38-56 | for every number of permits such a state is reached by acquires and releases alone |
| LedgerEstimator.LedgerToTimestamp | backend/src/services/ledgerEstimator.ts:33-76 | null exactly outside the anchors, otherwise the interpolated estimate |
| LedgerEstimator.ExactAtAnchors | backend/src/services/ledgerEstimator.ts:68-70 | at an anchor the estimate is the anchor's time |
| LedgerEstimator.MonotoneIffOrdered | backend/src/services/ledgerEstimator.ts:72-75 | estimates are monotone across all segments if and only if the anchors are ordered in time as in ledger |
| LedgerEstimator.ErrorBound | backend/src/services/ledgerEstimator.ts:72-75 | if ledgers close within [least, most] the error k ledgers into a segment of n is at most (most−least)·k·(n−k)/n plus half a millisecond |
| LedgerEstimator.TenSecondsIff | backend/src/services/ledgerEstimator.ts:29-31 | between anchors 1000 ledgers apart the stated ±10 s hold for every such segment if and only if most − least is at most 40 ms |
| LedgerEstimator.AnchorTable.RecordAnchorsIfNeeded | backend/src/services/indexer.ts:2409-2425 | exactly the positive multiples of 1000 in the range are written, each with the close time of the first event of that ledger that carries one, or the present time; other rows stay |

## Left out

- Event decoding: the model starts from typed events; the parse functions, the
  fallback to `transactionIndex` and the splitting of event id strings are not
  part of it.
- RPC: an answer holds all matching events up to some ledger, or the call fails;
  retries, endpoint failover and pagination of `getEvents` are not modelled.
- Indexer: the watch set is fixed, so a vault created inside a batch is not
  picked up; state-only mode, an empty watch set, shutdown order, tuning of the
  batch size (any size may occur), tracing and metrics are left out, and so are
  the allow-list of event types and dead letters: an event whose handler throws
  counts as handed, and what it did before throwing is not modelled.
- IndexerExactlyOnce.SyncedIffHarmless: a handler is one act, so a crash between
  two of its statements is not modelled; positions and minted and burned shares
  change in single statements, but `total_assets`, epochs and snapshots are read
  before they are written, so under overlap their fold is not claimed
  (`VaultTotals` has the first); handlers that wait for a row lock are not told
  from those that run later.
- IndexerExactlyOnce.BooksAreFoldBatchByBatch: says all the books are the fold
  only where nothing interrupts a batch, for the same reason.
- IndexerSchedules.SeparateRunsAreOrderly: backfills may overlap each other only
  if none commits before memory has noted the commit of another, which is where
  the recorded cursor can run ahead of the one in memory.
- Handlers: settlement, refunds, fees, TVL snapshots, notifications and
  `last_claimed_epoch`; the second `yield_distributed` row insert is folded into
  one.
- Rebuild: its SQL names columns (`data`, `ledger_sequence`, `share_balance`)
  that the schema does not have, so the four loops are modelled over typed
  streams; the write-back and the dry run are left out.
- VaultList.WhereSelects: the comparison of a column with a bound value is a
  parameter, so PostgreSQL's typing of untyped parameters, collations and cast
  errors are not decided here; the text is tokens rather than characters.
- Keyset: the base64url JSON of a cursor (one with an invalid date throws), the
  cache in front of the list, and rows inserted or updated between two requests.
- FilterTree.Bindings.ApplyFilterTree: says nothing of the parameters already
  pushed when the translation throws; trees are objects with the declared keys.
- Webhooks.AttemptsAreBounded: deliveries are serial steps, although the failure
  counter is a non-atomic read and write; an operator's circuit reset is not a
  step; queue retries of a thrown job appear as a requeue flag.
- Tiers: email delivery, payload formats and user opt-outs.
- EpochAnomaly: the exact root stands for STDDEV_POP's numeric precision, and
  the stored mean, deviation and z-score are represented by the integers that
  determine them.
- Projection.MeanYieldTrails: counts epochs without shares in the divisor, as the
  source does; with yields of both signs the distance to the true mean is not
  bounded.
- Redemption: portfolio totals parsed through a double are taken as exact
  integers, as are percentages and `shareOfVault`.
- LedgerEstimator: interpolation is exact before rounding, where the source
  uses doubles.
- Sse: heartbeats, indexer and webhook streams, and ids a restarted process may
  reuse before warm-up resolves.
- RpcLimiter: statistics and logging.
- Archival, pruning, caches, feature flags, HTTP routing, authentication and the
  on-chain contracts, which would add only easy members or rest on code not
  modelled.
