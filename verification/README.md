# Polymarket C++ client: verification model

This project models the parts of the client library whose correctness its own code decides, and proves what they
promise. There are four components.

**Event indexer.** `LiveSections` gives every critical section over the shared live state as a function, and
`LiveProtocol` interleaves them: transport callbacks, `start_live`, the delivery thread, the reconciliation thread,
`stop` and the destructor, one critical section a step. A ledger follows every live log the current generation
accepted. `LiveProofs` proves what holds over all runs, `LiveLosses` exactly which steps and which runs keep a recovery
owed for every loss, `LiveTheorems` what this means for a log. `LiveOrder` proves in which order jobs and live logs
come through the queues, and `LiveSignals` what becomes of announced heads, of gaps in the stream and of callbacks
after `stop`; both are told from the steps of a run, not from what the sections do to the state. `LiveStates` is the
class whose methods perform the sections field by field, and its `RunThreads` takes an object through any run of the
protocol. `CursorStore`, `Chain`, `Deliveries`, `Lifecycle`, `ScanCoverage`, `DeliveredTable`, `GapWindow` and
`Indexing` model the durable cursor, the scans, the delivered-log table and gap reconciliation as a class with a ghost
trace of the consumer's callbacks. Between any two actions of a scan other threads may call `start_live`, `stop` or the
destructor, the process may die, and a callback may throw; what the contracts say about the saved entry holds wherever
the scan ends, so they cover crashes. A process that the environment leaves alone (`calm`) completes. `Processes`
strings whole processes together, each calling `catch_up` or `start_live`, and `Recovery` carries out the recoveries of
the protocol with the indexer's own reconciliation.

**Order amounts and market depth.** `Arithmetic`, `OrderAmounts`, `DepthArithmetic`, `MarketDepth` and `DepthEstimate`
model the 64-bit fixed-point arithmetic after a decimal has become an integer: amounts count units of the size
decimals, prices and sizes count millionths.

**Oracle history.** `OracleEvents`, `OracleHistory`, `OracleDashboard` and `OracleCounter` model the projection of
resolution events that arrive in any order, repeat, are removed and are compacted.

**Codecs.** `Digits` and `HexText` hold positional notation; `Uint256`, `EvmWords`, `Abi`, `AbiArray`, `Rlp`,
`Transaction` and `Base64` model the encoders and parsers. The decoders for ABI and RLP are part of this project; the
library has encoders only.

Hypotheses that several results share: a block hash fixes its block number, and a block's logs have distinct identities
at increasing positions (`Chain.WellFormed`); fetching logs returns exactly the logs of the range in any order
(`Chain.GetLogs`).

Where the code does not do what its documentation or a reader would expect, the model follows the code, a lemma gives
the run or input that shows it, and another gives the exact condition:

- A scan does not ask whether a log was delivered. If its generation is read after the destructor began, the destructor
  can end delivery under that generation, and the scan saves the positions of logs nobody received
  (`Processes.LateReadLosesAll`); coverage is kept exactly when that does not happen (`Processes.CoverageKeptIff`),
  which is certain exactly when the generation is read in time (`Lifecycle.ReadInTimeIff`, `Processes.RunLives`).
- A `drain_live_buffer` that outlives its generation takes or discards what the next generation buffered, and no
  recovery is owed for it (`LiveTheorems.OverlappingStartsOweNothing`, `LiveTheorems.DrainKeepsLossesOwedIff`). Such a
  log is late until the confirmed catch-up reaches its block (`Processes.LaterHeads`). Before the destructor no other
  step leaves a loss unowed (`LiveLosses.OnlyStaleDrainsAreUnsafe`).
- A `start_live` that begins behind the destructor drops what arrives once delivery has ended, and nothing is owed
  (`LiveTheorems.LateStartOwesNothing`). Exactly which steps, and exactly which runs, keep every loss owed is stated
  for all of them (`LiveLosses.StepKeepsLossesOwedIff`, `LiveTheorems.LostLogsAreOwed`).
- A `start_live` that begins behind the destructor goes through, and the shutdown of the reconciliation worker then
  opens the live gate while a recovery is owed (`LiveTheorems.WorkerShutdownOpensGate`); until that shutdown the gate
  holds in every run (`LiveTheorems.LiveJobsWaitForRecovery`).
- `stop` while a head waits for the worker forgets the head but leaves the live gate closed: a live log of the next
  subscription waits until the next head, with nothing owed (`LiveTheorems.GateStaysClosed`,
  `LiveTheorems.LiveJobStaysIff`).
- A failed overlap recovery that a plain new head retries does not refresh the head, and scans confirmed blocks only
  (`LiveTheorems.ConfirmedRetryLeavesALog`, `LiveTheorems.RecoverySettlesIff`,
  `LiveTheorems.ConfirmedRetryFollowsFailure`).
- `reconcile_gap` moves the saved cursor over blocks nobody read when it stood below the window
  (`GapWindow.LongOutageSkipsBlocks`, `GapWindow.GapSkipsNoBlockIff`).
- A checkpoint can forget what the recovery of a lower head compares with the chain
  (`DeliveredTable.NextWindowIsSpared`, `DeliveredTable.PruneSparesIff`).
- The market-depth estimate can spend a whole budget that it reports as not fully fillable
  (`DepthEstimate.SpendingAllIsNotFullyFillable`, `DepthEstimate.SpentMeansFillableIff`).
- When the number of compacted oracle events is a positive multiple of 2^32 the counter of the base reads zero, and all
  of them are forgotten: the state is the fold over the retained events alone
  (`OracleCounter.CounterWrapForgetsHistory`), and there is none when nothing is retained
  (`OracleCounter.CounterWrapDropsState`, `OracleDashboard.StateIsMissingIff`). With any other number the state is the
  fold over all events (`OracleCounter.StateIsFoldIff`).
- `parse_uint256_word` reads texts such as `0xx12` (`Uint256.StrayPrefixIsRead`, `Uint256.StrayPrefixIff`).

## Model

| member | source | states |
|---|---|---|
| LiveStates.LiveState.DispatchLog | src/evm_event_dispatch.cpp:38-103 | a full live queue is emptied and a recovery becomes owed in the same section |
| LiveStates.LiveState.DrainLiveBuffer | src/evm_live_handoff.cpp:24-83 | one round of the drain: take the gap, queue the whole buffer in order, or end buffering and release the head |
| LiveStates.LiveState.PopDelivery | src/evm_event_dispatch.cpp:104-143 | the first historical job if there is one; the first live job only when there is none and no refresh and no reconciliation is pending; nothing once delivery has ended |
| LiveStates.RunThreads | src/evm_live_handoff.cpp:24-297 | the methods the threads call, in any interleaving, take the object through that run of the protocol; its gate and handoff rules hold at the end, and its queues hold what was appended and not yet taken, in order |
| LiveProofs.BalanceStep | src/evm_live_handoff.cpp:24-83 | every step of every thread keeps the ledger balanced: each accepted log is in exactly one place |
| LiveProofs.DisciplineStep | src/evm_live_handoff.cpp:115-190 | every step, overlapping calls included, keeps the live gate, the handoff rules and the repairs in running hands |
| LiveProofs.BoundStep | src/evm_event_dispatch.cpp:54-83 | no job or thread ever carries a generation newer than the current one |
| LiveProofs.EveryRunKeepsEveryLog | src/evm_live_handoff.cpp:24-190 | every state of every run satisfies all of these |
| LiveProofs.OwnerStep | src/evm_event_indexer.cpp:95-166 | every step, overlapping calls included, leaves a running call of start_live behind every buffer |
| LiveLosses.StepKeepsLossesOwedIff | src/evm_live_handoff.cpp:24-190 | in every run: a step from a state in which a recovery is owed for every loss keeps that so exactly when its guard holds; only drain, dispatch and the two shutdowns have one |
| LiveLosses.OnlyStaleDrainsAreUnsafe | src/evm_live_handoff.cpp:31-57 | in every run: until the destructor begins only the drain of an older generation can leave a loss unowed |
| LiveLosses.RunKeepsLossesOwedIff | src/evm_live_handoff.cpp:24-190 | a run owes a recovery for every loss in all its states exactly when each of its steps meets its guard |
| LiveLosses.SerialStep | src/evm_event_indexer.cpp:95-166 | a start_live that follows the earlier calls and precedes the destructor never meets an older one, and nothing is accepted behind the destructor |
| LiveLosses.SerialRunsAreSafe | src/evm_live_handoff.cpp:24-190 | over whole runs of such calls every step meets its guard |
| LiveTheorems.AcceptedLogsAreAccountedFor | src/evm_live_handoff.cpp:232-297 | in every run each copy of an accepted log is on its way, settled, lost, under a repair that is running, or outside the blocks a completed recovery scanned |
| LiveTheorems.LostLogsAreOwed | src/evm_reorg_reconciliation.cpp:30-52 | no silent loss, for every run: a recovery is owed for every lost log in all its states exactly when every step meets its guard; runs whose calls of start_live follow one another and precede the destructor are among these |
| LiveTheorems.LiveJobsWaitForRecovery | src/evm_event_dispatch.cpp:112-141 | in every run, until worker shutdown: while a recovery is owed no live job leaves its queue; a pending gap means an empty buffer; a filled buffer or a gap has a running call that will drain it |
| LiveTheorems.DrainKeepsLossesOwedIff | src/evm_live_handoff.cpp:31-57 | exactly when one round of the drain keeps the losses owed |
| LiveTheorems.OverlappingStartsOweNothing | src/evm_event_indexer.cpp:95-166 | start, stop and start while the first call still drains: the run that leaves a log above the durable block late, with no recovery owed |
| LiveTheorems.LateStartOwesNothing | src/evm_event_dispatch.cpp:54-60 | a start_live behind the destructor, with no other call: the run that drops a log with no recovery owed |
| LiveTheorems.WorkerShutdownOpensGate | src/evm_live_handoff.cpp:166-189 | the run, with a start_live behind the destructor, in which the gate opens at worker shutdown while a recovery is owed |
| LiveTheorems.ConfirmedRetryFollowsFailure | src/evm_reorg_reconciliation.cpp:8-28 | in every run a recovery that does not refresh the head is the retry of one that failed in its generation |
| LiveTheorems.RecoverySettlesIff | src/evm_live_handoff.cpp:145-211 | a recovery counts a dropped canonical log as settled exactly when its gap reconciliation hands it to the consumer, and that is when its block lies in the window up to the later of the announced and the fetched head after a refresh, up to the confirmed block of the announced head without one |
| LiveTheorems.HandoffRecoverySettlesIff | src/evm_live_handoff.cpp:58-69 | the recovery inside the handoff hands a dropped canonical log to the consumer exactly when its block lies in the lookback window of the head, and settles just those |
| Recovery.RecoverOverlap | src/evm_live_handoff.cpp:145-211 | the worker's recovery, carried out: each missed log is settled exactly when it reached the consumer, and that is when it lies in the window of that head; an unconfirmed one exactly when the head was refreshed |
| Recovery.RecoverHandoff | src/evm_live_handoff.cpp:58-69 | the handoff's recovery, carried out: each missed log reaches the consumer exactly when it lies in the window of the head |
| LiveTheorems.ConfirmedRetryLeavesALog | src/evm_live_handoff.cpp:145-165 | a failed recovery retried by a plain head leaves an unconfirmed log behind |
| LiveTheorems.LiveJobStaysIff | src/evm_event_dispatch.cpp:104-113 | in every run: exactly when a live job waits although both worker threads are at rest |
| LiveTheorems.GateStaysClosed | src/evm_live_handoff.cpp:166-181 | the run of stop and start_live, with a head waiting, in which a live log is left behind a closed gate |
| LiveOrder.QueuesAreFirstInFirstOut | src/evm_event_dispatch.cpp:104-143 | in every run, for each queue: the jobs taken, followed by those that wait, are the jobs appended, in order, up to an overflow or the end of delivery; no live job is taken while a historical one waits |
| LiveOrder.PopTakesFirst | src/evm_event_dispatch.cpp:104-132 | exactly when a job can be taken, and that it is the first historical one or else the first live one |
| LiveOrder.LiveLogsKeepTheirOrder | src/evm_live_handoff.cpp:24-83 | in every run the live logs of a generation come to the delivery thread in the order in which they were buffered or queued, across the end of buffering too, dropped ones left out |
| LiveSignals.HeadsAreKept | src/evm_live_handoff.cpp:92-113 | in every run the state keeps the highest head announced while buffering and the highest one that waits for the worker |
| LiveSignals.DrainReleasesHead | src/evm_live_handoff.cpp:31-81 | a drain ends buffering exactly when it finds neither a gap nor a log, and then announces that highest head |
| LiveSignals.TakeWorksOnHighest | src/evm_live_handoff.cpp:122-143 | exactly when the worker takes work, and that it works on the highest waiting head with the pending flags |
| LiveSignals.DurableFollowsHead | src/evm_live_handoff.cpp:192-211 | in every run the durable block is the last one with its confirmations under the head that was recorded last |
| LiveSignals.StreamGapIsOwed | src/evm_live_handoff.cpp:270-297 | an error of the current subscription owes the handoff or the worker its repair; one of an older subscription does nothing |
| LiveSignals.OwedUntilTaken | src/evm_reorg_reconciliation.cpp:8-52 | in every run an owed recovery stays owed until a drain or the worker takes it over or the subscription ends |
| LiveSignals.FailedRecoveryIsOwedAgain | src/evm_reorg_reconciliation.cpp:8-28 | exactly when a failure report leaves the recovery owed |
| LiveSignals.StopSilences | src/evm_event_indexer.cpp:196-225 | stop ends the generation and leaves nothing accepted, buffered, owed or waiting |
| LiveSignals.StoppedStaysSilent | src/evm_event_indexer.cpp:196-225 | in every run: from stop to the next start_live no callback has an effect, nothing is owed and the worker rests |
| LiveSignals.ConcludeReports | src/evm_event_indexer.cpp:162-166 | start_live reports success exactly while its generation is current and accepting |
| LiveSignals.StartedRunsLive | src/evm_event_indexer.cpp:162-166 | in every run a started subscription accepts callbacks and buffers no longer |
| CursorStore.FileBlockCursorStore.Save | src/evm_cursor_store.cpp:166-174 | the stored block never moves back |
| CursorStore.FileBlockCursorStore.SaveCursor | src/evm_cursor_store.cpp:184-193 | the entry is replaced exactly when the new cursor advances; other names are untouched |
| CursorStore.FileBlockCursorStore.Rewind | src/evm_cursor_store.cpp:195-206 | an entry at or above the block becomes partial there; an entry below it stays |
| CursorStore.FileBlockCursorStore.Load | src/evm_cursor_store.cpp:153-164 | the last complete block is the one before the resume block |
| CursorStore.MakeBlockRanges | src/evm_cursor_store.cpp:106-124 | the ranges tile the interval in order, none longer than a batch, without overflow up to 2^64-1; the only error is a zero batch |
| CursorStore.ConfirmedIff | src/evm_event_indexer.cpp:12-20 | a block counts as durable exactly when the head is the confirmations beyond it |
| CursorStore.WindowIff | src/evm_reorg_reconciliation.cpp:54-60 | the recovery window holds exactly the last lookback blocks, from the start block on |
| Chain.StableSort | src/evm_event_indexer.cpp:57-67 | a permutation ascending in block, then transaction index, then log index, in which tied logs keep their order |
| Chain.SortedAscends | src/evm_log_identity.hpp:15-43 | sorted by the comparison means ascending in the three numbers |
| EvmLogs.SameIdentityIff | src/evm_log_identity.hpp:23-28 | two logs share an identity exactly when both have all three parts and these agree |
| EvmLogs.BeforeIff | src/evm_log_identity.hpp:35-43 | the comparison of two logs in terms of block number, transaction index and log index |
| Chain.SortingIsUnique | src/evm_log_identity.hpp:35-43 | the canonical order determines the sorted list |
| Chain.FetchSorted | src/evm_reorg_reconciliation.cpp:96-100 | whatever order the transport answers in, the scan works on the chain's own order |
| Chain.SkipIsPrefix | src/evm_event_indexer.cpp:73-78 | a saved position skips exactly the logs of its block at or below the saved pair of indexes, a prefix of them, if the block still has the saved hash |
| Chain.SaveKeepsCoverage | src/evm_cursor_store.cpp:54-71 | a save never loses coverage, whatever it saves, and refuses an entry only when that would cover no more, while the stored position is of this chain |
| Chain.RewindUncovers | src/evm_cursor_store.cpp:195-206 | a rewind leaves exactly the coverage below its block |
| Deliveries.AtMostOnce | src/evm_event_dispatch.cpp:235-272 | between two successful add callbacks for one identity lies a removal callback, a prune or a restart |
| ScanCoverage.SaveMovesCursor | src/evm_cursor_store.cpp:54-71 | saving a delivered log's position moves the entry, which then covers the history up to that log and no more |
| ScanCoverage.CheckpointClosesRange | src/evm_event_indexer.cpp:89-90 | a range's checkpoint is never refused and covers exactly what was scanned |
| ScanCoverage.ResumeMeetsCoverage | src/evm_event_indexer.cpp:26-30 | a scan resumes exactly where the entry's coverage ends |
| ScanCoverage.SkippedIff | src/evm_event_indexer.cpp:73-78 | the resume test skips exactly the logs of the saved block at or below the saved pair of indexes; these are the first of the range |
| ScanCoverage.JoinRange | src/evm_event_indexer.cpp:47-91 | covered history, earlier ranges and the current range compose to the whole history |
| Indexing.Indexer.constructor | src/evm_indexer_lifecycle.cpp:7-20 | a new process starts with an empty table and the durable entry it finds |
| Indexing.Indexer.EmitLog | src/evm_event_dispatch.cpp:210-273 | deduplication, rollback of the table when the callback throws, and the rewind of the entry by a live removal |
| Indexing.Indexer.PruneDelivered | src/evm_live_handoff.cpp:7-22 | exactly the entries above the cutoff remain, without any callback |
| Indexing.Indexer.SaveCheckpoint | src/evm_event_indexer.cpp:226-234 | checkpoint and prune together |
| Indexing.Indexer.Dispatch | src/evm_event_dispatch.cpp:37-94 | a log is handed over, found in the table, or refused, which happens only once delivery has ended or the generation is no longer current |
| Indexing.Indexer.DeliverAndSave | src/evm_event_indexer.cpp:80-84 | the position is saved unless the callback threw or the generation changed; then the log was delivered or delivery has ended |
| Indexing.Indexer.DeliverRange | src/evm_event_indexer.cpp:68-85 | the logs of a range reach the consumer in order, skipping what the entry covers, up to the first one that finds delivery ended; the entry is right wherever it ends |
| Indexing.Indexer.ScanRange | src/evm_event_indexer.cpp:47-91 | one range: fetch, sort, deliver, checkpoint |
| Indexing.Indexer.ScanRanges | src/evm_event_indexer.cpp:42-93 | over all batches: what lies behind the scan is a prefix of the interval's logs, all of it on completion; the entry covers no more and lags by at most one; all of it was delivered if the generation was read in time |
| Indexing.Indexer.CatchUpTo | src/evm_event_indexer.cpp:22-40 | durable up to the confirmed block; then, without saving, all blocks between it and the target |
| Indexing.Indexer.CatchUp | src/evm_event_indexer.cpp:10-20 | a completed catch-up leaves the entry complete at the confirmed head; nothing is passed over if the destructor has not begun when the generation is read, nothing is delivered if delivery has ended by then |
| Indexing.Indexer.CatchUpLive | src/evm_event_indexer.cpp:95-155 | start_live to the end of its catch-up: the new generation's scan is durable up to the confirmed block and unsaved above it; nothing is passed over unless the destructor had begun before the generation |
| Lifecycle.ReadInTimeIff | src/evm_indexer_lifecycle.cpp:78-84 | delivery can never end under a generation exactly when that generation was read before the destructor began |
| Lifecycle.AfterAllIs | src/evm_indexer_lifecycle.cpp:78-84 | how many generations any sequence of starts and stops ends, and exactly when delivery has ended |
| ScanCoverage.TallyNext | src/evm_event_indexer.cpp:80-84 | one hand-over: the account moves by one, and what follows the first log passed over is passed over |
| Processes.CoverageKeptIff | src/evm_event_indexer.cpp:68-91 | wherever a first process ends, every covered log was delivered exactly when the entry did not pass the first log passed over; a log is passed over only after a late read |
| Processes.RunLives | src/evm_event_indexer.cpp:10-166 | crash safety: over any number of processes, each calling catch_up or start_live and ending anywhere, the durable scans repeat at most one callback a process, all other callbacks are above the durable block of their start_live, and every covered log was delivered if each read its generation in time |
| Processes.LateReadLosesAll | src/evm_event_indexer.cpp:12-20 | every catch-up that reads its generation after the destructor began can save a complete entry and deliver nothing |
| Processes.LaterHeads | src/evm_live_handoff.cpp:192-211 | in a running process every log above the durable block is delivered by the first completed catch-up that reaches it, whatever became of its live copy |
| Processes.CaughtUpCovers | src/evm_event_indexer.cpp:26-30 | an entry that resumes above a block covers every log up to it |
| Indexing.Indexer.CollectOrphans | src/evm_reorg_reconciliation.cpp:102-125 | exactly the delivered, non-canonical identities of the range, marked removed, in canonical order |
| Indexing.Indexer.RemoveOrphans | src/evm_reorg_reconciliation.cpp:126-130 | retractions are handed over one by one, in order |
| Indexing.Indexer.AddMissing | src/evm_reorg_reconciliation.cpp:131-140 | only canonical logs the table does not hold cause a callback |
| Indexing.Indexer.ReconcileRange | src/evm_reorg_reconciliation.cpp:89-145 | one range: removals before additions, the table agrees with the chain afterwards, nothing else in the window changes |
| Indexing.Indexer.ScanGapRanges | src/evm_reorg_reconciliation.cpp:85-147 | over all ranges, with the callbacks listed range by range |
| Indexing.Indexer.ReconcileGap | src/evm_reorg_reconciliation.cpp:54-83 | reorg convergence over the window and silence when the table was right; wherever it stops, consumer and table moved alike and every log of the window that the entry covers is in the table |
| Processes.ReconcileTwice | src/evm_reorg_reconciliation.cpp:54-147 | a consumer in step with the table stays in step wherever it stops; after a completed run its adds minus removals equal the canonical logs, and a second run calls nothing back |
| GapWindow.RangeConverges | src/evm_reorg_reconciliation.cpp:102-140 | retracting the orphans and adding the missing logs moves every identity by exactly the difference to the chain |
| GapWindow.RangeMoves | src/evm_reorg_reconciliation.cpp:112-140 | wherever the repair of a range stops, only identities of the range came or went, and the consumer's account moved with the table |
| GapWindow.RepairReaches | src/evm_reorg_reconciliation.cpp:54-83 | after a completed reconciliation every canonical log of the window is in the table, and one it did not hold reached the consumer exactly when its block lies in the window |
| GapWindow.RepairedJoin | src/evm_reorg_reconciliation.cpp:89-145 | adjoining repaired ranges form one repaired range |
| GapWindow.NetMovedJoin | src/evm_reorg_reconciliation.cpp:89-145 | the consumer's account composes over ranges |
| GapWindow.StillAgrees | src/evm_reorg_reconciliation.cpp:112-123 | repairing one range does not disturb a later one |
| GapWindow.ConsumerConverges | src/evm_reorg_reconciliation.cpp:126-140 | a consumer in step with the table is in step with the chain after the repair |
| GapWindow.GapSkipsNoBlockIff | src/evm_reorg_reconciliation.cpp:60-79 | the entry skips no unread block exactly when it resumed inside the window or the window holds no durable block |
| GapWindow.LongOutageSkipsBlocks | src/evm_cursor_store.cpp:202-203 | an outage longer than the lookback: blocks 101 to 236 are never read |
| DeliveredTable.PruneKeepsWindow | src/evm_live_handoff.cpp:9-21 | a checkpoint inside a window no longer than the lookback forgets nothing of the window |
| DeliveredTable.PruneSparesIff | src/evm_live_handoff.cpp:9-21 | a checkpoint spares the entries from a block on exactly when the cutoff lies below it |
| DeliveredTable.NextWindowIsSpared | src/evm_reorg_reconciliation.cpp:58-60 | checkpoints at or below a head never touch that head's recovery window; above it they can |
| Arithmetic.Bezout | src/order_amounts.cpp:41-46 | the greatest common divisor is an integer combination |
| Arithmetic.EuclidsLemma | src/order_amounts.cpp:41-52 | a divisor coprime to one factor divides the other |
| OrderAmounts.PowerOfTen | src/order_amounts.cpp:16-24 | ten to the decimals, in 64 bits, for 0 to 18 |
| OrderAmounts.CheckedMultiply | src/order_amounts.cpp:26-35 | the product when it has 64 bits, else overflow |
| OrderAmounts.ExactMultiplyDivide | src/order_amounts.cpp:37-53 | succeeds exactly when the division is exact and the quotient has 64 bits: cancelling first causes no false refusal |
| OrderAmounts.SharesAreExact | src/order_amounts.cpp:86-95 | shares at any price of a supported tick cost a whole number of units, less than the shares; no error is possible |
| OrderAmounts.MicroUnitsIff | src/order_amounts.cpp:55-70 | exactly which amounts become millionths of 64 bits, with the same value |
| OrderAmounts.SellGivesShares | src/order_amounts.cpp:154-181 | a market SELL signs the whole amount in shares |
| OrderAmounts.TickTextMeans | src/order_amounts.cpp:97-108 | the six supported ticks, each with the rounding its own text reads as |
| OrderAmounts.StepIsExact | src/order_amounts.cpp:170-172 | a budget rounded to the step has a whole taker amount at every price |
| OrderAmounts.ExactOnlyAtSteps | src/order_amounts.cpp:170-172 | nothing else has |
| OrderAmounts.BuyIsExactAndMaximal | src/order_amounts.cpp:162-181 | maker*scale equals taker*units, within the budget, and no larger maker within it is exact; the two errors are justified |
| OrderAmounts.BuyFailsOnlyOnOverflow | src/order_amounts.cpp:168-179 | for supported ticks the step error and the inexact error are unreachable |
| OrderAmounts.ValidPricesAreTickMultiples | src/order_amounts.cpp:110-129 | the accepted prices are exactly the tick multiples between one tick and one tick below 1, and keep their value |
| OrderAmounts.RefusedPrices | src/order_amounts.cpp:110-129 | which of the three refusals a price gets, in terms of the tick |
| OrderAmounts.QuantizedIff | src/order_amounts.cpp:72-84 | exactly which price units make a price |
| OrderAmounts.QuantizedOrdersAreExact | src/order_amounts.cpp:72-84 | a quantized price of a supported rounding makes every order exact |
| DepthArithmetic.AccumulatedNotional.Add | src/market_price.cpp:68-100 | the true sum of size*price; units and fraction are exact until the whole part leaves 64 bits, and nothing wraps |
| DepthArithmetic.AccumulatedNotional.Covers | src/market_price.cpp:20-27 | covered exactly when the floor of the true sum reaches the target |
| DepthArithmetic.AccumulatedSize.Add | src/market_price.cpp:102-111 | the true sum of sizes |
| DepthArithmetic.AccumulatedSize.Covers | src/market_price.cpp:29-35 | covered exactly when the true sum reaches the target |
| DepthArithmetic.CollateralIsExact | src/market_price.cpp:121-131 | floor or ceiling of shares*price, never above the shares, and never thrown for a price below 1 |
| DepthArithmetic.SharesForIsMost | src/market_price.cpp:134-141 | the most shares the collateral pays for, and they cost all of it |
| DepthArithmetic.PartialIsSmaller | src/market_price.cpp:252-256 | a partial fill is smaller than its level, and overflows only for levels near 2^64 |
| MarketDepth.VisitOrder | src/market_price.cpp:145-174 | a permutation of the levels, asks ascending and bids descending in price, whichever branch orders them |
| MarketDepth.WalkToLimit | src/market_price.cpp:191-211 | the walk finds the order-free limit: the best price whose depth covers the order signed there, else the worst, or the first error |
| MarketDepth.FindDepthLimit | src/market_price.cpp:178-212 | the same for a book in any order |
| MarketDepth.LimitMeans | src/market_price.cpp:178-212 | in numbers: the best price up to which the levels are worth the order signed there, every better one fills nothing it signs, and a short book gives its worst price |
| MarketDepth.UnsignedBecause | src/market_price.cpp:183-196 | why no order can be signed at a price of the walk |
| MarketDepth.DepthPermuted | src/market_price.cpp:159-173 | cumulative depth does not depend on the order of the book |
| MarketDepth.LimitIgnoresOrder | src/market_price.cpp:145-212 | price, fully_fillable or the error are the same for every permutation, ties included |
| MarketDepth.LargerIsNoBetter | src/market_price.cpp:198-209 | a larger amount never gets a better price and never becomes fully fillable |
| MarketDepth.CalculateMarketPrice | src/market_price.cpp:215-224 | the depth limit; a fill-or-kill order is refused exactly when the depth there is short |
| MarketDepth.PriceIgnoresOrder | src/market_price.cpp:215-224 | the market price is the same for every order of the book |
| DepthEstimate.FillConserves | src/market_price.cpp:240-271 | used plus remaining is constant, and the walk uses the smaller of the order and what the levels up to the limit can take |
| DepthEstimate.FillRoundsPerLevel | src/market_price.cpp:247-270 | a BUY pays, a SELL loses, less than one unit per level against the limit price |
| DepthEstimate.FillLevel | src/market_price.cpp:246-269 | the 64-bit fill of one level, in numbers: a SELL gets the value of what it can sell rounded down, a BUY pays the whole level rounded up or spends all that remains on the most shares it covers; nothing is subtracted below zero |
| DepthEstimate.EstimateMarketDepth | src/market_price.cpp:226-279 | the sums of such bills over the levels visited best price first, until the signed amount is used up or the limit is reached; overflow only for books near 2^64 shares |
| DepthEstimate.ReceiptRounds | src/market_price.cpp:250-261 | a SELL never receives more than its shares are worth at their levels' prices, a BUY never pays less, to within a unit for each level |
| DepthEstimate.SpendingIgnoresOrder | src/market_price.cpp:240-271 | price, fully_fillable and what is spent are the same for every order of the book |
| DepthEstimate.CoveredMeetsNeed | src/market_price.cpp:204-208 | a covered limit can take the whole order |
| DepthEstimate.SpentMeansFillableIff | src/market_price.cpp:226-279 | an estimate spends the whole order exactly when it is fully fillable, except exactly where the depth at the limit falls short of the order but its cost rounded up per level does not; a SELL has no exception |
| DepthEstimate.SpendingAllIsNotFullyFillable | src/market_price.cpp:247-256 | one cent at one half over levels of 1 and 19998 share units is spent but reported as not fillable |
| OracleEvents.OrderChains | src/oracle_event_history.cpp:24-34 | the canonical comparison is a strict weak order |
| OracleEvents.FoldIgnoresTimeline | src/oracle_watcher.cpp:99-178 | the timeline records the fold and never influences it |
| OracleEvents.FoldTells | src/oracle_watcher.cpp:81-163 | read off the list: the phase of the last deciding event, the last price and payouts, the first ids, the place of the last event and the count |
| OracleEvents.TimelineTells | src/oracle_watcher.cpp:165-178 | each timeline entry is its event with the phase decided up to it |
| OracleEvents.SameLogIsSameIdentity | src/oracle_event_history.cpp:119-125 | the repetition test is equality of log identities |
| OracleHistory.SortedAscends | src/oracle_event_history.cpp:24-34 | canonical order means block, transaction and log numbers ascending, then the hashes |
| OracleEvents.StringLessIff | src/oracle_event_history.cpp:24-34 | the order of the hashes, decided behind their longest common beginning |
| OracleHistory.SurvivorsAreCanonical | src/oracle_event_history.cpp:45-76 | the reference list is sorted, free of repetitions, and holds exactly the reports that still stand: not removed since, and the first since the last removal of their log |
| OracleHistory.AllSurvive | src/oracle_event_history.cpp:57-76 | deliveries without removals and repetitions all survive |
| OracleHistory.OrderlySurvivors | src/oracle_event_history.cpp:45-76 | when removals follow their reports, exactly the reports that are never removed survive |
| OracleHistory.IngestAgreesIff | src/oracle_event_history.cpp:45-76 | the bounded history does what the unbounded one does exactly when the delivery does not concern a compacted event and is not behind the frontier |
| OracleHistory.RunIsSurvivors | src/oracle_event_history.cpp:37-92 | over whole runs the bounded history holds exactly the sorted survivors |
| OracleHistory.ArrivalOrderIsIrrelevant | src/oracle_event_history.cpp:37-92 | the same deliveries in two orders, removals behind their reports, give the same list |
| OracleHistory.TiedReportsFollowArrival | src/oracle_event_history.cpp:24-34 | reports at one place that cannot be told apart as logs are listed by arrival |
| OracleHistory.RemovedAsIfNeverArrived | src/oracle_event_history.cpp:45-55 | a reported and later removed log leaves the list as if it had never arrived |
| OracleDashboard.Dashboard.IngestEvent | src/oracle_event_history.cpp:37-76 | one delivery moves one question's lists, its state is projected anew, no other question changes |
| OracleDashboard.Dashboard.LowerBound | src/oracle_event_history.cpp:69-73 | the binary search finds the canonical place |
| OracleDashboard.Dashboard.CompactHistory | src/oracle_event_history.cpp:78-92 | at most 1024 events stay; the others are folded into the base in order |
| OracleDashboard.Dashboard.RebuildState | src/oracle_event_history.cpp:94-117 | the state is the fold of the retained events onto the base, and shows what all the question's events tell while the counter tells |
| OracleDashboard.ProjectedIsFold | src/oracle_event_history.cpp:94-117 | apart from the timeline the state is the fold over all events in canonical order, and the timeline holds the retained ones; when the counter reads zero for compacted events it is the fold over the retained ones alone |
| OracleDashboard.ProjectedTells | src/oracle_event_history.cpp:94-117 | phase, price, payouts, ids and last event of a state, read off all events, and its timeline |
| OracleDashboard.RunStateIsFold | src/oracle_event_history.cpp:37-117 | the same over whole runs, for the survivors, with both cases of the counter |
| OracleDashboard.StateIgnoresArrivalOrder | src/oracle_event_history.cpp:37-117 | the same deliveries in two orders, removals behind their reports, give the same state |
| OracleDashboard.RemovalRestoresState | src/oracle_event_history.cpp:45-55 | a removed log leaves the state as if it had never arrived |
| OracleDashboard.StateIsMissingIff | src/oracle_event_history.cpp:98-104 | exactly when a question with events has no state |
| OracleCounter.StateIsFoldIff | src/oracle_event_history.cpp:94-117 | for given numbers of compacted and retained events: the state is the fold over all of them, whatever they are, exactly when none is compacted or their number is no multiple of 2^32 |
| OracleCounter.RunOfReports | src/oracle_event_history.cpp:57-92 | after any number of reports in canonical order the last 1024 are retained |
| OracleCounter.CounterWrapDropsState | src/oracle_event_history.cpp:99-104 | the run of 2^32 + 1024 reports and 1024 removals that loses no delivery, leaves 2^32 events and no state |
| OracleCounter.CounterWrapForgetsHistory | src/oracle_event_history.cpp:99-106 | the run of 2^32 + 1024 reports that loses no delivery and shows a state without the price its first report settled |
| OracleDashboard.IngestAll | src/oracle_event_history.cpp:37-117 | a dashboard holds for every question the state of that question's own run, showing what its events tell |
| OracleDashboard.OpsOfQuestion | src/oracle_watcher.cpp:74-79 | a delivery concerns the question its event names, or else the condition |
| HexText.FromHex | src/order_signer.cpp:44-72 | accepts exactly an even number of hexadecimal digits behind one optional prefix, as their bytes |
| HexText.FromHexIgnoresCase | src/order_signer.cpp:44-72 | a text and its lower-case form stand for the same bytes or the same fault |
| HexText.DigitIsPlace | src/order_signer.cpp:50-64 | the digits are the characters of 0123456789abcdef in either case, valued by their place |
| HexText.ToHex | src/order_signer.cpp:20-42 | two digits a byte, behind the prefix |
| HexText.HexRoundTrip | src/order_signer.cpp:20-72 | what to_hex writes is read as the bytes it was written for |
| HexText.NibblesAreUnique | src/order_signer.cpp:44-72 | the text determines the bytes |
| Uint256.MultiplyAdd | src/evm_uint.cpp:18-26 | the in-place loop multiplies the word by ten and adds the digit, with the carry that does not fit |
| Uint256.ParsedDecimalIff | src/evm_uint.cpp:11-29 | exactly the decimal texts of values below 2^256 are read, as their value |
| Uint256.DecimalToWord | src/evm_uint.cpp:11-29 | the word of that value, or the first fault |
| Uint256.ParsedHexOfDigits | src/evm_uint.cpp:31-51 | hexadecimal digits are read exactly when their value is below 2^256 |
| Uint256.HexToWord | src/evm_uint.cpp:31-51 | the word of what the digits read as |
| Uint256.StrayPrefixIff | src/evm_uint.cpp:33-42 | exactly which texts that are not hexadecimal are read |
| Uint256.StrayPrefixIsRead | src/evm_uint.cpp:37-42 | the digits x12 read as 0x12 |
| Uint256.ParseUint256Word | src/evm_uint.cpp:54-60 | dispatch on the prefix, with the empty texts refused |
| Uint256.ParsedUintIff | src/evm_uint.cpp:11-60 | exactly which texts are read, with and without a prefix, and as which value |
| Uint256.ParsedIgnoresCase | src/evm_uint.cpp:31-60 | the case of its letters does not matter to what a text reads as |
| Uint256.DecimalFaultIs | src/evm_uint.cpp:11-29 | a decimal text is refused for its first character that is no digit or reaches 2^256 |
| Uint256.HexFaultIs | src/evm_uint.cpp:31-51 | which fault hexadecimal digits are refused for |
| Uint256.Uint256Word | src/evm_uint.cpp:62-68 | the 32-byte word of a 64-bit value |
| Uint256.DecimalRoundTrip | src/evm_uint.cpp:54-60 | the decimal notation of every word value is read back |
| Uint256.ReadingDropsZeros | src/evm_uint.cpp:11-29 | the notation of a value that was read is the text without leading zeros |
| EvmWords.DecimalMulAdd | src/evm_utils.cpp:42-58 | the decimal notation of value*mul+add |
| EvmWords.PositiveHexToDecimal | src/evm_utils.cpp:60-68 | the decimal notation of the hexadecimal value, or the refusal of a bad character |
| EvmWords.TwosComplementAbs | src/evm_utils.cpp:70-89 | the distance to the next power of 16 |
| EvmWords.UintWordToDecimal | src/evm_utils.cpp:228-231 | the decimal notation of a word |
| EvmWords.IntWordToDecimal | src/evm_utils.cpp:233-240 | the two's-complement value of every word |
| EvmWords.TwosComplementIs | src/evm_utils.cpp:233-240 | the number of the signed range that differs from the word by a multiple of 2^256 |
| EvmWords.SignedTextReads | src/evm_utils.cpp:233-240 | a minus sign exactly for a negative number, before the notation of its distance to zero |
| EvmWords.WordRoundTrip | src/evm_utils.cpp:228-231 | text to word to text gives the text without leading zeros, which reads as the same word |
| Abi.AppendEncoding | src/evm_abi.cpp:150-175 | appends the encoding of the value and nothing else |
| Abi.AppendSequence | src/evm_abi.cpp:179-212 | heads with offsets, then tails |
| Abi.DecideDynamic | src/evm_abi.cpp:130-148 | dynamic exactly for bytes, arrays and tuples with a dynamic member |
| Abi.EvmAbiEncode | src/evm_abi.cpp:220-225 | the encoding of a parameter list |
| Abi.EncodingIsAligned | src/evm_abi.cpp:150-212 | every encoding is a multiple of 32 bytes long |
| Abi.OffsetsPointAtTails | src/evm_abi.cpp:193-211 | every offset points at its own member's tail; a static member stands in the heads |
| Abi.DecodeEncoded | src/evm_abi.cpp:150-175 | decoding where an encoding stands gives the value; bytes must be padded with zeros |
| Abi.RoundTrip | src/evm_abi.cpp:220-225 | the type-directed decoder recovers every well-typed parameter list |
| Abi.EncodingIsInjective | src/evm_abi.cpp:220-225 | equal encodings of one type list are of equal values |
| AbiArray.AbiWordToSize | src/evm_utils.cpp:91-103 | the value of a word, or a refusal exactly when it exceeds 64 bits |
| AbiArray.EvmDataWords | src/evm_utils.cpp:163-175 | the words of aligned data |
| AbiArray.DecodeUintArray | src/evm_utils.cpp:186-218 | on any data: the checks in order, never a word outside the data, never an offset into the head |
| AbiArray.DecodeUintArrayAt | src/evm_utils.cpp:177-184 | the form without a head size: the index is checked, then the same |
| AbiArray.ElementWords | src/evm_utils.cpp:202-216 | the elements lie behind the head and inside the data |
| AbiArray.ArrayAcceptedIff | src/evm_utils.cpp:186-218 | an array is read exactly when its offset and length words place it behind the head and inside the data |
| AbiArray.ArrayIsRead | src/evm_utils.cpp:186-218 | on the encoder's output the checks pass and the elements are read in order |
| AbiArray.DecodeEncodedArray | src/evm_utils.cpp:186-218 | encode any parameter list with a uint array, print it, decode it: the decimals of the elements in order |
| Rlp.MinimalLengthBytes | src/evm_rlp.cpp:9-15 | the shortest big-endian bytes of a length |
| Rlp.WithHeader | src/evm_rlp.cpp:19-35 | the short or the long header in front of the payload |
| Rlp.RlpEncodeBytes | src/evm_rlp.cpp:38-43 | the encoding of a byte string |
| Rlp.RlpEncodeUint | src/evm_rlp.cpp:45-52 | the encoding of an integer without leading zeros |
| Rlp.RlpEncodeList | src/evm_rlp.cpp:54-60 | the encoding of a list of encoded items |
| Rlp.DecodeEncoded | src/evm_rlp.cpp:9-60 | decoding an encoded item followed by anything gives the item and what followed |
| Rlp.DecodedIsEncoded | src/evm_rlp.cpp:9-60 | a decoder of the canonical form alone accepts nothing but encodings |
| Rlp.DecodeIff | src/evm_rlp.cpp:9-60 | an input is read as an item exactly when it is the item's encoding |
| Rlp.EncodingIsPrefixFree | src/evm_rlp.cpp:9-60 | no encoding is the beginning of another |
| Transaction.UnsignedFields | src/evm_transaction.cpp:36-53 | the six encoded fields, or the first fault in the order of the checks |
| Transaction.FaultIff | src/evm_transaction.cpp:36-53 | refused exactly when the chain id is out of range or the texts stand for no fields |
| Transaction.FaultsInOrder | src/evm_transaction.cpp:36-53 | which fault is reported when there are several |
| Transaction.HexBytesAreRead | src/evm_transaction.cpp:40-52 | recipient and data stand for the bytes that from_hex reads |
| Transaction.SigningPreimage | src/evm_transaction.cpp:56-63 | the hashed bytes are the encoding of the fields, the chain id and two empty items |
| Transaction.PreimageHolds | src/evm_transaction.cpp:36-63 | the hashed bytes are the canonical list of nonce, gas price, gas limit, recipient, value, data, chain id and two empty items, in this order |
| Transaction.SignedBytes | src/evm_transaction.cpp:65-81 | the signed transaction is the encoding of the fields, v, r and s |
| Transaction.SignedHolds | src/evm_transaction.cpp:65-81 | the signed bytes are the canonical list of the six fields, v, r and s, in this order |
| Transaction.PreimageIsInjective | src/evm_transaction.cpp:56-63 | equal hashed bytes mean equal fields, the chain id included |
| Transaction.OnePreimageReadsAlike | src/evm_transaction.cpp:36-63 | transactions given as texts with equal hashed bytes read as the same fields |
| Transaction.SignedIsInjective | src/evm_transaction.cpp:65-81 | a signed transaction determines fields, chain id, recovery id and signature |
| Transaction.SignedIsNotPreimage | src/evm_transaction.cpp:56-81 | a signed transaction is never the hashed bytes of another |
| Transaction.RecoveryValueReads | src/evm_transaction.cpp:73-74 | v has 64 bits and gives back chain id and recovery id |
| Transaction.ChainIdBoundIsTight | src/evm_transaction.cpp:38-39 | the bound on the chain id is the largest for which v never overflows |
| Base64.Base64Decode | src/order_signer_auth.cpp:32-73 | accepts exactly digits of either alphabet with full or no padding and no stray bits, as their bytes |
| Base64.Base64UrlEncode | src/order_signer_auth.cpp:75-103 | the padded URL-safe text |
| Base64.EncodingDecodes | src/order_signer_auth.cpp:32-103 | decoding the encoding of any bytes gives the bytes |
| Base64.DecodingEncodes | src/order_signer_auth.cpp:32-103 | every accepted text encodes back to itself, up to alphabet and missing padding |
| Base64.SameBytesSameNormal | src/order_signer_auth.cpp:32-73 | accepted texts of the same bytes differ only in alphabet and padding |
| Base64.NormalKeepsLetters | src/order_signer_auth.cpp:25-28 | the normal form changes only the two letters of the other alphabet and adds only padding |
| Base64.DigitIsPlace | src/order_signer_auth.cpp:15-28 | a digit is the place of its character in the alphabets of RFC 4648; the encoder writes the URL-safe one |
| Base64.OnlyAlphabetsHaveDigits | src/order_signer_auth.cpp:15-28 | no other character has a digit |
| Base64.SextetsKeepBits | src/order_signer_auth.cpp:75-103 | the sextets are the bits of the bytes, the highest first, with zeros behind them |

## Left out

- Floating point: the conversion of a double to units, the ulp tolerance and the average price. Integer units are inputs.
- Cryptography: hashing, signing and HMAC. The claims are about the bytes, and the 65 signature bytes are an input.
- Transport, JSON, threads, clocks, callback registration and error texts. The transport is an environment that may call back at any step.
- File I/O of the cursor store: a write is atomic and never fails; the emitted error after a failed rewind is not modelled.
- The text of quantities: a log's numbers are modelled after parsing, so two texts of one number are one identity, and malformed quantities do not occur in logs.
- The identity of a log is the triple of its parts; the source joins them with colons into one text.
- The error queue of the live state, its coalescing and its bound of 64: it only decides which messages are shown.
- The default cursor store base class, which keeps whole blocks only and refuses to rewind.
- The completion objects of the delivery thread: a scan waits for its delivery in program order, and the drain's wait is over-approximated, since the next round may begin before its jobs are delivered.
- The overflow of the generation counter after 2^64 starts.
- LiveTheorems.LostLogsAreOwed: calls of start_live that follow one another and precede the destructor are enough for safe steps, not necessary; each half alone is not enough (OverlappingStartsOweNothing, LateStartOwesNothing).
- LiveTheorems.LiveJobsWaitForRecovery: says nothing once the reconciliation worker is shut down; WorkerShutdownOpensGate shows that the source then opens the gate.
- The ledger of LiveProtocol counts a log as settled by its callback or by a recovery, not by a catch-up that scans its block; what a catch-up delivers is stated for Processes.LaterHeads.
- Indexing.Indexer.ReconcileGap: live delivery is held while it runs, as the delivery thread does in the source; its steps do not interleave with live additions, nor with the additions a manual catch_up on another thread can make between its ranges.
- Processes.RunLives: the life of a start_live ends with its catch-up; live logs and recoveries are stated for the protocol. The chain does not change between the processes; what a reorganisation repairs is stated for ReconcileGap.
- Processes.LaterHeads: the chain does not change between the heads.
- OrderAmounts.ValidPricesAreTickMultiples: starts from an exact price in millionths; prices with more decimals are refused by the conversion before it.
- OracleDashboard.StateIgnoresArrivalOrder: with OracleDashboard.RemovalRestoresState, for runs whose counter has not wrapped to zero; StateIsFoldIff and RunStateIsFold say what holds when it has.
- Transaction.SigningPreimage: the texts are at most 2^64-1 characters long, as any string of the host is.
- Abi.AppendEncoding: counts and encoded sizes fit 64 bits, as any vector of the host does.
- The factories of ABI values for addresses, booleans and fixed bytes, selectors, and calldata as text: they only pad or prefix.
- REST clients, query builders, order-book streaming, the metadata cache and the worker pool: shallow or independent members.
