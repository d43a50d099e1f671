# Verified models of Blazil

Dafny models of the parts of Blazil that are hardest to get right, with proofs about every run or every input. Nothing here is executed; `dafny verify dfyconfig.toml` checks the whole project.

- `Disruptor`, `DisruptorSafety`, `DisruptorTheorems`, `DisruptorProgress`: the Disruptor pipeline as a state machine: one producer and N workers over a shared ring, every atomic load, store, slot write and handler write a step of its own, in any interleaving
- `Engine`: the same ring, `publish_event` and worker pass as objects updated in place, tied to the state machine
- `ResultRing`, `ResultRingSteps`: the ring of committed results and the clients for which it behaves as a map, also with single loads and stores interleaved
- `ShardedPipeline`: routing by debit account, the combined result map, per-account order across shards
- `JumpHash`: jump consistent hash (Lamping and Veach 2014) with floating-point rounding, and the router on top of it
- `CrossShard`, `CrossShardSafety`, `CrossShardTheorems`, `CrossShardKeys`, `CrossShardOutcomes`, `CrossShardCall`: the two-phase cross-shard coordinator against a ledger reached through messages that can be delayed or lost
- `Ledger`: the in-memory double-entry ledger
- `LedgerBatch`: the TigerBeetle batch call and the retry loop of the ledger handler
- `Civil`: the civil-from-days arithmetic of timestamps and their printed form
- `Windows`: the window planner of the text classifier
- `Pricing`: volume-tiered invoicing
- `Metering`, `MeteringRuns`: the sharded usage recorder and its flusher, alone and under any interleaving; the runs are proved for every assignment of tenants to shards, of which the hash is one
- `Dataloader`: the prefetch workers that claim slices of the index list
- `Bits`, `Sums`, `Wrappers`: bit masks, division, sums and result types used by the others

Each state machine has a datatype `State`, a datatype `Step`, a predicate `Enabled`, a function `Apply` and a predicate `Run`. Safety results quantify over all runs; they rest on an inductive invariant that every step is shown to keep.

## Where the code does less than its comments say

Each of these is a theorem here, with the exact condition where there is one.

- With N workers the sequences 0 to N-2 are handled by nobody: a worker first handles N-1 or more (`HandlerIsDetermined`), and `DrainHandlesEverything` shows all others can be handled.
- With at least as many workers as slots the pipeline takes at most capacity-1 events in its whole life (`TooManyWorkersChoke`); with fewer it is never stuck before shutdown (`NeverStuck`), and afterwards exactly when a worker that left its loop holds a gate a lap behind (`StuckOnlyBehindHalted`).
- After publishing has ended a worker can leave its loop if and only if the cursor rests on its own stride or has not reached its start, or it was about to test the flag anyway (`ShutdownReaches`).
- One worker can leave an event published before `stop` unhandled (`LostAfterStop`); it loses nothing if and only if nothing was published after its last look at the cursor (`StoppedWorkerDrained`; `StoppedWorkerDidItsStrides` for N workers).
- The result ring needs a bound on the sequences in flight, not on the ring's capacity relative to the pipeline's: whatever the capacities, two published sequences can share a slot (`CapacityIsNoBound`), and sharing a slot is exactly what breaks the ring (`AliasFreedomIsExact`).
- The bench scenario's client needs a ring with every slot pending and a window no larger than the ring (`FifoSeesMapIff`). Its warm-up inserts 2000 results per shard into the 2048-slot ring and nobody drains them, so the first lap after it can answer sequence 2048 with the transfer of sequence 0 (`WarmUpBreaksClient`).
- A coordinator that gives up waiting for a commit can report and cache a failure for a transfer that is posted (`LostAckReportsFailure`, with the exact condition in `FailureIsFalseIff`), one that gives up on a reservation can leave funds reserved for good (`GiveUpStrandsFunds`, `LostVoidStrandsFunds`, `ReservedForGoodIff`), and two overlapping calls with one key can both move the money (`OverlapPostsTwice`); calls with one key both get past the cache exactly when they overlap (`PassedIffOverlap`).
- A failed in-memory transfer leaves its debit behind exactly when the credit side overflows (`FailureLeavesHalfPosted`, reached by calls in `HalfPostedRun`), and a transfer sent twice is posted twice whenever the account can pay it (`ResendMovesAgain`).
- A batch that mixes unconvertible transfers with good ones is not retried, so a committed transfer can be reported as failed (`MixedBatchMisreports`); after a final lost reply the results are true exactly when nothing of the batch is in the ledger (`LostIsTruthfulIff`); "already exists" is reported as Ok even when the ledger holds a different transfer under that id (`OkMayMeanAnother`). The error the comments call a duplicate id is recognised in the code by the substring "Exist".
- Usage is billed twice exactly when a write reported as failed was stored all the same (`NothingLost`). A snapshot takes each tenant's count atomically, not all tenants at once (`RefinesOneMap`).

## Model

| member | source | states |
|---|---|---|
| `DisruptorSafety.StepKeepsInv` | core/engine/src/pipeline.rs:326-466 | every step of producer, workers and `stop` keeps the invariant: gates never pass their workers, the claim is less than a lap ahead of every gate, every published and unhandled sequence still has its event in its slot |
| `DisruptorTheorems.HandledEventsIntact` | core/engine/src/pipeline.rs:429-459 | in every reachable state the i-th event handled by worker w is exactly the one published for sequence w-1+(i+1)N |
| `DisruptorTheorems.ProducerWriteIsSafe` | core/engine/src/pipeline.rs:326-345 | a producer write never lands on a slot being handled or one holding a published event its worker has yet to reach |
| `DisruptorTheorems.HandlersOwnTheSlot` | core/engine/src/pipeline.rs:450-456 | from the first to the last handler of an event nobody else changes its slot |
| `DisruptorTheorems.HandlerWriteStays` | core/engine/src/pipeline.rs:450-456 | what a handler writes into its slot is there until its worker's next step, whatever the others do meanwhile |
| `DisruptorTheorems.ClaimWithinCapacity` | core/engine/src/ring_buffer.rs:312-328 | the claim is never capacity or more ahead of any gate, although the gates are read one by one while they move |
| `DisruptorTheorems.HandlerIsDetermined` | core/engine/src/pipeline.rs:427-443 | a handled sequence q is at least N-1 and was handled by worker (q+1) mod N |
| `DisruptorTheorems.HandledOnce` | core/engine/src/pipeline.rs:429-459 | no sequence is handled twice, by one worker or by two |
| `DisruptorTheorems.SingleWorkerPrefix` | core/engine/src/pipeline.rs:429-459 | with one worker the handled events are at all times a prefix of the published ones, in order |
| `DisruptorTheorems.StoppedWorkerDrained` | core/engine/src/pipeline.rs:431-466 | a stopped single worker has handled exactly 0..c for the last cursor c it read, and all that was published if and only if nothing was published since |
| `DisruptorProgress.StoppedWorkerDidItsStrides` | core/engine/src/pipeline.rs:431-466 | with N workers a stopped one has handled exactly those of its own sequences that are at most the last cursor it read |
| `DisruptorProgress.PublishAlone` | core/engine/src/pipeline.rs:326-345 | when every gate leaves room, a call of `publish_event` run alone publishes the event |
| `DisruptorProgress.DrainWorker` | core/engine/src/pipeline.rs:431-466 | a worker left alone catches up with the cursor and raises its gate, touching nothing else |
| `DisruptorProgress.NeverStuck` | core/engine/src/ring_buffer.rs:312-328 | with fewer workers than slots, from every reachable state before shutdown any event can still be published |
| `DisruptorProgress.StuckOnlyBehindHalted` | core/engine/src/pipeline.rs:326-466 | with fewer workers than slots, in every reachable state, another event can be published if and only if the producer has already found room or no worker that has left its loop (or is leaving) holds a gate a lap behind |
| `DisruptorProgress.PublishesForever` | core/engine/src/pipeline.rs:326-345 | with fewer workers than slots any number of events can be published |
| `ResultRing.CapacityIsNoBound` | core/engine/src/result_ring.rs:40-43 | whatever the capacities of pipeline and result ring, the pipeline can publish so much before anything is drained that two awaited sequences share a slot |
| `DisruptorProgress.TooManyWorkersChoke` | core/engine/src/pipeline.rs:427-443 | with at least as many workers as slots at most capacity-1 events are ever accepted and worker 0 handles none |
| `DisruptorProgress.DrainHandlesEverything` | core/engine/src/pipeline.rs:429-459 | before shutdown, every published sequence from N-1 upwards can still be handled, by worker (q+1) mod N |
| `DisruptorProgress.LostAfterStop` | core/engine/src/pipeline.rs:433-462 | a run in which an event published before `stop` is never handled |
| `DisruptorProgress.ShutdownReaches` | core/engine/src/pipeline.rs:435-462 | once publishing has ended a worker can leave its loop if and only if it has left or is about to test the flag, or the cursor is on its stride or below its start |
| `Engine.RingBuffer.New` | core/engine/src/ring_buffer.rs:124-158 | succeeds if and only if the capacity is a power of two; claim and cursor of the new ring are -1 and it has no gates |
| `Engine.RingBuffer.AddGatingSequence` | core/engine/src/ring_buffer.rs:291-295 | adds a gate at the initial value, leaving the rest alone |
| `Engine.RingBuffer.Index` | core/engine/src/ring_buffer.rs:212-233 | `sequence & mask` is the sequence modulo the capacity |
| `Engine.RingBuffer.Get` | core/engine/src/ring_buffer.rs:230-233 | returns the event in the sequence's slot |
| `Engine.RingBuffer.Store` | core/engine/src/ring_buffer.rs:212-220 | replaces the event in the sequence's slot and nothing else |
| `Engine.RingBuffer.NextSequence` | core/engine/src/ring_buffer.rs:174-178 | advances the claim alone by one |
| `Engine.RingBuffer.Publish` | core/engine/src/ring_buffer.rs:197-199 | moves the cursor alone |
| `Engine.RingBuffer.HasAvailableCapacity` | core/engine/src/ring_buffer.rs:312-328 | true exactly when the next claim stays less than a lap ahead of every gate |
| `Engine.RingBuffer.PublishEvent` | core/engine/src/pipeline.rs:326-345 | refuses without effect exactly when some gate is a lap behind; otherwise leaves the ring as the state machine's claim, write and publish do |
| `Engine.BatchIsAllStrides` | core/engine/src/pipeline.rs:437-443 | a batch stops at the last stride not above the cursor |
| `Engine.BatchAt` | core/engine/src/pipeline.rs:437-456 | the i-th event of a batch is the slot content of the (i+1)-th stride after the worker's position |
| `Engine.BatchIsRun` | core/engine/src/pipeline.rs:437-456 | a batch drained without interference is a run of the state machine |
| `Engine.PipelineRunner.DrainTo` | core/engine/src/pipeline.rs:437-456 | the inner loop hands over exactly the batch, and the end-of-batch flag to its last event only |
| `Engine.PipelineRunner.Pass` | core/engine/src/pipeline.rs:431-466 | one pass drains the batch and raises the gate, or leaves if and only if there is nothing new and shutdown is set |
| `Bits.PowerOfTwoTestCorrect` | core/engine/src/ring_buffer.rs:346-348 | the bit test holds exactly of the powers of two |
| `Bits.MaskIsMod` | core/engine/src/ring_buffer.rs:212-220 | masking with 2^k-1 is the remainder modulo 2^k |
| `ResultRing.Ring.Insert` | core/engine/src/result_ring.rs:110-118 | stores the id in the sequence's slot and marks it committed |
| `ResultRing.Ring.TryRemove` | core/engine/src/result_ring.rs:124-134 | returns the id of a committed slot and clears it, otherwise changes nothing |
| `ResultRing.Ring.Contains` | core/engine/src/result_ring.rs:139-142 | true exactly when `try_remove` would return an id |
| `ResultRing.AliasFreeRingIsMap` | core/engine/src/result_ring.rs:91-142 | over every run in which no two sequences in flight share a slot, each poll answers as a map from sequence to id would |
| `ResultRing.AliasBreaksRing` | core/engine/src/result_ring.rs:40-43 | whenever two sequences in flight share a slot, committed or not, at most two more legal operations make a poll answer wrongly |
| `ResultRing.AliasFreedomIsExact` | core/engine/src/result_ring.rs:40-43 | a ring that agrees with its map stays so for the sequences in flight if and only if no two of them share a slot |
| `ResultRing.WindowIsAliasFree` | core/engine/src/result_ring.rs:40-43 | sequences within `cap` consecutive numbers never share a slot |
| `ResultRing.FifoClientSeesMap` | bench/src/scenarios/sharded_tb_scenario.rs:348-423 | started on a ring with every slot pending, every poll of a first-in-first-out client whose window is at most the ring answers as the map would |
| `ResultRing.FifoSeesMapIff` | bench/src/scenarios/sharded_tb_scenario.rs:348-423 | such a client sees a map in all its runs if and only if it starts on a ring with every slot pending and its window is at most the ring |
| `ResultRing.StaleSlotAnswers` | core/engine/src/result_ring.rs:124-134 | a slot left committed answers the first early poll of the next sequence on it with the old id |
| `ResultRing.WarmUpBreaksClient` | bench/src/scenarios/sharded_tb_scenario.rs:251-257 | after an undrained warm-up a run of the client gets the transfer of sequence 0 as the result of sequence cap |
| `ResultRingSteps.StepKeepsInv` | core/engine/src/result_ring.rs:110-134 | every single load and store of inserts and removes, in any order, keeps ring and map in agreement |
| `ResultRingSteps.InterleavedRingIsMap` | core/engine/src/result_ring.rs:110-134 | with the accesses of inserts and removes interleaved in any way, while no two sequences in flight share a slot every `try_remove` answers as the map does |
| `ResultRingSteps.WindowedClientSeesMap` | core/engine/src/result_ring.rs:91-142 | so it does from an empty ring while the sequences in flight lie within `cap` consecutive numbers |
| `ShardedPipeline.RouteIsMod` | core/engine/src/sharded_pipeline.rs:96-98 | for a power-of-two shard count the mask route is the modulus |
| `ShardedPipeline.DefaultShardCount` | core/engine/src/sharded_pipeline.rs:56-66 | the largest power of two within half the CPUs (at least 1) and 8 |
| `ShardedPipeline.KeyInjective` | core/engine/src/sharded_pipeline.rs:383-387 | below sequence 2^48 a combined key determines shard and sequence |
| `ShardedPipeline.KeyIsSum` | core/engine/src/sharded_pipeline.rs:383-387 | below 2^48 a key is the shard times 2^48 plus the sequence |
| `ShardedPipeline.KeyCollidesIff` | core/engine/src/sharded_pipeline.rs:383-387 | for every shard, a result has the key of another, small sequence of an existing shard if and only if its sequence is at least 2^48 and its shard or-ed with the high part of the sequence is an existing shard |
| `ShardedPipeline.Results` | core/engine/src/sharded_pipeline.rs:377-391 | below 2^48 the combined map has exactly one entry per shard result, with its value |
| `ShardedPipeline.AccountHandledInOrder` | core/engine/src/sharded_pipeline.rs:341-369 | in every interleaving the events of a debit account are handled on one shard only, in the order they were accepted, none skipped |
| `ShardedPipeline.OfAccountPositions` | core/engine/src/sharded_pipeline.rs:341-344 | the events of an account are exactly those at the positions that debit it, in order |
| `JumpHash.JumpExceeds` | libs/sharding/hasher.go:32-34 | for every rounding that is monotone and exact up to 2^53 a jump moves past its bucket, or past 2^53 |
| `JumpHash.ExactJump` | libs/sharding/hasher.go:31-34 | computed exactly, a jump is the integer quotient (b+1) 2^31 / (key / 2^33 + 1) |
| `JumpHash.JumpBetween` | libs/sharding/hasher.go:31-34 | in every rounding a jump lies between the next bucket times 2^31 / (key / 2^33 + 1) rounded down and up |
| `JumpHash.EvenJump` | libs/sharding/hasher.go:31-34 | when the divisor divides 2^31 all roundings give that product |
| `JumpHash.ConversionFitsIff` | libs/sharding/hasher.go:32-34 | whatever the key, the jump from a bucket fits the conversion to a 64-bit integer if and only if the next bucket is below 2^32 |
| `JumpHash.JumpHash` | libs/sharding/hasher.go:27-37 | for fewer than 2^32 buckets, ends with -1 for no buckets, otherwise with the last bucket of the key's jump chain below the bucket count |
| `JumpHash.HashIsLargest` | libs/sharding/hasher.go:27-37 | the hash is the largest bucket of the chain below the bucket count |
| `JumpHash.HashExists` | libs/sharding/hasher.go:27-37 | for every positive bucket count the chain passes it, so the hash exists and is a bucket |
| `JumpHash.HashUnique` | libs/sharding/hasher.go:27-37 | a key has one hash per bucket count |
| `JumpHash.ExactHashIsPaper` | libs/sharding/hasher.go:27-37 | computed exactly, the hash of every key is the integer algorithm of the paper |
| `JumpHash.KnownHashes` | libs/sharding/hasher.go:27-37 | that algorithm gives the published values 3 for key 2 of 4 buckets and 43 for key 42 of 57 |
| `JumpHash.GrowthMovesToNewBuckets` | libs/sharding/hasher.go:27-37 | growing from n to m buckets leaves a key alone or moves it to one of the new buckets |
| `JumpHash.GrowthKeepsCrossShard` | libs/sharding/router.go:60-64 | growing never puts two accounts of different shards onto one old shard, nor separates two that both stay on old shards |
| `JumpHash.ExactIsFaithful` | libs/sharding/hasher.go:32-34 | exact arithmetic is one of the roundings covered |
| `JumpHash.RingGet` | libs/sharding/node.go:86-95 | the first node in ring order that serves the shard and is not down, or none when there is none |
| `JumpHash.RouteByAccount` | libs/sharding/router.go:41-48 | a node is found if and only if one of the account's shard is not down, and it is such a node |
| `JumpHash.IsCrossShard` | libs/sharding/router.go:60-64 | true exactly when no shard is the hash of both accounts |
| `CrossShardSafety.ExecuteConserves` | libs/sharding/crossshard.go:117-137 | reserving, posting and voiding never change available plus reserved funds |
| `CrossShardSafety.StepKeepsInv` | libs/sharding/crossshard.go:91-141 | every step of any number of concurrent calls, message deliveries, losses and timeouts keeps the invariant and the funds |
| `CrossShardTheorems.FundsConserved` | libs/sharding/crossshard.go:91-141 | in every reachable state available plus reserved funds are the initial funds and no account is negative |
| `CrossShardTheorems.AccountsAddUp` | libs/sharding/crossshard.go:117-137 | in every reachable state each account holds its initial funds less what reserved or posted transfers took from it plus what posted ones brought it |
| `CrossShardTheorems.SuccessMeansPosted` | libs/sharding/crossshard.go:117-140 | a call reports success only if its own transfer is posted or, answered from the cache, one with its key is |
| `CrossShardTheorems.VoidOnlyAfterFailedCommit` | libs/sharding/crossshard.go:125-133 | a void exists only for a call whose commit was refused or whose caller gave up waiting for it |
| `CrossShardTheorems.FailureIsReliable` | libs/sharding/crossshard.go:117-137 | without a timeout a reported failure means not posted and no commit under way |
| `CrossShardOutcomes.FailureIsFalseIff` | libs/sharding/crossshard.go:117-137 | a reported failure is false, now or in some continuation, if and only if the transfer is posted or its commit is still to be delivered to the reservation |
| `CrossShardOutcomes.ReservedForGoodIff` | libs/sharding/crossshard.go:117-133 | a returned call leaves funds reserved in every continuation if and only if they are reserved and no commit or void of it is under way |
| `CrossShardOutcomes.GiveUpStrandsFunds` | libs/sharding/crossshard.go:117-122 | a run in which a caller gives up on a reservation that then arrives and stays for good |
| `CrossShardOutcomes.LostVoidStrandsFunds` | libs/sharding/crossshard.go:125-133 | a run in which the commit is refused, the one void is lost and the funds stay reserved for good |
| `CrossShardKeys.PassedIffOverlap` | libs/sharding/crossshard.go:100-140 | over every run two calls with one key have both missed the cache if and only if at some moment both were between their miss and their return |
| `CrossShardKeys.KeyMovesMoneyOnce` | libs/sharding/crossshard.go:100-140 | over every run, whatever calls with other keys do, two calls can both have reserved funds under one key only if they overlapped |
| `CrossShardKeys.ReturnSettlesKey` | libs/sharding/crossshard.go:117-140 | once a call that reached a node has returned and no call with its key overlapped with it, its outcome is cached and no call with the key is under way |
| `CrossShardKeys.RepeatReturnsCached` | libs/sharding/crossshard.go:91-106 | from every reachable state in which a key has a cached outcome and no call with it is between its miss and its return, in every run, a later start of the key makes no node call and returns that outcome or fails the same-shard check before the cache |
| `CrossShardOutcomes.LostAckReportsFailure` | libs/sharding/crossshard.go:125-133 | a run in which a posted transfer is reported and cached as failed |
| `CrossShardOutcomes.OverlapPostsTwice` | libs/sharding/crossshard.go:101-140 | a run in which two overlapping calls with one key both post |
| `CrossShardCall.Coordinator.Execute` | libs/sharding/crossshard.go:91-141 | one call alone: which answer each verdict of router and nodes gives and the cache it leaves, cached keys without node calls, a void exactly when the commit failed |
| `CrossShardCall.ExecuteIsRun` | libs/sharding/crossshard.go:91-141 | a call made in any reachable state and not disturbed is a run of the state machine that ends with the answer and the cache of `Execute`; a success has moved the amount between the two accounts, a failed commit is voided with every balance as before, any other answer leaves the ledger alone |
| `Ledger.InMemoryLedger.CreateAccount` | core/ledger/src/mock.rs:155-170 | adds the account, or reports a duplicate and changes nothing |
| `Ledger.OpenSpelledOut` | core/ledger/src/mock.rs:155-170 | a known id is refused as a duplicate with nothing changed, any other account is added as it is |
| `Ledger.InMemoryLedger.CreateTransfer` | core/ledger/src/mock.rs:185-252 | checks, posts the debit, posts the credit, and records the transfer exactly when it goes through |
| `Ledger.AnswerSpelledOut` | core/ledger/src/double_entry.rs:85-133 | every broken rule with its own error, in the order of the checks, then the two additions; nothing else refuses |
| `Ledger.AcceptedIff` | core/ledger/src/mock.rs:185-252 | in the exact range a transfer goes through if and only if the accounts exist and differ, the amount is positive and of both currencies, and a protected source can pay it |
| `Ledger.RecordedIffOk` | core/ledger/src/mock.rs:243-250 | a call adds the transfer to the record exactly when it goes through |
| `Ledger.RecordIsLog` | core/ledger/src/mock.rs:243-250 | over every run the record holds exactly the last committed transfer under each id |
| `Ledger.FailureLeavesHalfPosted` | core/ledger/src/mock.rs:222-241 | a failed transfer changes the book if and only if the credit side overflows after a debit that changed its total; then exactly that debit stays posted |
| `Ledger.HalfPostedRun` | core/ledger/src/mock.rs:155-252 | a list of calls, every amount one that `Amount::new` accepts, after which a failing transfer leaves a debit and no credit |
| `Ledger.PostSucceeds` | core/ledger/src/mock.rs:185-252 | below 2^96 units a transfer that passes the checks posts both sides in full |
| `Ledger.BooksBalance` | core/ledger/src/mock.rs:155-252 | over every run below 2^96 units, per currency debits equal credits, each account's totals are the committed transfers naming it, and no protected account has debits above credits |
| `Ledger.FailedCallChangesNothing` | core/ledger/src/mock.rs:155-252 | over every such run a failed call changes nothing |
| `Ledger.ResendMovesAgain` | core/ledger/src/mock.rs:243-250 | a committed transfer sent again is posted again under the same id exactly when the debited account is unprotected or can pay twice; otherwise nothing changes |
| `LedgerBatch.Convert` | core/ledger/src/tigerbeetle.rs:248-264 | submits exactly the convertible transfers in order, remembers where each came from, and reports the others at their own index |
| `LedgerBatch.ErrorMap` | core/ledger/src/tigerbeetle.rs:299-304 | maps every submitted position to the last error reported for it |
| `LedgerBatch.Scatter` | core/ledger/src/tigerbeetle.rs:270-354 | writes the verdict of each submitted position to its original index and to no other |
| `LedgerBatch.CreateTransfersBatch` | core/ledger/src/tigerbeetle.rs:240-379 | one result per input at its own index for every reply, and the guard for an unset result never fires |
| `LedgerBatch.ResultSpelledOut` | core/ledger/src/tigerbeetle.rs:271-354 | the result of a submitted transfer in every reply: Ok when no error names its position or the last one that does has a kind containing "Exist", otherwise rejected with that kind, transient when the reply was lost |
| `LedgerBatch.SaysExistIff` | core/ledger/src/tigerbeetle.rs:307-308 | an error kind counts as "already committed" exactly when "Exist" occurs in it |
| `LedgerBatch.OkAtPosition` | core/ledger/src/tigerbeetle.rs:305-327 | the caller is told Ok exactly when the id is in the ledger once its position is processed |
| `LedgerBatch.AnsweredIsTruthful` | core/ledger/src/tigerbeetle.rs:248-378 | after an answered call Ok means in the ledger, and with distinct ids everything in the ledger is Ok |
| `LedgerBatch.StoreOnlyGrows` | core/common/src/error.rs:120-135 | over any rounds, answered or lost after committing any subset, nothing committed is lost or replaced |
| `LedgerBatch.CommittedAtMostOnce` | core/common/src/error.rs:120-135 | over any rounds an id is committed at most once, and not at all if the ledger held it |
| `LedgerBatch.AllTransientIff` | core/engine/src/handlers/ledger.rs:472-476 | the batch counts as transient exactly when the reply was lost and every transfer was convertible |
| `LedgerBatch.LostIsTruthfulIff` | core/ledger/src/tigerbeetle.rs:335-354 | after a lost reply the results are true if and only if no convertible transfer of the batch is in the ledger |
| `LedgerBatch.SubmitWithRetry` | core/engine/src/handlers/ledger.rs:462-506 | the loop resubmits only after lost replies, at most five times; ending with an answer the results tell the truth about the ledger, ending with a lost reply they do exactly when nothing of the batch was committed |
| `LedgerBatch.MixedBatchMisreports` | core/engine/src/handlers/ledger.rs:472-478 | next to an unconvertible transfer a committed one can be reported as failed without a retry |
| `LedgerBatch.RepeatedIdMisreports` | core/ledger/src/tigerbeetle.rs:305-327 | an id repeated in one batch can be in the ledger and still be reported as failed |
| `LedgerBatch.OkMayMeanAnother` | core/ledger/src/tigerbeetle.rs:307-316 | an Ok speaks of the submitted content exactly when the ledger did not hold that id with another |
| `Civil.ClosedFormIsCalendar` | core/common/src/timestamp.rs:206-218 | for every day number the closed form is the date reached by stepping a Gregorian calendar day by day from 1970-01-01, and it is a valid date |
| `Civil.FromDaysInvertsDayNumber` | core/common/src/timestamp.rs:206-218 | the closed form undoes the day number of every date since the epoch |
| `Civil.NextDayNumber` | core/common/src/timestamp.rs:206-218 | stepping one day raises the day number by one |
| `Civil.SecondsRecombine` | core/common/src/timestamp.rs:198-221 | hour, minute and second are in range and recombine with the date to the number of seconds |
| `Civil.YearHasFourDigits` | core/common/src/timestamp.rs:173-183 | for every 64-bit nanosecond count the year is 1970 to 2554, so no narrowing cast loses anything |
| `Civil.PrintReadsBack` | core/common/src/timestamp.rs:173-183 | the printed text has the digits and separators of section 5.6 of RFC 3339 with nine fraction digits and zone Z, and determines every nanosecond |
| `Civil.PaddedDigit` | core/common/src/timestamp.rs:173-183 | every character of a printed number is the decimal digit of its place |
| `Windows.PlanStarts` | core/inference/src/text.rs:124-138 | the loop ends with ceil((n-L)/step)+1 starts, every step tokens and the last aligned to the end |
| `Windows.PlanCovers` | core/inference/src/text.rs:119-138 | within the cap every token is covered, neighbours overlap by at least min(overlap, L-1), all windows have length L inside the text |
| `Windows.EveryTokenCovered` | core/inference/src/text.rs:124-138 | names a planned window that holds a given token |
| `Windows.SampleIsNearest` | core/inference/src/text.rs:147-149 | a sampled index is the nearest to its exact position, halves rounded up |
| `Windows.SampleStarts` | core/inference/src/text.rs:146-151 | exactly k samples, and `dedup` removes none |
| `Windows.SampledPlanSpreads` | core/inference/src/text.rs:140-157 | above a cap k of at least two: k windows, first and last kept, starts strictly increasing, index gaps of two consecutive sizes only |
| `Windows.CapOfOneKeepsFirst` | core/inference/src/text.rs:143-144 | with a cap of one the first window alone is kept |
| `Windows.PlanWindows` | core/inference/src/text.rs:113-158 | nothing for no tokens, one window for a short text, otherwise the plan thinned out to the cap; all tokens covered when the cap allows |
| `Pricing.InvoiceWithinBound` | libs/metering/pricing.go:29-92 | for every history the invoice is at least the exact per-transaction price and above it by at most 900(M-1) micro-USD |
| `Pricing.BoundIsReached` | libs/metering/pricing.go:29-92 | for every M up to nine million some history reaches that bound |
| `Pricing.BilledMinusExact` | libs/metering/pricing.go:29-83 | the difference is the surcharges on the transactions billed below a threshold they had passed |
| `Pricing.ExcessBound` | libs/metering/pricing.go:68-83 | only the window crossing a threshold is billed too much, by less than its size |
| `Pricing.MergeNeverLowers` | libs/metering/pricing.go:68-92 | merging two neighbouring windows never lowers the invoice |
| `Pricing.CalculateInvoice` | libs/metering/pricing.go:68-83 | one line per window priced at the volume before it, adding up to the bill while 64 bits suffice |
| `Pricing.TotalInvoice` | libs/metering/pricing.go:86-92 | the sum of the lines truncated to 64 bits |
| `Pricing.Charge` | libs/metering/pricing.go:68-92 | both steps charge exactly the bill for volumes whose price fits 64 bits |
| `Metering.ShardFor` | libs/metering/metering.go:82-89 | the loop computes the FNV-1a hash and its mask is the remainder modulo 64 |
| `Metering.KnownFnv` | libs/metering/metering.go:82-89 | the hash has the published FNV-1a values for the empty text and for "a" |
| `Metering.XorIsXor` | libs/metering/metering.go:85-86 | the operator of the hash combines numbers bit by bit, as the published values assume |
| `Bits.XorBits` | libs/metering/metering.go:85-86 | a bit of an exclusive or is set exactly when it is set in one of the two numbers |
| `Metering.AtomicRecorder.Record` | libs/metering/metering.go:91-111 | adds the delta to that tenant's count and changes no other |
| `Metering.AtomicRecorder.Snapshot` | libs/metering/metering.go:113-132 | returns exactly the non-zero counts and leaves all at zero |
| `Metering.Flusher.Flush` | libs/metering/flush.go:82-112 | a successful flush moves every count to the store, a failed one puts every count back |
| `MeteringRuns.StepKeepsInv` | libs/metering/metering.go:91-132 | every step of recorders and flushers keeps tenants in their shards and scans from overwriting what they took |
| `MeteringRuns.UsageConserved` | libs/metering/flush.go:82-112 | in every interleaving recorded usage plus what failed writes stored anyway equals stored plus taken plus still counted |
| `MeteringRuns.NothingLost` | libs/metering/flush.go:97-103 | recorded usage never exceeds that sum, and equals it if and only if no failed write stored a row of the tenant |
| `MeteringRuns.OneShardPerTenant` | libs/metering/metering.go:82-111 | in every reachable state a tenant is counted in exactly one shard |
| `MeteringRuns.RefinesOneMap` | libs/metering/metering.go:91-132 | every step of the sharded recorder is a step of one counter map |
| `MeteringRuns.FlushStoresEverything` | libs/metering/flush.go:82-112 | from every state of every run a flush that is not disturbed adds exactly each tenant's counted usage to the store and leaves every counter at zero |
| `Dataloader.EveryIndexOnce` | core/dataloader/src/pipeline.rs:169-223 | in every interleaving that ends with a live receiver each sample is sent as often as the index list names it |
| `Dataloader.EpochSendsEachSampleOnce` | core/dataloader/src/pipeline.rs:133-147 | a sequential or shuffled epoch sends every sample exactly once |
| `Dataloader.MessagesAreDisjoint` | core/dataloader/src/pipeline.rs:189-215 | in every run each message carries the slice of the index list its start names, and no two share a position or a batch id |
| `Dataloader.EveryPositionOnce` | core/dataloader/src/pipeline.rs:169-223 | in every interleaving that ends with a live receiver each position of the index list is in exactly one message, at its place in the slice |
| `Dataloader.OneWorkerKeepsOrder` | core/dataloader/src/pipeline.rs:169-223 | with one worker the slices sent are always a prefix of the index list, and all of it in the end if the receiver lives |
| `Dataloader.ResumeCoversTail` | core/dataloader/src/pipeline.rs:158-166 | resuming at an offset sends exactly the samples from it on, with one worker in order, and nothing past the end |
| `Dataloader.NoWorkersNoMessages` | core/dataloader/src/pipeline.rs:182-189 | without workers nothing is sent |
| `Dataloader.StreamEnds` | core/dataloader/src/pipeline.rs:187-219 | every run has at most four steps per index, one per worker and one more, and stops only with all workers done |
| `Dataloader.OkMeansLoaded` | core/dataloader/src/pipeline.rs:196-212 | an Ok message carries samples that all load; without panicking decoders a message is Ok exactly then |
| `Dataloader.DroppedReceiverStopsAll` | core/dataloader/src/pipeline.rs:214-217 | once the receiver is dropped nothing more is sent and every worker claims at most one more slice |

## Left out

- Weak memory: the state machines are sequentially consistent; Release/Acquire orderings, core pinning and spinning are not modelled.
- Handlers: a handler is a step that sees the slot and may overwrite it; validation, risk and publish handlers are not modelled, of the ledger handler only its retry loop.
- `generic_ring_buffer`, several producers, `resize`, and pipelines with no worker at all.
- The bounded spin before a sharded publish: the front end is modelled as trying once.
- 64-bit wrap-around of sequence numbers, counters and window arithmetic; only invoices model it.
- JumpHash.JumpHash: bucket counts from 2^32 on are excluded, because exactly there a jump may no longer fit the conversion back to a 64-bit integer (`ConversionFitsIff`), and what the conversion then gives is up to the machine.
- Decimal internals: amounts are whole units of 10^-8 and the library's addition and subtraction are parameters assumed exact below 2^96 units.
- Ledger.BooksBalance: accounts enter with zero totals, as `Account::new` makes them; the unbounded mode, pending flags and the mirror-image credit flag, which the in-memory ledger ignores, are not modelled.
- The ledger behind the batch call is abstract: it commits an id at most once, decides freely about new ids, and reports a held id with a kind that contains "Exist" and no other refusal with such a kind.
- CrossShardTheorems.FundsConserved: one currency, and both nodes reach the same ledger, as the coordinator's design assumes.
- Pricing.InvoiceWithinBound: window counts are taken to be non-negative.
- MeteringRuns.NothingLost: deltas are taken to be positive, as the recorder's interface demands.
- Dataloader.EveryIndexOnce: a batch size of zero and the channel's capacity are not modelled; the permutation drawn by the shuffle and the set of samples that do not load are parameters.
- Clocks, randomness, the network, files, gRPC, Aeron, io_uring, TigerBeetle itself, authentication, policies, dashboards, benchmarks other than the result-ring client, tokenizers and models: I/O or presentation.
- Currency tables, id types, error enums and configuration checks: they would only add easy members.
