# Verified model of the crypto sniping bot's core

This project models the parts of the bot where the hard reasoning is, and proves what they promise.
`dafny verify dfyconfig.toml` checks all of it.

* **The event-bus worker protocol.** Any number of workers claim events from a shared store, run a stage handler,
  insert its output and mark the event processed. Failures go through a retry counter, a dead-letter move or a claim
  release. `EventStore` gives each adapter call as one atomic operation with the semantics of the Postgres engine;
  `WorkerProtocol` is the state machine of all workers, whose steps are single calls (each may succeed, fail, or take
  effect with its reply lost), handler returns, crashes and claim expiries. A handler may fail transiently; when it
  succeeds, its output is a function of the event. `ExactlyOnce`, `Identity`, `Attempts`, `Termination`, `Causality`,
  `Barrier`, `Refusals`, `Chains` and `Drain` prove the safety, completeness, naming, retry, termination and trace
  properties over every run. `Worker` is the loop of `RunWorker` as imperative code over a mutable bus, proved to be a run of that state
  machine.
* **Base58 and transaction decoding.** `Radix` is positional notation; `Base58` is `decodeBase58`; `Base58Encoder` is
  `base58Encode` as it is written, and the same loop run from the most significant byte; `Base58RoundTrip` says exactly
  which of the two inverts the decoder, and on which inputs. The scheme is that of draft-msporny-base58-03, sections 3
  and 4. `Transaction` resolves accounts and numbers instructions.
* **Resource controllers.** `TokenBucket`, `GasLedger`, `ComputeSlots` and `Halt`.
* **Endpoint failover and the price cache.** `Failover` and `PriceCache`.
* **Aggregation, optimistic writes, resumable jobs.** `Profiles`, `SystemState`, `ForceClose` and `Migrations`, with
  `Sorting`, `Filter` and `Text` below them.

Times are integers of nanoseconds and prices are opaque strings; statistics and thresholds are reals. SHA-256 identifiers
are an injective function where a lemma says so. The clock, the network, the resolver and the database's faults enter as
parameters or as labels of a step.

## What turned out to be false of the code

* `base58Encode` does not invert `decodeBase58`. It divides its buffer from the last byte to the first, that is, as a
  little-endian number, and strips zero bytes from its low end. `Base58RoundTrip.WrittenRoundTrip` says exactly when an
  input comes back, `CollideExactlyWhen` exactly when two inputs share an encoding, `WrittenRoundTripsPalindromes` and
  `InjectiveWithoutStrips` give the plain forms, `WrittenCollision` and `PubkeyCollision` inputs that collide.
  Most-significant-first, the loop is the two-sided inverse except on all-zero input, which gets one `1` too many
  (`DecodeAfterEncode`, `EncodeAfterDecode`).
* The retry barrier does not cover an output that the store refuses: such an event is claimed, processed and refused again
  after each claim expiry, without being counted (`Refusals.RefusedOutputLoops`). For the events of all stages it holds exactly
  if on every chain from a root each output has its trace filled in and names no cause, itself or an event of its chain so
  far, or is on that chain already (`Chains.BarrierForAllExactly`; for a single root `Refusals.BarrierExactly`), in
  particular for handlers that use `PropagateTrace` (`Chains.PropagatingChainsFit`), and in general up to one attempt per
  fault and per refused output (`Barrier.AttemptsPerMishap`, attained by `Refusals.RefusalsAttainBound`).
* `InsertEvent` promises an orphan error for a missing cause, but the foreign key accepts a row that names itself
  (`Causality.SelfCausedIsStored`); causation is a forest exactly when no stored row does (`Causality.CausalityIsForest`).
* `halt.go` says in its comment that only HALTED resumes; the code also resumes from DEGRADED, and goes from HALTED to
  DEGRADED. The model follows the code.
* The CAS promotion of an endpoint compares the ever-growing index with a captured one below n, so it can win only
  during the first round over the endpoints (`Failover.PromotionsAreFew`, `NoPromotionAfterFirstRound`).
* A refused entry that has not taken back its add can make the next entry fail while slots are free
  (`ComputeSlots.SpuriousRefusalHappens`); `ComputeSlots.Admission` says exactly when an entry is refused.
* A cohort whose all-time-high median is below one gets a tenth percentile above its median (`Profiles.AthEstimates`).
* A day that comes back hands out the daily gas caps again (`GasLedger.ReturnBreaksCaps`); the caps hold exactly over
  dates on which none does (`GasLedger.DailyCapsExactly`). An unknown wallet passes `CheckWallet` even where the cap is zero
  (`GasLedger.RefusingChecks`).
* Inner groups of more than a thousand instructions can run into the numbers of later groups; the numbers differ exactly
  if the groups keep apart (`Transaction.GroupsOverlap`, `NumbersDistinctExactly`).
* A spuriously failing lookup makes the migration runner execute an applied file again
  (`Migrations.SpuriousLookupRepeats`); the recorded set stays a prefix all the same (`RecordedIsPrefix`).
* The Postgres engine goes on listing a force-closed position as open, since it selects among the rows of status `open`
  of an append-only table (`ForceClose.EngineKeepsListing`), and a second command closes it once more
  (`ForceClose.SecondCommandClosesAgain`).

Not of this engine, but of the adapter's contract, which has closed positions leave the list: a force close that is replayed
after its completion falls back to position prefixes and may close other positions
(`ForceClose.ReplayAfterCompletionWidens`, `WideningHappens`).

## Model

| member | source | states |
|---|---|---|
| `Trace.ContentAddressing` | shared/contracts/event_envelope.go:21-53 | identifiers that the envelope constructor takes from the payload alone tell all envelopes apart, provided that the payload determines kind and trace |
| `Trace.SharedPayloadSharesId` | shared/contracts/event_envelope.go:25-38 | without that proviso two envelopes around one payload always collide |
| `WorkerProtocol.AnythingCanHappen` | sniper-bot/internal/orchestrator/worker.go:111-258 | a busy worker may crash at any time, a handler return in any way, and each store call fail without an effect or take its whole effect with the reply lost, without moving another worker |
| `ExactlyOnce.StoreGrows` | shared/database/adapter.go:30-46 | no step of anybody removes a row, changes its event, lowers its retry count, takes back `processed` or alters a dead-letter row |
| `ExactlyOnce.RunSound` | sniper-bot/internal/orchestrator/worker.go:111-258 | the invariant behind the safety results: each row is derived and, if processed, settled; each worker's knowledge of its event is right even after its claim went stale |
| `ExactlyOnce.StoredEventsAreDerived` | sniper-bot/internal/orchestrator/worker.go:166-171 | under any interleaving, faults, crashes and expiries, every stored event lies in the closure of the roots under the handlers, and no two rows carry one identifier |
| `ExactlyOnce.NoSilentLoss` | sniper-bot/internal/orchestrator/worker.go:146-176 | a processed event has its output stored, or its handler chose none, or it took the lifecycle-advanced skip, or it has a dead-letter row with a stored retry count above the cap |
| `ExactlyOnce.DeadLetterNeedsCountedFailures` | sniper-bot/internal/orchestrator/worker.go:201-247 | a dead-letter row exists only where the stored counter itself passed the cap |
| `ExactlyOnce.FailedCounterWriteReleases` | sniper-bot/internal/orchestrator/worker.go:201-207 | a counter call that reports an error leads to a release, whatever the stored counter is |
| `ExactlyOnce.CompleteRunStoresClosure` | sniper-bot/internal/orchestrator/worker.go:111-184 | once all is processed with nothing dead-lettered or skipped, the store holds exactly the closure of the roots, if and only if no two events of the closure share an identifier |
| `ExactlyOnce.ScheduleIndependence` | sniper-bot/internal/orchestrator/worker.go:111-184 | where identifiers do not collide, two complete runs store the same events under the same identifiers, whatever their schedules and faults |
| `Identity.SpellInjective` | sniper-bot/internal/modules/data_quality/data_quality.go:759 | a stage's name for its output, such as `dq:` and the input's identifier and what was decided, spells out the stage and the key |
| `Identity.InputKeysSuffice` | sniper-bot/internal/modules/features/features.go:199 | where every root is named after its place on the chain and equal keys of one stage come from equal inputs, no two events of the closure share an identifier; so for the stages that take the input's identifier as their key |
| `Identity.CollisionlessExactly` | sniper-bot/internal/workers/helpers.go:88-114 | with any keys, identifiers do not collide if and only if outputs named alike are one output; roots never collide |
| `Identity.PipelineExactlyOnce` | sniper-bot/internal/modules/ingestion/normalize.go:366-372 | exactly-once for stages whose keys tell their inputs: complete runs store the closure, and any two of them the same events |
| `Identity.OtherKeysExactly` | sniper-bot/internal/modules/execution_solana/execution_solana.go:194 | for stages with another key, such as an execution id, a complete run stores the closure if and only if outputs named alike are one output |
| `Attempts.AttemptBound` | sniper-bot/internal/orchestrator/worker.go:105-108 | an event is handed to a handler at most cap + 1 times, plus once per claim expiry and per failed counter or dead-letter call on it, in any run |
| `Attempts.PoisonPill` | sniper-bot/internal/orchestrator/worker.go:15-18 | the bound is reached: a root whose handler always fails takes exactly cap + 1 attempts and is then dead-lettered |
| `Attempts.AlwaysPaid` | sniper-bot/internal/orchestrator/worker.go:192-258 | the invariant behind the bound, with workers that still have to release a claim counted against it |
| `Attempts.ConfiguredBarrier` | sniper-bot/internal/orchestrator/worker.go:105-108 | with a configured positive number n of retries, and with n = 5 for any other, at most n + 1 attempts without setbacks, reached by a root whose handler keeps failing, whose dead-letter row counts n + 1 |
| `Termination.StoredBound` | sniper-bot/internal/orchestrator/worker.go:20-31 | with acyclic stages a run stores at most the depth plus one of each root, summed over the roots |
| `Termination.StoredWithinUniverse` | sniper-bot/internal/orchestrator/worker.go:166-171 | the stored identifiers lie in the finite set of those downstream of the roots |
| `Termination.WorkPaidByAttempts` | sniper-bot/internal/orchestrator/worker.go:118-184 | each confirmed claim pays for at most five steps of its worker |
| `Termination.WorkIsBounded` | sniper-bot/internal/orchestrator/worker.go:192-258 | with finite roots and acyclic stages, worker steps are bounded by events, retry cap and setbacks; an expiry is a setback here, and `Barrier.WorkPerMishap` and `Drain` trace it to its cause |
| `Termination.QuietMeansDrained` | sniper-bot/internal/orchestrator/worker.go:118-130 | where no confirmed step is possible, every worker is idle and every consumable event is processed |
| `Causality.CausalityIsForest` | shared/database/migrations/20260101000001_initial_schema.sql:20-24 | in every reachable store causation is a forest if and only if no row names itself, and then each chain is shorter than the table |
| `Causality.TraceLeadsToRoot` | shared/contracts/trace.go:44-54 | with propagating handlers every chain ends at a root event with the same trace, correlation and version |
| `Causality.SelfCausedIsStored` | shared/database/engines/postgres/events.go:60-90 | a run that stores an event naming itself, after which causation is no forest |
| `Causality.StoredTracesFilled` | shared/database/engines/postgres/events.go:27-29 | in any run every stored event has its trace fields filled in |
| `Causality.PropagatedOutputAccepted` | shared/database/engines/postgres/events.go:26-90 | in no reachable store is the output of a propagating handler for a stored event refused |
| `Barrier.AttemptsPerMishap` | sniper-bot/internal/orchestrator/worker.go:111-258 | in any run an event is handed out at most cap + 1 times, plus once per fault and once per refused output of its own; an expiry costs nothing unless a worker is still at work |
| `Barrier.AlwaysAccounted` | sniper-bot/internal/orchestrator/worker.go:192-258 | the invariant behind it, in which only claims of workers still at work count |
| `Barrier.ClaimsAreHeld` | shared/database/engines/postgres/events.go:124-138 | every expiry has a cause: without faults, refused outputs and lost claim replies, a claim belongs to a worker still at work |
| `Barrier.QuietEvents` | sniper-bot/internal/orchestrator/worker.go:105-108 | such an event is attempted at most cap + 1 times, and can only expire under a worker |
| `Barrier.NoInsertRefused` | shared/contracts/trace.go:44-54 | in a run with propagating handlers no enabled insert is refused |
| `Barrier.AcceptedAttempts` | sniper-bot/internal/orchestrator/worker.go:105-108 | in a pipeline where no run meets a refusal, every event is attempted at most cap + 1 times, plus once per fault of its own |
| `Barrier.PropagatingAttempts` | sniper-bot/internal/orchestrator/worker.go:105-108 | with propagating handlers at most cap + 1 attempts, plus one per fault |
| `Barrier.WorkPerMishap` | sniper-bot/internal/orchestrator/worker.go:111-258 | worker steps of all events together are bounded by storable events, retry cap, faults and refused outputs |
| `Refusals.RefusedOutputLoops` | sniper-bot/internal/orchestrator/worker.go:166-171 | a refused output is attempted any number of times without a fault, a retry count or a dead letter |
| `Refusals.RefusalsAttainBound` | sniper-bot/internal/orchestrator/worker.go:166-171 | for every m, a run with m refused outputs, no fault and exactly cap + 1 + m attempts |
| `Refusals.BarrierExactly` | sniper-bot/internal/orchestrator/worker.go:166-171 | for a root, where identifiers do not collide: at most cap + 1 attempts in every run without faults, if and only if the handler keeps silent or its output has its trace filled in and names no cause but its input or itself |
| `Chains.FittingNeverRefuses` | shared/database/engines/postgres/events.go:26-90 | where on every chain from a root the outputs are filled in and name no cause, themselves or an event of their chain so far, or are on it already, no run refuses an output, even if identifiers collide |
| `Chains.FittingAttempts` | sniper-bot/internal/orchestrator/worker.go:105-108 | for such pipelines an event of any stage is attempted at most cap + 1 times, plus once per fault of its own |
| `Chains.MisfitLoops` | sniper-bot/internal/orchestrator/worker.go:166-171 | from the first link of a chain that does not fit, a run that gets there without a fault and attempts its event any number of times |
| `Chains.BarrierForAllExactly` | sniper-bot/internal/orchestrator/worker.go:166-171 | with roots that the empty store takes, every event of every stage keeps cap + 1 attempts in all runs without faults on it, if and only if all chains fit |
| `Chains.PropagatingChainsFit` | shared/contracts/trace.go:44-54 | handlers that propagate their input's trace make all chains fit |
| `Drain.ExpiriesPaidByClaims` | shared/database/engines/postgres/events.go:109-149 | in any run, expiries and rows still claimed together are no more than the claims that took effect |
| `Drain.ProgressIsBounded` | sniper-bot/internal/orchestrator/worker.go:111-185 | after any run over acyclic stages, confirmed calls, handler returns and expiries together number at most six per storable event and retry allowance and per mishap, plus one per earlier claim |
| `Drain.HealthyStepExists` | sniper-bot/internal/orchestrator/worker.go:118-130 | where outputs are not refused, a reachable state with work left has a next step that is neither a fault nor a refusal |
| `Drain.HealthyRunsDrain` | sniper-bot/internal/orchestrator/worker.go:111-185 | whatever went wrong before, steps without a further mishap come to an end within that bound, and only where every worker is idle and every consumable event processed |
| `Drain.EveryRunCanDrain` | sniper-bot/internal/orchestrator/worker.go:111-185 | every reachable state has such a continuation to its end |
| `Worker.Bus.InsertEvent` | shared/database/engines/postgres/events.go:26-90 | appends unless refused or present; the trace check comes before any store access, an existing row before the foreign key |
| `Worker.Bus.ClaimNextEvent` | shared/database/engines/postgres/events.go:109-149 | claims one unprocessed event without a live claim of the wanted kinds, or nothing when there is none |
| `Worker.Bus.MarkEventProcessed` | shared/database/engines/postgres/events.go:152-159 | marks the row processed and clears its claim |
| `Worker.Bus.ReleaseEventClaim` | shared/database/engines/postgres/events.go:164-171 | clears whoever's claim is on an unprocessed row, and touches nothing else |
| `Worker.Bus.IncrementEventRetry` | shared/database/engines/postgres/hardening.go:132-147 | raises the stored counter and returns it; an unknown event is an error |
| `Worker.Bus.MoveToDLQ` | shared/database/engines/postgres/hardening.go:150-190 | keeps the first dead-letter row and marks the source row processed, in one transaction |
| `Worker.HandleStageFailure` | sniper-bot/internal/orchestrator/worker.go:192-258 | its calls are a run of the state machine from `Failing` to `Idle`; an errored counter call leaves the dead-letter table alone |
| `Worker.HandleStageSuccess` | sniper-bot/internal/orchestrator/worker.go:166-176 | its calls are a run of the state machine from a successful handler to `Idle`; a failed insert or mark is not counted and releases nothing |
| `Worker.ServeClaimed` | sniper-bot/internal/orchestrator/worker.go:146-176 | the three outcomes of a handler, each a run of the state machine |
| `Worker.ServeNext` | sniper-bot/internal/orchestrator/worker.go:118-184 | one turn of the loop is a run of the state machine from idle to idle with one claim, on an event of the worker's kinds, or no step at all if there was nothing to claim |
| `Worker.RunWorker` | sniper-bot/internal/orchestrator/worker.go:92-185 | every script entry is served by one whole turn over the store the turn before has left, which claims an event of the worker's kinds only, and all turns together are a run of the state machine |
| `Base58.AlphabetOrder` | sniper-bot/internal/rpc/pool_price_solana.go:348-349 | the alphabet lists the characters of the digits 0 to 57 in order |
| `Base58.MultiplyInPlace` | sniper-bot/internal/rpc/solana_rpc.go:1404-1409 | the in-place loop multiplies the number by 58 and adds the digit, with the carry out below 58 |
| `Base58.MultiplyAdd` | sniper-bot/internal/rpc/solana_rpc.go:1404-1413 | both inner loops together, never producing a leading zero byte |
| `Base58.FindDigit` | sniper-bot/internal/rpc/solana_rpc.go:1394-1403 | the position of a character in the alphabet, or none |
| `Base58.DecodeBase58` | sniper-bot/internal/rpc/solana_rpc.go:1386-1420 | one zero byte per leading `1`, then the shortest big-endian bytes of the base-58 value; nothing for an invalid string |
| `Base58RoundTrip.DecodeInjective` | sniper-bot/internal/rpc/solana_rpc.go:1386-1420 | two valid strings that decode alike are equal |
| `Base58Encoder.QuotientFits` | sniper-bot/internal/rpc/pool_price_solana.go:364-368 | no quotient of the inner loop exceeds a byte |
| `Base58Encoder.DividePassDown` | sniper-bot/internal/rpc/pool_price_solana.go:363-368 | the inner loop as written is long division of the little-endian value by 58 |
| `Base58Encoder.DividePassUp` | sniper-bot/internal/rpc/pool_price_solana.go:363-368 | run from the first byte, the same loop is long division of the big-endian value by 58 |
| `Base58Encoder.StripFront` | sniper-bot/internal/rpc/pool_price_solana.go:370-372 | stripping divides the little-endian value by 256 while it can, and keeps the big-endian value |
| `Base58Encoder.WrittenLoopRound` | sniper-bot/internal/rpc/pool_price_solana.go:362-373 | one round emits the next digit and lowers the little-endian value, or empties a buffer of zeros: the loop ends |
| `Base58Encoder.Base58Encode` | sniper-bot/internal/rpc/pool_price_solana.go:351-381 | the encoder as written computes `WrittenEncode`, a function of the little-endian value and the leading zeros |
| `Base58Encoder.EncodeMostSignificantFirst` | sniper-bot/internal/rpc/pool_price_solana.go:351-381 | the same loop run most significant byte first gives the base-58 numeral of the big-endian value after one `1` per leading zero |
| `Base58Encoder.PubkeyFromBytes` | sniper-bot/internal/rpc/pool_price_solana.go:331-346 | screens out wrong lengths and the all-zero key, and otherwise encodes |
| `Base58RoundTrip.DecodeAfterEncode` | sniper-bot/internal/rpc/pool_price_solana.go:351-381 | decoding undoes the most-significant-first encoder if and only if the input is empty or not all zero |
| `Base58RoundTrip.EncodeAfterDecode` | sniper-bot/internal/rpc/solana_rpc.go:1386-1420 | that encoder undoes decoding if and only if the valid string is empty or not all ones |
| `Base58RoundTrip.WrittenRoundTrip` | sniper-bot/internal/rpc/pool_price_solana.go:351-381 | the encoder as written round-trips if and only if the number its loop spells out equals the big-endian value |
| `Base58RoundTrip.WrittenValueBound` | sniper-bot/internal/rpc/pool_price_solana.go:362-373 | the number spelled out never exceeds the little-endian value, and equals it if and only if no round strips early |
| `Base58RoundTrip.WrittenRoundTripsPalindromes` | sniper-bot/internal/rpc/pool_price_solana.go:362-373 | without early strips exactly the palindromes round-trip; with one, only an input of smaller big-endian value can |
| `Base58RoundTrip.EarlyStripCanRoundTrip` | sniper-bot/internal/rpc/pool_price_solana.go:370-372 | the bytes 0 and 58 lose a byte early and still come back |
| `Base58RoundTrip.CollideExactlyWhen` | sniper-bot/internal/rpc/pool_price_solana.go:351-381 | two inputs share an encoding if and only if they have equally many leading zero bytes and their loops spell out the same number |
| `Base58RoundTrip.InjectiveWithoutStrips` | sniper-bot/internal/rpc/pool_price_solana.go:351-381 | among inputs of one length that never strip early, the encoder is injective |
| `Base58RoundTrip.StripsAreTheOnlyCause` | sniper-bot/internal/rpc/pool_price_solana.go:331-346 | of two colliding inputs of one length, as two keys are, one strips early and spells out less than its value |
| `Base58RoundTrip.WrittenCollision` | sniper-bot/internal/rpc/pool_price_solana.go:362-373 | every input that is not all zero shares its encoding with itself followed by a zero byte |
| `Base58RoundTrip.WrittenCollisionExample` | sniper-bot/internal/rpc/pool_price_solana.go:362-373 | `[1]` and `[1, 0]` both encode to `"2"` |
| `Base58RoundTrip.StripCollision` | sniper-bot/internal/rpc/pool_price_solana.go:370-372 | an early strip makes two different little-endian values produce the same digits |
| `Base58RoundTrip.PubkeyCollision` | sniper-bot/internal/rpc/pool_price_solana.go:331-346 | two different 32-byte keys are printed alike |
| `Transaction.ParseTransaction` | sniper-bot/internal/rpc/solana_rpc.go:1316-1381 | the result is one instruction per slot whose program index is in range, in the order of the message: its program is the key at that index, its accounts the keys at the indices in range, its data the bytes its string stands for, its number the slot's |
| `Transaction.CollectLists` | sniper-bot/internal/rpc/solana_rpc.go:1333-1372 | the instruction of a slot stands after as many others as there are earlier slots with a program in range; with all account indices in range, account k is the key of index k; its data is encoded as the string again unless that is invalid or all ones |
| `Transaction.SlotsInSourceOrder` | sniper-bot/internal/rpc/solana_rpc.go:1351-1372 | instruction j of group k comes after the top-level ones and those of the groups before it, and is numbered n + 1000 times the outer index + j |
| `Transaction.ResolvePositions` | sniper-bot/internal/rpc/solana_rpc.go:1337-1342 | no account shifts if and only if all indices are in range; then each account is the key it names |
| `Transaction.KeyOrder` | sniper-bot/internal/rpc/solana_rpc.go:1322-1329 | an index names a static key, then a writable one, then a read-only one |
| `Transaction.IndicesDistinct` | sniper-bot/internal/rpc/solana_rpc.go:1351-1372 | all instruction numbers differ when groups hold at most a thousand instructions and outer indices are distinct and non-negative |
| `Transaction.GroupsOverlap` | sniper-bot/internal/rpc/solana_rpc.go:1363-1367 | of two groups that are not empty, the lower one runs into the other if and only if it holds more than a thousand instructions per step between their outer indices |
| `Transaction.NumbersDistinctExactly` | sniper-bot/internal/rpc/solana_rpc.go:1351-1372 | all numbers differ if and only if no two non-empty groups meet and none meets the numbers at the top, for any outer indices |
| `Transaction.ResultDistinctExactly` | sniper-bot/internal/rpc/solana_rpc.go:1333-1372 | the same for the result, if and only if over the slots that are collected |
| `TokenBucket.UpperBound` | internal/resource_control/rpc_budget.go:42-64 | from s to t at most capacity + ceil(rate (t - s)) calls succeed, although the first fill may cover time before s |
| `TokenBucket.StretchBound` | internal/resource_control/rpc_budget.go:42-64 | the same for any stretch in the middle of a run |
| `TokenBucket.UpperBoundIsReached` | internal/resource_control/rpc_budget.go:42-64 | for every positive capacity and every k, a bucket and calls over a time that earns k tokens rounded up, of which capacity + k succeed |
| `TokenBucket.Balance` | internal/resource_control/rpc_budget.go:42-64 | over any run, tokens held and calls granted are the initial tokens and those credited, less what the clamp has cut off |
| `TokenBucket.SpillsExactly` | internal/resource_control/rpc_budget.go:46-51 | nothing is cut off if and only if no call finds more earned than there is room for |
| `TokenBucket.GrantedAtLeast` | internal/resource_control/rpc_budget.go:42-64 | at any rate, if nothing is cut off and the last call is refused, more calls are granted than the initial tokens plus the part SECOND / (2 SECOND - 1) of what the elapsed time has earned, but for a token |
| `TokenBucket.HeldIsGranted` | internal/resource_control/rpc_budget.go:55-64 | as many calls as there are tokens are granted, however fast they come |
| `TokenBucket.LowerBound` | internal/resource_control/rpc_budget.go:42-52 | tokens credited before clamping are at least the part SECOND / (2 SECOND - 1) of what the time up to the last fill has earned |
| `TokenBucket.HalfIsCredited` | internal/resource_control/rpc_budget.go:42-52 | so more than half, once anything has been credited |
| `TokenBucket.LowerBoundIsReached` | internal/resource_control/rpc_budget.go:42-52 | the bound is attained for every number of fills, from an empty bucket whose every credited token is granted at once |
| `TokenBucket.LiveBucket.Fill` | internal/resource_control/rpc_budget.go:42-52 | credits whole tokens, clamps, and moves the fill time only if something was credited |
| `TokenBucket.LiveBucket.TryAcquire` | internal/resource_control/rpc_budget.go:55-64 | grants exactly if a token is there after the fill, and takes it |
| `TokenBucket.RPCBudget.BucketOf` | internal/resource_control/rpc_budget.go:87-96 | the endpoint's one bucket, made full on demand, with all others untouched |
| `TokenBucket.RPCBudget.TryAcquire` | internal/resource_control/rpc_budget.go:99-105 | one attempt draws on the endpoint's own bucket alone |
| `Halt.ModeIsLatestVerdict` | internal/resource_control/halt.go:22-60 | the mode after any run is fixed by the latest reading outside the open band between resume and degraded |
| `Halt.OtherModeKept` | internal/resource_control/halt.go:52-60 | a mode set by hand survives if and only if no reading reaches the degraded threshold |
| `Halt.ReasonTells` | internal/resource_control/halt.go:22-60 | the reason is that of the threshold reached, or of the mode a recovery has ended, if and only if that happened, and the reading is passed on |
| `Halt.TripsAreRecovered` | internal/resource_control/halt.go:22-60 | in any run each trip is ended by exactly one reported recovery, but for the one that still lasts |
| `Halt.HysteresisBound` | internal/resource_control/halt.go:22-60 | k trips out of BALANCED need readings of total variation at least 2 (k - 1) (degraded - resume) |
| `Halt.SwingsAttainBound` | internal/resource_control/halt.go:22-60 | the bound is attained for every k |
| `ComputeSlots.DepthIsHeldPlusPending` | internal/resource_control/compute_budget.go:36-48 | in every interleaving depth is held slots plus undos still due, and entries hold at most maxDepth slots |
| `ComputeSlots.Admission` | internal/resource_control/compute_budget.go:36-43 | exits are always let in; an entry is refused exactly if held slots and undos still due reach maxDepth |
| `ComputeSlots.SpuriousRefusal` | internal/resource_control/compute_budget.go:36-43 | a refusal while slots are free needs as many undos still due as slots are free |
| `ComputeSlots.SpuriousRefusalHappens` | internal/resource_control/compute_budget.go:36-43 | a run in which an entry is refused while no slot is held |
| `ComputeSlots.ComputeBudget.Enqueue` | internal/resource_control/compute_budget.go:36-43 | one caller at a time: refused exactly for an entry at the cap, with the depth restored |
| `GasLedger.Conservation` | internal/resource_control/gas_budget.go:57-125 | after any run of operations the system total is the sum of the wallet totals |
| `GasLedger.DailyCaps` | internal/resource_control/gas_budget.go:66-88 | as long as no day comes back after a different one, what is accepted on a day since the last manual reset stays within the wallet's cap and the system's, whatever the amounts |
| `GasLedger.AlwaysTracks` | internal/resource_control/gas_budget.go:57-125 | under the same condition the ledger's totals are those of the history of its current day since the last manual reset |
| `GasLedger.ReturnBreaksCaps` | internal/resource_control/gas_budget.go:57-64 | any sequence of dates on which a day comes back has a run that lets a wallet have its cap twice |
| `GasLedger.DailyCapsExactly` | internal/resource_control/gas_budget.go:57-88 | the cap holds in every run over given dates if and only if no day comes back after a different one |
| `GasLedger.BackwardDatesBreakCaps` | internal/resource_control/gas_budget.go:57-64 | the shortest such run, a clock that goes back a day and returns |
| `GasLedger.RefusedChangesNothing` | internal/resource_control/gas_budget.go:78-83 | a refused record changes no total |
| `GasLedger.RefusingChecks` | internal/resource_control/gas_budget.go:91-116 | CheckWallet refuses exactly the known wallets for which every positive record would be refused; an unknown wallet passes, also with a cap of zero or less, where nothing would be recorded; CheckSystem refuses if and only if every positive record is over the system's cap |
| `GasLedger.GasBudget.RecordGasUsed` | internal/resource_control/gas_budget.go:67-88 | rolls the day over, then records or refuses by wallet cap before system cap |
| `GasLedger.GasBudget.CheckWalletBudget` | internal/resource_control/gas_budget.go:91-104 | rolls the day over and refuses a known wallet at its cap |
| `GasLedger.GasBudget.CheckSystemBudget` | internal/resource_control/gas_budget.go:107-116 | rolls the day over and refuses with the system at its cap |
| `GasLedger.GasBudget.ResetAll` | internal/resource_control/gas_budget.go:119-125 | empties both totals and starts the current day |
| `Failover.SolanaWS.ActiveWSEntry` | sniper-bot/internal/rpc/solana_rpc.go:217-245 | the first endpoint in cyclic order out of cooldown; with none, the first of those that are free soonest |
| `Failover.SolanaWS.MarkRateLimited` | sniper-bot/internal/rpc/solana_rpc.go:251-264 | puts exactly the captured slot into cooldown |
| `Failover.SolanaWS.ResetFailCount` | sniper-bot/internal/rpc/solana_rpc.go:328-333 | clears exactly the captured slot's count |
| `Failover.SolanaWS.RecordEOFFailure` | sniper-bot/internal/rpc/solana_rpc.go:277-324 | the index moves by one on either branch; the count is raised, cleared or left alone |
| `Failover.CallAlone` | sniper-bot/internal/rpc/solana_rpc.go:277-324 | an uninterrupted call of the concurrent model does what the method does |
| `Failover.RecoveredClears` | sniper-bot/internal/rpc/solana_rpc.go:328-333 | a successful handshake clears its slot's count and touches nothing else |
| `Failover.NextSlot` | sniper-bot/internal/rpc/solana_rpc.go:217-245 | the places searched follow each other around the endpoints |
| `Failover.EveryCallAdvancesOnce` | sniper-bot/internal/rpc/solana_rpc.go:277-324 | in every interleaving the index counts the finished calls, plus those that only have a counter left to clear |
| `Failover.PromotionsAreFew` | sniper-bot/internal/rpc/solana_rpc.go:291-308 | the promotion's swap wins at most n times in a client's life |
| `Failover.PromotionsAttained` | sniper-bot/internal/rpc/solana_rpc.go:291-308 | the bound n is reached, with a failure threshold of one and calls in turn |
| `Failover.NoPromotionAfterFirstRound` | sniper-bot/internal/rpc/solana_rpc.go:291-308 | once the index has reached n it never wins again |
| `PriceCache.KeyInjective` | sniper-bot/internal/rpc/pool_price_solana.go:98-109 | for accepted chain names, two tokens never share a cache key |
| `PriceCache.SolanaPoolPriceClient.GetTokenPrice` | sniper-bot/internal/rpc/pool_price_solana.go:98-145 | the branches of the call: the reply and the new cache as functions of the old one and of what the environment answers |
| `PriceCache.RejectsExactly` | sniper-bot/internal/rpc/pool_price_solana.go:98-109 | a call is rejected at the top if and only if the chain does not spell solana, letter case aside, the token is empty, or the client is not configured, each with its own error and in that order; nothing is cached |
| `PriceCache.SolanaPoolPriceClient.CachedFresh` | sniper-bot/internal/rpc/pool_price_solana.go:147-158 | the cached price if it is at most TTL old |
| `PriceCache.SolanaPoolPriceClient.CachedStale` | sniper-bot/internal/rpc/pool_price_solana.go:160-172 | a non-empty price within TTL times multiplier, or none |
| `PriceCache.CacheIsLatest` | sniper-bot/internal/rpc/pool_price_solana.go:109-178 | the shared map holds for each key what a cache-free log of that key's calls gives, and no empty price |
| `PriceCache.KeysAreIndependent` | sniper-bot/internal/rpc/pool_price_solana.go:109-178 | dropping all calls for other keys changes nothing for a key |
| `PriceCache.ServedPrices` | sniper-bot/internal/rpc/pool_price_solana.go:98-178 | every price returned is non-empty and the latest fetched for its key; it comes from the cache untried if and only if it is at most the configured TTL old (5 s by default), and after a failed attempt it is within TTL times the configured multiplier (3 by default) |
| `PriceCache.FailsExactlyWhen` | sniper-bot/internal/rpc/pool_price_solana.go:114-140 | an accepted call fails if and only if the resolver or the fetch gives no price and the latest price is missing or outside both windows of the configuration; the error says how far the call has come |
| `PriceCache.WindowCoversTTL` | sniper-bot/internal/rpc/pool_price_solana.go:79-86 | the stale window is never shorter than the TTL, for any configuration |
| `PriceCache.RefetchesAreSpaced` | sniper-bot/internal/rpc/pool_price_solana.go:147-158 | prices stored for one key follow each other by more than TTL |
| `Profiles.PercentilesAreRanks` | sniper-bot/cmd/hydrate.go:301-314 | the three percentiles are the order statistics of ranks n/10, n/2 and 9n/10, said by counting, and are in order |
| `Profiles.OrderStatisticUnique` | sniper-bot/cmd/hydrate.go:301-314 | the counting definition of an order statistic fixes its value |
| `Profiles.ProfileStatistics` | sniper-bot/cmd/hydrate.go:222-231 | the same for the four columns of a cohort, for every column that holds liquidities, volumes, numbers that times 24 make buys plus sells, or numbers that times the sells make the buys and are one without sells |
| `Profiles.ColumnsDetermined` | sniper-bot/cmd/hydrate.go:198-210 | those properties of a column leave no choice |
| `Profiles.AthEstimates` | sniper-bot/cmd/hydrate.go:245-250 | the three estimates of the all-time-high multiple are in order if and only if the definition's median is at least one |
| `Profiles.SocialPresence` | sniper-bot/cmd/hydrate.go:233-243 | a profile's token count is the number of its members, and its social presence rate the share of those with a social link |
| `Profiles.ShareIsPortion` | sniper-bot/cmd/hydrate.go:240-243 | that share lies between 0 and 1, and times the number of members gives those with a social link |
| `Profiles.ProfilesForgetOrder` | sniper-bot/cmd/hydrate.go:173-294 | permuting the seed tokens changes no profile, nor their order, nor whether the computation fails |
| `Profiles.TokensAddUp` | sniper-bot/cmd/hydrate.go:186-212 | token counts add up to the number of tokens with a cohort key |
| `Profiles.ProfilesReport` | sniper-bot/cmd/hydrate.go:215-294 | one profile per key in use, in ascending order of the keys; each has the statistics, count and social share of its cohort's tokens, and from its definition the prior, the minimum liquidity, both times to rug and the three all-time-high estimates |
| `Profiles.GroupTokens` | sniper-bot/cmd/hydrate.go:186-211 | one group per key in use, whose columns hold, token by token, what they are named after |
| `Profiles.ComputeProfiles` | sniper-bot/cmd/hydrate.go:173-294 | whatever order the groups are visited in, the result is a report as in `ProfilesReport`, or an error naming a key without a definition, if and only if there is one |
| `SystemState.SystemStateTable.UpsertSystemState` | shared/database/engines/postgres/stubs.go:112-145 | writes if and only if the version is the expected one, with the next version; otherwise stale and unchanged |
| `SystemState.SystemStateTable.ExecuteMode` | internal/operator/commands.go:65-95 | changes mode and reason alone, to the trimmed text in capitals and the source's `manual_` reason, if nobody else committed in between, and otherwise leaves the others' writes alone |
| `SystemState.WritesAreSequential` | shared/database/adapter.go:367-369 | however reads and writes interleave, the row is what the successful writes give one after the other: no update is lost |
| `SystemState.ModeChangeIsExact` | internal/operator/commands.go:65-95 | in any interleaving a successful mode change alters only mode and reason relative to the row right before it |
| `SystemState.CommitsExactlyWhen` | shared/database/adapter.go:367-369 | a write succeeds if and only if no write has succeeded since its own read |
| `SystemState.OtherColumnsSurvive` | internal/operator/commands.go:76-87 | mode changes keep what the latest other writer has written |
| `ForceClose.EventIdInjective` | internal/operator/commands.go:210-217 | one command gives different positions different event ids |
| `ForceClose.SeedsDiffer` | internal/operator/commands.go:210-217 | seeds coincide only for the same position, issuer and key if positions and issuers contain no separator |
| `ForceClose.SeedAmbiguous` | internal/operator/commands.go:210-217 | with a separator in the issuer two triples share a seed |
| `ForceClose.PositionTable.InsertPositionState` | shared/database/engines/postgres/trading.go:309-330 | appends the row unless its event id is taken |
| `ForceClose.PositionTable.ForceClosePositions` | internal/operator/commands.go:129-208 | refuses with the right error, or inserts one exit row for each position whose token begins with the trimmed target, or if there is none whose id does, letter case aside and in listed order, up to the first insert that fails, and answers their ids; each row closes its position column by column: identifier, cause, reason, both times, exit price, all else unchanged |
| `ForceClose.TargetsOutcome` | internal/operator/commands.go:137-208 | the outcome above, said without the functions that compute it, for any target that is not blank |
| `ForceClose.ExitIsExitRow` | internal/operator/commands.go:179-187 | an exit row column by column: reason MANUAL, both times the command's, cause the closed row, exit price the old one or else the current price, everything else copied |
| `Text.TrimExact` | internal/operator/commands.go:137-141 | the trimmed text is the text without the blanks at its two ends, and begins and ends with none |
| `Text.TrimmedOnce` | internal/operator/commands.go:137-141 | there is only one such text |
| `Text.LettersExchanged` | internal/operator/commands.go:137-141 | lowering takes the capital letters to the small ones, raising the small to the capital ones, and neither moves any other character |
| `ForceClose.ReplayCompletes` | internal/operator/commands.go:129-208 | a command stopped anywhere and replayed with its id and time while a match is listed leaves the rows of one uninterrupted run |
| `ForceClose.OnlyOneTokenTouched` | internal/operator/commands.go:165-200 | old rows stay, and every new row is, column by column, the exit row of a listed position of one and the same token |
| `ForceClose.EngineKeepsListing` | shared/database/engines/postgres/positions.go:66-79 | a force close changes nothing about which lists of open positions the engine may return |
| `ForceClose.SecondCommandClosesAgain` | internal/operator/commands.go:179-200 | a second command with another id, selecting from the same list, adds a second exit row for every match |
| `ForceClose.ReplayAfterCompletionWidens` | internal/operator/commands.go:148-160 | with a store that drops closed positions from its list, the same prefix selects positions by their id once all token matches are closed |
| `ForceClose.WideningHappens` | internal/operator/commands.go:148-160 | two positions for which it then selects another token |
| `Migrations.MigrationRunner.PendingFiles` | shared/database/migrations.go:77-105 | exactly the .sql files of the directory whose lookup finds no row, in name order, and each once if it is listed once |
| `Migrations.MigrationRunner.Apply` | shared/database/migrations.go:108-126 | the SQL takes effect before the row is written, so a stop in between leaves the file executed and unrecorded |
| `Migrations.MigrationRunner.Run` | shared/database/migrations.go:44-66 | executes and records the pending files in turn and stops at the first that fails; however it ends, no file is executed after one whose name is greater at the first difference |
| `Migrations.CleanRunRecordsAll` | shared/database/migrations.go:44-66 | a run without an error leaves every migration file recorded, from any state, and executes exactly the pending ones, in name order |
| `Migrations.RunInNameOrder` | shared/database/migrations.go:44-66 | the log of every run, however it ends, goes on in name order |
| `Sorting.AtMostExactly` | shared/database/migrations.go:89 | the order of names: a beginning comes before the whole, and otherwise the first place where two names differ decides |
| `Sorting.SmallerComesFirst` | shared/database/migrations.go:89 | in a list in that order, a name that is smaller at the first difference comes first |
| `Migrations.RecordedIsPrefix` | shared/database/migrations.go:44-126 | over any runs stopped anywhere on a directory that only grows at its end, whatever the lookups say, the recorded set is a prefix of the list, with at most the next file executed and unrecorded, and the whole list after a run without an error |
| `Migrations.ExecutedInOrder` | shared/database/migrations.go:44-126 | with true lookups the executions, immediate repetitions aside, are that prefix in order, perhaps with the next file |
| `Migrations.SpuriousLookupRepeats` | shared/database/migrations.go:92-102 | a run without an error executes a recorded file again if and only if its lookup failed spuriously |

## Left out

- The order of claims (priority, creation time) and row locking: a claim may take any claimable event, which admits every order.
- Consumer groups: the kinds that all groups claim together are one set, as the engine keeps one `processed` flag per event.
- `expires_at` and `priority` of events, partition and ordering keys, `created_at`, and batch claims: `InsertEvent` of the modelled path never sets the first two.
- Other operations on the event table: archiving, requeueing from the dead-letter table, `MarkEventExpired`.
- `RecordDecision`, `resolveStageOutcome`, `outputEventID`, `ensureJSON`, panic recovery and logging: what they compute reaches the log or the snapshot column only; a recovered panic is a failed handler.
- Handler logic of the pipeline stages: a handler is any function of the event that may also fail or report an advanced lifecycle.
- Fairness: that steps without mishaps end, and end with everything processed, is proved; that a schedule takes such steps is not.
- Stale claims: `Expire` may happen at any time after a claim, which admits every timeout.
- Wrap-around of 32- and 64-bit counters, of `wsIdx`, of versions and of nanosecond arithmetic.
- Floating-point rounding: token credit, ratios and thresholds are exact; the rank `int(n * 0.1)` is n/10 rounded down.
- Negative rates and bursts of the token bucket, and the waiting loop of `Acquire`; one attempt is modelled.
- Concurrent use of the price cache and of the migration runner: runs are sequential.
- `fetchPriceFromPool` and the layouts of pool accounts: a fetch answers an error or a price string.
- HTTP, WebSocket, JSON, base64, YAML and SQL text: inputs are the values read from them.
- `ExecuteKill` and `ExecuteResume`: they write one row of another table.
- Columns of positions that a force close copies are one field; columns of seed tokens that the profiles do not read are absent.
- Letter case and blanks beyond ASCII in operator commands; the folding of the chain name is complete.
- The `ComputedAt` stamp of a profile, and which of several unknown cohorts an error names.
- A migration file's SQL takes effect as a whole or not at all.
- ExactlyOnce.ScheduleIndependence: assumes that identifiers do not collide, which `Identity.PipelineExactlyOnce` derives from how the stages name their outputs.
- Identity.InputKeysSuffice: the probability and slippage stages take the feature's identifier as their key, which the routed event's name is made of; the execution, position and evaluation stages take an execution or position id, and where such keys do not tell their inputs the condition of `Identity.OtherKeysExactly` is what has to hold.
- Identity.PipelineExactlyOnce: takes tags, identifiers, chain names and transaction hashes to contain no separator.
- The routing events that the features handler inserts by itself beside its output: a handler of the model has one output at most.
- Chains.BarrierForAllExactly: takes roots that need no other row in the store, which ingestion's events do not; `Chains.FittingAttempts` holds for any roots.
- Base58Encoder.EncodeMostSignificantFirst: is not in the repository; it is the written loop with its inner loop run the other way, for comparison.
