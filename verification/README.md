# PufferLab verification model

A Dafny model of the stateful and arithmetic cores of PufferLab, with the properties they promise proved
for every input, every interleaving and every run. `dafny verify dfyconfig.toml` checks all of it.

## What is modelled

- **The owned namespace** (`Disks`, `ReceiptStore`, `OwnedTiny`, `ReceiptHistory`, `Commands`). One receipt
  file authorises writes to, and deletion of, one remote namespace. `Disks` is a directory whose entries and
  file contents exist in a volatile copy and in everything a power loss may still bring back; another process
  may rebind the fixed receipt name between any two system calls. `ReceiptStore` is the create, replace and
  remove calls, system call by system call, with any call allowed to fail. `OwnedTiny` is the protocol over
  whole runs: a receipt call is its renames and directory syncs, and a crash or power loss may come after any
  of them. `ReceiptHistory` joins the two: every state of the directory, in every history of calls, deaths and
  power losses, shows a world of a protocol run, so the protocol's safety is safety of the directory.
  `Commands` is the cleanup and ingestion programs; each of their effects extends a run of the protocol.
- **Descriptors and the receipt text** (`Descriptors`, `ReceiptCodec`). Who owns each open descriptor on every
  success and failure path; the canonical JSON text of a receipt, its parser, and its keyed tags.
- **Batch ingestion** (`Ingestion`, `CheckpointFile`). Waves of batches with partial failure, cancellation,
  checkpoints, power loss between attempts, resume and the readiness check; saving a checkpoint file call by
  call.
- **The evaluation runtime** (`Scheduler`, `EvaluationRuntime`). Drivers, claim, cancel, pump, shutdown and
  restart as events that interleave freely; the object whose locked blocks have exactly those effects.
- **Evaluation arithmetic** (`Metrics`, `Aggregation`, `WorkSchedule`, `Pairing`, `Gate`). Ranking metrics,
  percentiles, the rotated work list and finalisation, paired deltas, the quality gate and its report contract.
- **Diagnostic evidence** (`Scores`, `Rrf`, `Cutoff`). Tolerance-safe membership in a fused list, and what a
  bounded candidate list lets one conclude.
- **Stratified selection** (`Selection`). The round-robin greedy choice of curated queries.
- `Collections` holds sorting, counting and summing shared by the rest.

## What the proofs found

- *No orphan* (every namespace with data is named by the fixed receipt, whatever a power loss leaves) is not
  always true. A restore of an exchanged receipt renames twice, and between the renames the fixed name is
  unbound; a process that dies there leaves the next ingestion free to make a second namespace
  (`OwnedTiny.InterruptedRestoreOrphans`). It holds over a history if and only if no restore makes its first
  rename while a namespace holds data (`ReceiptHistory.NothingOrphanedExactly`). That rename needs a completed
  exchange and then a failed verification or a failed unlink of the prior receipt; during one transition a
  power loss can lose the receipt exactly if it was made (`ReceiptHistory.Account.TransitionReceipt`,
  `ReceiptStore.RestoreCanLose`). A single failing call, without a crash, does not leave the directory so.
- Repeating a completed ingestion in a new process never reports READY with the production writer: nothing is
  pending, so the fresh writer never learns the write specification that its inspection needs
  (`backend/pufferlab/datasets/turbopuffer_writer.py:58-91`). `Ingestion.Ingest` gives the exact condition and
  `Ingestion.RepeatInNewProcess` the failing repeat. The service's own test for a repeated run
  (`backend/tests/datasets/test_unix_application.py:215-250`) keeps one writer for both runs.
- Candidate evidence for a BM25 target whose direct score is zero, but which the score tolerance matches to a
  listed row, is refused by its own contract instead of by the analysis. `Cutoff.CandidateEvidence` states
  exactly when.
- The `len(fused) <= cutoff` alternative of the fused membership test is redundant: such a list always has
  `strictly_higher + tied <= cutoff` (`Rrf.ShortListCounts`); the converse fails. With ranked input lists the
  fused derivation never raises (`Rrf.AbsentBelowBoundary`). The candidate derivation does raise for some lists
  that are only ranked (`Cutoff.CandidateEvidence`), and never for an exact BM25 list and an eligible target
  (`Cutoff.LexicalInferenceSound`).

## Model

| member | source | states |
|---|---|---|
| Disks.OnlyRecoversIsPowerLoss | backend/pufferlab/owned_tiny.py:1153-1253 | the bookkeeping of recoverable values is exactly the set of values that some power loss leaves at the fixed name, both ways |
| Disks.UnboundIsPowerLoss | backend/pufferlab/owned_tiny.py:1288-1321 | some power loss leaves nothing at the fixed name if and only if that name was unbound since the last directory sync |
| Disks.Directory.FsyncDirectory | backend/pufferlab/owned_tiny.py:1153-1253 | after a directory sync only the current binding recovers, and only its settled bytes when they were synced |
| Disks.Directory.ExchangeWithReceipt | backend/pufferlab/owned_tiny.py:1410-1417 | the exchange swaps the two bindings or changes nothing, and adds only the staged file's settled bytes to what a crash can leave |
| Disks.Directory.MoveToReceipt | backend/pufferlab/owned_tiny.py:1420-1427 | a no-replace rename publishes only onto an unbound name |
| ReceiptStore.PrepareTemporary | backend/pufferlab/owned_tiny.py:1256-1285 | the staged bytes are durable under a fresh name; whatever fails, the fixed name and every other file are untouched, and a single failing call leaves no temporary |
| ReceiptStore.AtomicCreateReceipt | backend/pufferlab/owned_tiny.py:1038-1070 | against any rebinding, the new file goes only to an unbound name, is read back there, and never displaces another occupant; success means that no call failed and nothing is left beside it; every crash point recovers nothing new before the rename and the complete receipt besides from then on |
| ReceiptStore.AtomicReplaceReceipt | backend/pufferlab/owned_tiny.py:1073-1150 | compare-and-swap against any rebinding; a foreign occupant is back at the fixed name; success means that no call failed, the prior receipt is dropped and all is durable; at each crash point what the fixed name shows and may recover, before the exchange, after it, and after a restore's first rename, which alone can lose it |
| ReceiptStore.VerifyExchange | backend/pufferlab/owned_tiny.py:1073-1150 | the displaced file is confirmed to be the prior receipt, and the fixed name is read twice, before anything is unlinked |
| ReceiptStore.RestoreExchange | backend/pufferlab/owned_tiny.py:1288-1321 | a restore puts the displaced occupant back; the prior file has a name at every point; the fixed name can be lost from the first rename up to the final sync, and not before |
| ReceiptStore.RestoreCanLose | backend/pufferlab/owned_tiny.py:1288-1321 | from the exchanged directory, the restore's first rename lets a power loss leave nothing at the fixed name while both receipts lie beside it |
| ReceiptStore.RemoveReceiptCas | backend/pufferlab/owned_tiny.py:1153-1253 | removal wipes only the authenticated inode, durably, and drops its name; every crash point recovers nothing new before the rename and then nothing or the full terminal receipt, never the wiped inode |
| ReceiptStore.WipeQuarantined | backend/pufferlab/owned_tiny.py:1153-1253 | the wipe runs only once the moved-away name is durable, so the fixed name never recovers bound to truncated bytes |
| ReceiptStore.UnsyncedWipeRecoversEmpty | backend/pufferlab/owned_tiny.py:1153-1253 | without the directory sync before the truncate some power loss leaves an empty file at the fixed name: the sync is needed |
| ReceiptHistory.NothingOrphanedExactly | backend/pufferlab/owned_tiny.py:1073-1150 | over every history, whatever a power loss at any point leaves in the directory is read as a receipt that names every namespace with data, if and only if no restore makes its first rename while a namespace holds data |
| ReceiptHistory.AnyHistory | backend/pufferlab/owned_tiny.py:297-322 | while no foreign process rebinds the fixed name, every history of calls, failures, deaths in the middle of calls and power losses on the directory is a run of the protocol, with that exact safety condition |
| ReceiptHistory.Account.BeginOperation | backend/pufferlab/owned_tiny.py:583-644 | after the directory sync and the read the session holds the only receipt that can recover |
| ReceiptHistory.Account.TransitionReceipt | backend/pufferlab/owned_tiny.py:500-544 | every state of the directory during a replacement shows a protocol step; a power loss during it can lose the receipt if and only if the restore of the exchange made its first rename, and one failing call alone never leaves the directory so |
| ReceiptHistory.Account.RemoveTerminalReceipt | backend/pufferlab/owned_tiny.py:546-562 | every state of the directory during a removal shows a protocol step; success ends durably without a receipt |
| ReceiptHistory.Account.CreateFirstReceipt | backend/pufferlab/owned_tiny.py:416-475 | every state of the directory during a first creation shows a protocol step; success ends with the new receipt durable and held |
| ReceiptHistory.Account.Die | backend/pufferlab/owned_tiny.py:297-322 | a process that dies at any state of the directory leaves that state and a world of the run that it shows |
| ReceiptHistory.Account.LosePower | backend/pufferlab/owned_tiny.py:583-644 | after a power loss the directory shows what the protocol's world allows, and the next command may begin |
| OwnedTiny.StepKeepsSound | backend/pufferlab/owned_tiny.py:483-562 | after every rename, sync, remote call, death or power loss, what the lock holder believes is true and READY is backed by a passed check |
| OwnedTiny.StepKeepsNoOrphan | backend/pufferlab/cli/namespace.py:97-208 | every step other than the first rename of a restore keeps all data named by a receipt that is not terminal, in every state a power loss can leave |
| OwnedTiny.UnbindOrphansExactly | backend/pufferlab/owned_tiny.py:1288-1321 | the first rename of a restore breaks that safety exactly when a namespace holds data |
| OwnedTiny.NoOrphanOverRuns | backend/pufferlab/cli/ingest.py:287-329 | over every run, no namespace is ever orphaned if and only if no restore makes its first rename while data is present |
| OwnedTiny.ReadyOverRuns | backend/pufferlab/cli/ingest.py:343-447 | over every run a READY receipt names a namespace that once passed the exact readiness check |
| OwnedTiny.RemovalOverRuns | backend/pufferlab/cli/namespace.py:97-208 | over every run in which restores are harmless a receipt can be gone or terminal only when its namespace is, and at most one namespace holds data |
| OwnedTiny.InterruptedRestoreOrphans | backend/pufferlab/owned_tiny.py:1288-1321 | a concrete run that ends with two namespaces holding data and a receipt that names only the second |
| Commands.Installation.VerifyNotFound | backend/pufferlab/cli/namespace.py:272-304 | it reads until something other than presence is reported, at most the given times, and succeeds exactly when the last read is NOT_FOUND; without an error it gives up only after the last attempt |
| Commands.Installation.DeleteAndVerify | backend/pufferlab/cli/namespace.py:233-269 | deletes nothing but the receipt's namespace, each remote call directly after reading the receipt back, and reports success only with observed absence |
| Commands.Installation.DeleteUnderProvider | backend/pufferlab/cli/namespace.py:142-204 | cleanup goes on only when absence was verified and the provider closed cleanly; a provider that was created is always closed, and the outcome is exactly that of its creation, the deletion and its close |
| Commands.Installation.CleanupOwnedTiny | backend/pufferlab/cli/namespace.py:88-230 | only the receipt's namespace can disappear; Complete means that it is absent (for a terminal receipt, if nothing was orphaned before) and that the receipt is durably gone; without failures the outcome is determined by receipt, key and attempts; a refusal changes nothing; it stays unverified only after every poll or a failing call |
| Commands.Installation.RecordWave | backend/pufferlab/cli/ingest.py:305-308 | every reply before the first cancellation counts: a success moves the receipt from intent to created, also after a failure, and the reply of the wave says exactly which of these occurred |
| Commands.Installation.WriteBatches | backend/pufferlab/datasets/ingestion.py:241-312 | batches are written in waves whose writes are in flight together and touch only the receipt's namespace; every wave but the last is full, and success means that the waves hold all batches and all were recorded |
| Commands.Installation.RunBoundIngestion | backend/pufferlab/cli/ingest.py:343-447 | no provider is created without reading the receipt back, a created one is always closed, and readiness needs both calls clean; without errors it gives up only after every inspection |
| Commands.Installation.RunIngestion | backend/pufferlab/cli/ingest.py:251-341 | READY is durable and backed by a readiness check; only the receipt's own namespace gains data; without failures the outcome, and the reason of a refusal, are determined by receipt, credential, batches and attempts |
| Descriptors.Kernel.CloseManyQuietly | backend/pufferlab/owned_tiny.py:1719-1728 | one close attempt for each real descriptor, whatever the others report; clean exactly if every close was |
| Descriptors.OpenCoordinationAnchor | backend/pufferlab/owned_tiny.py:770-798 | the walk leaves live exactly the descriptor it returns, on every path, and returns one exactly if nothing was refused and every close was clean |
| Descriptors.InstallPrivateDirectory | backend/pufferlab/owned_tiny.py:733-767 | of the staged and the published descriptor exactly the returned one stays live; it is returned exactly if nothing was refused and every close was clean |
| Descriptors.OpenStateDirectory | backend/pufferlab/owned_tiny.py:647-707 | leaves live exactly the returned descriptor and never touches the anchor's; it fails only through a fault or an unclean close, and reports a missing tree only when not asked to create it |
| Descriptors.VerifyContinuity | backend/pufferlab/owned_tiny.py:801-855 | everything the second walk opened is closed again; it fails only through a fault or an unclean close |
| Descriptors.BeginOperation | backend/pufferlab/owned_tiny.py:583-644 | either nothing stays live, and something was refused, unclean or missing, or exactly the three different descriptors of the returned operation do |
| Descriptors.Operation.Close | backend/pufferlab/owned_tiny.py:574-580 | attempts each owned descriptor once; a second close attempts nothing |
| Descriptors.WithOperation | backend/pufferlab/owned_tiny.py:297-322 | over a whole command every descriptor it opened has had exactly one close attempt, whatever failed |
| ReceiptCodec.ObjectRoundTrip | backend/pufferlab/owned_tiny.py:1647-1654 | parsing canonical text gives back exactly the fields that were printed |
| ReceiptCodec.CanonicalKeysSorted | backend/pufferlab/owned_tiny.py:1647-1654 | canonical text lists its keys in order |
| ReceiptCodec.PairsHook | backend/pufferlab/owned_tiny.py:1586-1594 | the dictionary holds the last value of each key and the flag reports exactly a repeated key |
| ReceiptCodec.Decode | backend/pufferlab/owned_tiny.py:1585-1636 | the step-by-step decoder computes the specified result |
| ReceiptCodec.DecodeExact | backend/pufferlab/owned_tiny.py:1585-1636 | a text decodes to a receipt if and only if that receipt is well formed and signed and the text is its encoding |
| ReceiptCodec.DecodeAuthentic | backend/pufferlab/owned_tiny.py:1585-1636 | acceptance in the raw fields: version, purpose, region and hexadecimal forms, a namespace derived from nonce, region and credential tag, and the owner-keyed tag over the other seven fields |
| ReceiptCodec.WireForm | backend/pufferlab/owned_tiny.py:1579-1582 | the text of a receipt is its eight fields, by name in key order |
| ReceiptCodec.PrintedPair | backend/pufferlab/owned_tiny.py:1647-1654 | a text field is its quoted name, a colon and its quoted text, and the format version is the digit one |
| ReceiptCodec.CanonicalForm | backend/pufferlab/owned_tiny.py:1647-1654 | canonical text does not depend on the order in which fields are given, and is any sorted arrangement of them |
| ReceiptCodec.EncodingUnique | backend/pufferlab/owned_tiny.py:1579-1582 | signed receipts with equal encodings are equal |
| ReceiptCodec.TornReceiptRefused | backend/pufferlab/owned_tiny.py:1585-1636 | no proper prefix of an encoding decodes, so a torn write is never accepted |
| ReceiptCodec.LifecycleKeepsIdentity | backend/pufferlab/owned_tiny.py:500-522 | over any sequence of requested states the answer exists exactly if each one repeats or may follow the one before; it is then decodable, in the last state asked for, with the same nonce, region, namespace and credential tag |
| ReceiptCodec.TransitionMeans | backend/pufferlab/owned_tiny.py:500-522 | one transition is granted exactly to the same or an allowed state, and its answer is a signed receipt in that state of the same installation |
| OwnedTiny.AllowedAdvances | backend/pufferlab/owned_tiny.py:507-513 | the lifecycle advances one stage at a time, except that cleanup may be requested from any earlier stage |
| Ingestion.BatchesCoverPending | backend/pufferlab/datasets/ingestion.py:559-566 | the batches hold every pending document once, and with the resumed ones make up the corpus |
| Ingestion.BatchShapes | backend/pufferlab/datasets/ingestion.py:559-566 | batches run in the order of the external identifiers, and all but the last are full |
| CheckpointFile.Save | backend/pufferlab/datasets/checkpoints.py:57-103 | write, sync, replace and directory sync: every crash point recovers nothing new before the rename and the complete checkpoint besides from then on; success leaves only the checkpoint |
| CheckpointFile.SaveCheckpoint | backend/pufferlab/datasets/checkpoints.py:57-103 | each result of the save on the directory is one of the effects that ingestion relies on, and stopping at any point is a failed save |
| CheckpointFile.LoadsStored | backend/pufferlab/datasets/checkpoints.py:105-132 | a load reads the stored checkpoint, and after a power loss a recoverable one |
| Ingestion.Environment.Save | backend/pufferlab/datasets/checkpoints.py:57-103 | the effect of such a save on the stored and recoverable checkpoints: the new one alone, or after a failure the old or the new |
| Ingestion.RecordWave | backend/pufferlab/datasets/ingestion.py:253-326 | exactly the confirmed batches that were reached are completed, offered in a checkpoint and counted; a failure does not stop the wave, the first cancellation or failing save does, and the status says which |
| Ingestion.WrittenMeans | backend/pufferlab/datasets/ingestion.py:255-263 | those batches are the places of the wave with a confirmed write, each once and in order |
| Ingestion.RunWaves | backend/pufferlab/datasets/ingestion.py:244-326 | checkpoints only grow within an attempt; the completed batches are the first confirmed ones, all of them unless a save failed or the attempt was cancelled; every wave but the last is full |
| Ingestion.AwaitReadiness | backend/pufferlab/datasets/ingestion.py:337-387 | it inspects until an answer is exact or raises, or the attempts are used up; ready only when the remote identifiers are exactly the expected ones |
| Ingestion.Ingest | backend/pufferlab/datasets/unix_application.py:387-420 | READY implies that remote, expected and recorded identifiers coincide; a fault-free attempt is ready if and only if something is pending or the process wrote before, and no foreign document exists; every report counts exactly the confirmed batches, and a checkpoint is refused exactly for a foreign, disordered or unknown content |
| Ingestion.Campaign | backend/pufferlab/datasets/unix_application.py:387-420 | over any history of attempts, new processes and power losses, checkpoints stay within expected and written identifiers, acknowledged progress is never lost, and READY is exact |
| Ingestion.RepeatInNewProcess | backend/pufferlab/datasets/turbopuffer_writer.py:83-91 | repeating a completed ingestion in a new process is never READY |
| Scheduler.StepKeeps | backend/pufferlab/application/evaluation_runtime.py:1124-1176 | every event keeps the invariant of drivers, tasks, services, occupancy and wakeups |
| Scheduler.SchedulerSafety | backend/pufferlab/application/evaluation_runtime.py:318-439 | in every reachable state the running runs and the queued runs with a driver, as a set, stay within the limit, no run has two drivers, a running run is executed and cancellable, and a queued run is never left without a task that will pump |
| Scheduler.PumpKeeps | backend/pufferlab/application/evaluation_runtime.py:1106-1122 | unless closing, the pump ends with every slot taken or no run idle; it never exceeds the limit and only adds drivers for idle runs |
| Scheduler.ShutdownDrains | backend/pufferlab/application/evaluation_runtime.py:848-863 | a completed shutdown leaves no running run, no driver and no service |
| Scheduler.ShutdownRefuses | backend/pufferlab/application/evaluation_runtime.py:848-863 | from the beginning of a shutdown on, no event but a new process admits, cancels, serves or drives a run |
| Scheduler.DisposedNeverStarts | backend/pufferlab/application/evaluation_runtime.py:318-324 | a disposed process never starts |
| Scheduler.RestartRecovers | backend/pufferlab/application/evaluation_runtime.py:318-339 | a new process interrupts exactly the runs that were running, and schedules queued runs until every slot is taken or none is left |
| Scheduler.DriverStepWorks | backend/pufferlab/application/evaluation_runtime.py:1124-1176 | each driver step uses up a bounded amount of work |
| Scheduler.QueueDrains | backend/pufferlab/application/evaluation_runtime.py:1092-1176 | from every reachable accepting state the drivers stop after boundedly many steps, and stop only when no run is queued or running |
| Scheduler.PumpInClaimOrder | backend/pufferlab/application/evaluation_runtime.py:1117-1122 | no run is scheduled behind an earlier one that stays idle |
| Scheduler.LifecycleRespected | backend/pufferlab/persistence/repository.py:56-68 | no event loses a run or moves its status against the persisted lifecycle; terminal runs never change |
| EvaluationRuntime.Runtime.RecoverStartup | backend/pufferlab/jobs/manager.py:41-43 | exactly the running rows of a dead process become interrupted, row by row |
| EvaluationRuntime.Runtime.PumpQueuedLocked | backend/pufferlab/application/evaluation_runtime.py:1106-1122 | the counting and scheduling loops have exactly the pump's effect, and fail exactly when too many runs are active |
| EvaluationRuntime.Runtime.Start | backend/pufferlab/application/evaluation_runtime.py:318-339 | starts exactly unless closed, disposed, without resources or with too many queued runs; running rows become interrupted, and queued runs are scheduled until every slot is taken or none is left |
| EvaluationRuntime.Runtime.CreateEvalRun | backend/pufferlab/application/evaluation_runtime.py:341-408 | admits exactly while started and not closing, without an active run of the suite and with fewer active runs than the limit; each refusal has exactly its own cause and changes nothing, and an admitted run is persisted last with a new waiting driver |
| EvaluationRuntime.Runtime.CancelEvalRun | backend/pufferlab/application/evaluation_runtime.py:410-439 | a queued run is cancelled at once and nothing else changes, a running one always has its service; unavailable means not accepting, not found means no such run |
| EvaluationRuntime.Runtime.EnterDriver | backend/pufferlab/application/evaluation_runtime.py:1124-1164 | only a queued run, while accepting, becomes running with its service, or failed; otherwise the driver only ends |
| EvaluationRuntime.Runtime.DrainDriver | backend/pufferlab/application/evaluation_runtime.py:1165-1167 | exactly a run that its service left queued or running is failed, before the driver finishes |
| EvaluationRuntime.Runtime.ReleaseDriver | backend/pufferlab/application/evaluation_runtime.py:1168-1176 | the run leaves the tables, every other driver stays, and unless closing the pump leaves every slot taken or no run idle |
| EvaluationRuntime.Runtime.BeginShutdown | backend/pufferlab/application/evaluation_runtime.py:848-854 | closing is set and nothing else changes |
| EvaluationRuntime.Runtime.EndShutdown | backend/pufferlab/application/evaluation_runtime.py:848-863 | after the drivers were awaited nothing is running, driven or served |
| Metrics.NormalizeJudgments | backend/pufferlab/evals/metrics.py:33-57 | succeeds exactly for consistent judgments, warns once for each document that two judgments name, and otherwise names a real contradiction |
| Metrics.GainIncreases | backend/pufferlab/evals/metrics.py:21-26 | gain is zero at grade zero and strictly increasing |
| Metrics.GainMeans | backend/pufferlab/evals/metrics.py:21-26 | gain times two to the maximum is two to the grade, less one |
| Metrics.Pow2Laws | backend/pufferlab/evals/metrics.py:21-26 | the powers are those of two: they turn sums into products, from two at one |
| Metrics.DcgMeans | backend/pufferlab/evals/metrics.py:91-122 | discounted gain times two to the maximum is the sum over the ranks of two to the grade less one, discounted |
| Metrics.IdealMeans | backend/pufferlab/evals/metrics.py:91-122 | the ideal order holds each positive grade as often as documents carry it, highest first |
| Metrics.IdealDominates | backend/pufferlab/evals/metrics.py:91-122 | at every cutoff the sorted positive grades collect at least as much gain as any credited ranking |
| Metrics.NdcgBound | backend/pufferlab/evals/metrics.py:91-122 | zero, DCG and ideal DCG are ordered, the ideal is positive, and DCG reaches it exactly for the ideal order padded with zeros |
| Metrics.RepeatsNeverHelp | backend/pufferlab/evals/metrics.py:92-144 | repeating a retrieved document at any later place never raises DCG, recall or reciprocal rank |
| Metrics.FirstRelevantMeans | backend/pufferlab/evals/metrics.py:130-137 | the rank found is that of the first relevant document within the cutoff, if there is one |
| Metrics.CreditRanking | backend/pufferlab/evals/metrics.py:92-112 | each document is credited at its first occurrence only, and the warning reports exactly a repeat |
| Metrics.EvaluateRanking | backend/pufferlab/evals/metrics.py:60-144 | NDCG times the ideal discounted gain is the discounted gain of the credited ranking, recall times the relevant documents is the number retrieved, the reciprocal rank times the first relevant rank is one; all lie in the unit interval, are null exactly without positive judgments, and NDCG is one exactly for the ideal order; the warnings count repeated judgments and report a repeated result |
| Aggregation.PercentileLaws | backend/pufferlab/evals/aggregation.py:16-37 | a percentile ignores sample order, lies between adjacent order statistics, and is monotone in the percentile and in every sample |
| Aggregation.PercentileMeans | backend/pufferlab/evals/aggregation.py:16-37 | refused exactly out of range and for a negative sample; otherwise the value at place (n - 1)p of the ordered samples, in proportion between its neighbours |
| Aggregation.DominatedSorts | backend/pufferlab/evals/aggregation.py:16-37 | raising samples raises every order statistic |
| Aggregation.AggregateIsValid | backend/pufferlab/evals/aggregation.py:61-95 | aggregates exist exactly for distinct queries; counts add up, means and rates lie in the unit interval, p50 is at most p95 |
| Aggregation.AggregateMeans | backend/pufferlab/evals/aggregation.py:61-95 | each mean times its samples is the sum of that metric over the attempts, each rate times the attempts is its own count, and both percentiles are those of the measured latencies |
| Aggregation.AggregateIgnoresOrder | backend/pufferlab/evals/aggregation.py:61-95 | permuting attempts leaves the aggregate unchanged |
| WorkSchedule.InterleavedWorkItems | backend/pufferlab/application/evaluations.py:427-437 | place q*m+j of the list is configuration (q+j) mod m of query q |
| WorkSchedule.WorkItemsCoverProduct | backend/pufferlab/application/evaluations.py:427-437 | for distinct queries and configurations each pair occurs exactly once |
| WorkSchedule.SlotsBalanced | backend/pufferlab/application/evaluations.py:427-437 | each configuration stands in each slot floor(n/m) or ceil(n/m) times |
| WorkSchedule.FinalizeDurableOutcomes | backend/pufferlab/jobs/eval_runner.py:205-270 | succeeds exactly on the run's own complete coverage, and otherwise names the first fault; every summary is that of the configuration's own attempts, with their means, percentiles, error rate and counts |
| WorkSchedule.ExecutionCovers | backend/pufferlab/jobs/eval_runner.py:205-219 | executing the work list once, in any order, meets the coverage test |
| WorkSchedule.SummariesIgnoreOrder | backend/pufferlab/jobs/eval_runner.py:221-270 | permuting the durable outcomes changes no summary |
| WorkSchedule.CompletedGroups | backend/pufferlab/application/evaluation_views.py:335-343 | the counting loop counts the queries that have an outcome under every configuration |
| WorkSchedule.GroupsCompleteMeansProduct | backend/pufferlab/application/evaluation_views.py:304-343 | all groups are complete if and only if the scoped outcomes are the full product, that is when there are n*m of them |
| Pairing.ByIdUnique | backend/pufferlab/evals/pairing.py:77-82 | the duplicate test is exact, and without duplicates the dictionary holds every outcome |
| Pairing.RowsMean | backend/pufferlab/evals/pairing.py:12-88 | each row has the status, the metrics and the changes of its query's own outcomes, each change from the baseline's value to the candidate's value of the same metric |
| Pairing.SwapNegates | backend/pufferlab/evals/pairing.py:12-88 | every change is the candidate's value less the baseline's, for the outcomes of the row's query; exchanging the sides negates every change and exchanges the one-sided statuses |
| Pairing.RowsCoverQueries | backend/pufferlab/evals/pairing.py:71-88 | one row for each query of either side |
| Pairing.GainsReverseRegressions | backend/pufferlab/evals/pairing.py:91-119 | gains are regressions read backwards, and both hold exactly the paired rows, sorted |
| Pairing.OrderMeans | backend/pufferlab/evals/pairing.py:109-119 | regressions come by smaller NDCG change, then smaller MRR change, then query; gains the other way round |
| Pairing.LimitedIsPrefix | backend/pufferlab/evals/pairing.py:91-119 | a limited result is the prefix of the full order, worst first or for gains best first |
| Pairing.CountStatuses | backend/pufferlab/application/evaluation_views.py:460-463 | the tally counts every status |
| Pairing.RegressionResponse | backend/pufferlab/application/evaluation_views.py:433-497 | built exactly for unambiguous outcomes whose listed latencies are measured as the data origin says; its rows are the worst, or best, paired queries in order, and it counts the rows of each status, with queries absent on both sides counted as missing baselines |
| Gate.EvidenceSupports | backend/pufferlab/evals/gates.py:103-200 | valid evidence always pairs, with deltas in the signed unit interval and failed candidates outside the paired rows |
| Gate.ReportIsValid | backend/pufferlab/contracts/gates.py:60-181 | every report the engine builds passes all check and report validators |
| Gate.ViolationFacts | backend/pufferlab/evals/gates.py:200-208 | the violations are exactly the violating rows, distinct, in delta then identifier order |
| Gate.ListedViolationsFirst | backend/pufferlab/evals/gates.py:200-245 | a violator that is not listed has no smaller change than any listed one, nor an earlier query at the same change, and then the list is full |
| Gate.VerdictMeans | backend/pufferlab/evals/gates.py:210-245 | a pass means exactly that all four inclusive thresholds hold for the paired rows |
| Gate.GateMeans | backend/pufferlab/evals/gates.py:159-252 | a report is given exactly for different configurations, a policy and catalog in range, one valid outcome of each side per query and a query that both rated; its counts, checks and listed violations are those of the outcomes |
| Gate.AggregateMeans | backend/pufferlab/evals/gates.py:192-232 | the observed aggregate times the paired queries is the sum of the candidate's values less the baseline's, in the metric of the policy |
| Gate.NoWorseNoViolation | backend/pufferlab/evals/gates.py:192-245 | a candidate that is nowhere worse in that metric violates nothing, and its mean is not negative |
| Gate.LooserStillPasses | backend/pufferlab/evals/gates.py:159-252 | loosening any thresholds never turns a pass into a failure |
| Gate.GateIgnoresOrder | backend/pufferlab/evals/gates.py:159-252 | permuting the outcomes or the catalog leaves the report unchanged |
| Scores.ClearlyAbove | backend/pufferlab/application/evaluation_diagnostics.py:613-614 | a score beyond a clearly higher one is clearly higher too |
| Scores.CloseMeans | backend/pufferlab/application/evaluation_diagnostics.py:613-614 | two scores are close when they differ by at most 1e-15, or by at most 1e-12 of the size of either |
| Scores.CloseNotTransitive | backend/pufferlab/application/evaluation_diagnostics.py:613-614 | the tolerance is not transitive, so ties form no classes |
| Rrf.Fuse | backend/pufferlab/application/evaluation_diagnostics.py:555-573 | the accumulating loops compute the fusion; without repeats a score times the constant plus the rank is the weight, for a document of both lists with both shares, and the remembered ranks are those of the rows |
| Rrf.FusedFuses | backend/pufferlab/evals/diagnostic_analysis.py:1044-1057 | the union of the documents, each with the sum of its weighted reciprocal ranks, multiplied out over the ranks of the rows, and its rank in each list |
| Rrf.BetterRankScoresHigher | backend/pufferlab/evals/diagnostic_analysis.py:1044-1057 | a document that neither list ranks worse, and one list ranks better, scores strictly higher |
| Rrf.ShortListCounts | backend/pufferlab/application/evaluation_diagnostics.py:577-588 | a fused list that fits the cutoff meets the counting alternative too, so presence is that alternative alone |
| Rrf.WorstAdmissible | backend/pufferlab/application/evaluation_diagnostics.py:577-588 | putting every tied score in front of the target respects every clear difference |
| Rrf.PresentMeansWorstCase | backend/pufferlab/application/evaluation_diagnostics.py:577-588 | `target_present` holds if and only if the target stays within the cutoff in every admissible order |
| Rrf.BoundaryCounts | backend/pufferlab/application/evaluation_diagnostics.py:574-576 | fewer than the cutoff exceed the boundary score and at least the cutoff reach it |
| Rrf.BoundaryIsUnique | backend/pufferlab/application/evaluation_diagnostics.py:574-576 | no other value has that property |
| Rrf.AbsentBelowBoundary | backend/pufferlab/contracts/forensics.py:824-831 | a fused but absent target is never clearly above the boundary, so the derivation cannot raise |
| Rrf.AgreementIsValid | backend/pufferlab/contracts/forensics.py:752-831 | evidence that repeats the fused facts passes every validator |
| Rrf.UnionCounts | backend/pufferlab/contracts/forensics.py:1208-1225 | the fused count fits the union bounds of the two lists |
| Rrf.BuildEvidence | backend/pufferlab/evals/diagnostic_analysis.py:1027-1127 | fails exactly for an excluded but listed target; otherwise valid and worst-case correct, with the ranks of the rows, the score and boundary of the multiplied-out fusion, membership and rank counted on those scores, and the relation and certainty that follow |
| Rrf.CrossCheck | backend/pufferlab/application/evaluation_diagnostics.py:508-610 | accepts exactly the evidence that states the facts counted on the multiplied-out fused scores, hence only worst-case correct membership |
| Cutoff.ScanRows | backend/pufferlab/evals/diagnostic_analysis.py:809-879 | accepts exactly contiguous, unique, ordered lists, and finds the target's row |
| Cutoff.CandidateEvidence | backend/pufferlab/evals/diagnostic_analysis.py:903-981 | refused exactly for a misplaced or contradictory target, rejected by the contract exactly for a listed zero-score BM25 target; otherwise each relation holds exactly for its own case of list, scores and filter, and rank and score are those of the target's listed row |
| Cutoff.ZeroScoreCanBeListed | backend/pufferlab/contracts/forensics.py:644-647 | such a target exists |
| Cutoff.LexicalInferenceSound | backend/pufferlab/contracts/forensics.py:680-709 | for an exact BM25 list and an eligible target the derivation never raises, and outside means strictly worse than every row |
| Cutoff.CandidateMissSound | backend/pufferlab/contracts/forensics.py:680-709 | a candidate miss is concluded only when the list is not the exact nearest neighbours |
| Selection.ChoiceIsGreedy | backend/pufferlab/datasets/cqadupstack.py:712-731 | a stratum chooses its unselected member with the smallest digest, and passes only without one |
| Selection.PicksInTurn | backend/pufferlab/datasets/cqadupstack.py:719-741 | every pick is greedy, and going round from the stratum after the last pick, every stratum passed over has only selected members |
| Selection.SelectSucceeds | backend/pufferlab/datasets/cqadupstack.py:719-743 | selection fails exactly when fewer distinct identifiers than requested carry a tag; otherwise the picks are distinct and carry their tag |
| Selection.SelectionPermutation | backend/pufferlab/datasets/cqadupstack.py:688-743 | permuting uniquely identified queries changes nothing |
| Selection.CurateQueryIds | backend/pufferlab/datasets/cqadupstack.py:688-743 | the loops with offsets compute the declarative selection: turns go round from the first stratum, and the result is its picks sorted by source identifier |

## Left out

- Commands.Installation.RunIngestion: ingestion to an explicit namespace bypasses the receipt and the lock, so it is outside the protocol.
- ReceiptHistory.AnyHistory: says nothing of a history once a foreign process has rebound the fixed name, which could unbind it with data present; against that only the single calls are described. The receipt text is any codec that reads back what it writes, and local checks that change no file (continuity, owner key) are failing calls; the provider's outcomes are chosen freely; a command asks for READY only after a passed check and for the terminal state only after an observed absence, as `Commands` does.
- OwnedTiny.NoOrphanOverRuns: provider writes and deletes take effect before the call returns or not at all; an observed NOT_FOUND means that the namespace is absent.
- ReceiptStore.AtomicReplaceReceipt: the other process touches only the fixed receipt name, with files of its own; random staging names are not raced, and inode numbers are not reused.
- Disks.Directory.Write: directory operations are lost as a suffix, file contents are kept as any one of the states since the last sync of that inode; permission bits and link counts are not modelled.
- ReceiptCodec.DecodeExact: the parser covers flat objects of unescaped strings and natural numbers; any other JSON text is not canonical and is refused by both. Keyed hashing is a function parameter with 64 hexadecimal digits; its strength is not modelled.
- CheckpointFile.Save: the checkpoint directory is taken to exist durably; the code creates it without syncing its parent. Ownership of the temporary name and its final cleanup are as for a receipt.
- Descriptors.WithOperation: descriptor numbers are never reused, so each stands for one open file.
- Ingestion.Ingest: embedding failures of any kind are failing batches; document identifiers do not collide; the writer's schema check is one boolean; progress events are not modelled.
- Scheduler.SchedulerSafety: a `drain` that returns normally leaves its run terminal (a run left active is failed, which the code does only when `drain` raises); the repository is reliable (a transition it is asked for happens), another process creates no runs, created runs come last in claim order, and the limits one and one hundred are parameters.
- EvaluationRuntime.Runtime.EnterDriver: catalog binding, credential check and search-backend construction are one choice of outcome; closing a search backend has no effect on the state.
- Metrics.NdcgBound: floats are exact reals and the logarithmic discount is any positive strictly decreasing function; the guard against underflow of very large grades is not modelled. The cutoffs ten, fifty and ten are parameters.
- Rrf.BuildEvidence: scores are exact reals, so sums need no tolerance of their own; upper bounds on scores and weights, and the identifiers, are not modelled.
- Cutoff.CandidateEvidence: the numeric upper bound on scores, the two literal list limits and the binding identifiers are not modelled.
- Selection.CurateQueryIds: how a query's tags are computed from its text is an input; the digest is a function parameter, assumed free of collisions only for order independence.
- Gate.ReportIsValid: the canonical fifty queries and ten listed violations are parameters; type coercion checks on inputs have no counterpart.
- WorkSchedule.FinalizeDurableOutcomes: payload decoding is taken as done; the seeded shuffle of queries is any arrangement.
- Pairing.RegressionResponse: row texts, rank changes and links are not modelled.
- Filter truth evaluation, observations built from evidence, read-only receipt inspection and the HTTP, command-line and web layers are not modelled: they add no invariant across operations.
