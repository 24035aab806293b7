# Verified model of the Seagull agent's durable protocols

This project models, in Dafny, the parts of the Seagull agent that have to survive crashes, failed I/O
and an unreliable server, and the index and arithmetic code whose results are reported upstream. The
command `dafny verify dfyconfig.toml` verifies all of it.

| area | files |
|---|---|
| Managed response actions: stage, journal, executor loop | `Stage.dfy`, `Journal.dfy`, `ResponseProtocol.dfy`, `Executor.dfy` |
| Client certificate transaction | `CertPair.dfy` |
| Write-ahead spool and sender | `Spool.dfy`, `Sender.dfy` |
| Auth-log checkpointing and the collection cycle | `AuthLog.dfy`, `Cycle.dfy` |
| Enrollment replay and token chain | `EnrollmentProtocol.dfy`, `Enrollment.dfy` |
| Space-Saving counters and traffic windows | `TopK.dfy`, `Window.dfy` |
| IPv4 discovery planning under local policy | `Ipv4.dfy`, `Discovery.dfy`, `DiscoveryPolicy.dfy` |
| Managed configuration store | `RuntimeConfig.dfy` |
| Shared | `Optional.dfy`, `Arithmetic.dfy`, `MapSum.dfy` |

## How it is modelled

Disks are maps from names to contents; an atomic write, rename or removal is one step. A step that
reports an error may or may not have taken effect, unless noted below. Where a crash matters, either
every intermediate disk is recorded (`CertPair.PairStore.witnessed`), or the code is shown to perform
nothing but steps of a transition system that allows a crash between any two of them
(`ResponseProtocol`, `EnrollmentProtocol`), and the theorems are about all runs of that system. Server
answers, clocks and random values are parameters or arbitrary choices. The ghost counter `faults` counts
environment failures, so that contracts can say what must happen when nothing goes wrong.

What the theorems rest on:

- A private key is determined by its public half, so it fits only certificates for that half.
- A spool entry that could not be written leaves no file, and one that could not be rewritten stays as it
  was. `Spool.LandedErrorIsUncounted` shows what a
  late error would do to the counters. New spool names, batch and enrollment identities are random and do
  not come up twice.
- The encodings of all records of one action lie within the terminal growth reserve of each other
  (`Journal.Windowed`), for the byte bound only.
- The log is append-only between visible rotations (`AuthLog.Capturer.Follows`); event identifiers are
  injective functions of the values hashed into them.
- The hash of a configuration is injective.
- An identity state file is configured, and the TLS configuration does not change between processes.
  That a stored response blocks enrollment for good presumes a clock that does not go back.

What turned out not to hold as one might expect, each with the exact condition:

- Recovery of a certificate pair can change its mind when interrupted, but only on one shape of disk that
  a transaction never produces (`CertPair.KeyWriteKeepsOutcome`, `CertPair.AmbiguousDiskExists`). A first
  installation is stuck exactly while only one half of the new pair is on disk
  (`CertPair.FirstInstallShapeIsSafe`).
- A batch that the server accepted without confirming is dropped if the context ends before the retry
  (`Delivery.DroppedIffRefusedOrCutOff`, `Delivery.UnconfirmedBatchCanBeDropped`). The flush path would
  have kept it, and is more patient with unlisted statuses too (`Delivery.FlushIsMorePatient`).
- The spool's totals balance after a restart exactly if the totals in the statistics file balance with the
  directory found, or name fewer batches than it holds and no departure (`Spool.RestartBalances`). That is
  so after a clean shutdown (`Spool.CleanRestartBalances`) and not after a crash between a removal and the
  statistics write (`Spool.CrashUnbalances`).
- A journal record of exactly the maximal size is written and then makes the journal unreadable
  (`Journal.WrittenButUnloadable`). `Begin` admits such a record
  (`ResponseProtocol.MaximalRecordIsAdmitted`), and once the process is down it never comes up again
  (`ResponseProtocol.UnloadableEntryIsFatal`). The byte budget is exceeded by one newline at most.
- A remote list of discovery ranges that names nothing, such as a lone comma, replaces the local ranges
  by those of the interfaces (`DiscoveryPolicy.LocalRangesBoundPlans`,
  `DiscoveryPolicy.CommaLeavesTheLocalRange`).
- A stored enrollment response blocks enrollment for good exactly if it can no longer be finalized or the
  certificate files are in the way (`EnrollmentProtocol.BlockedIffUnacceptableOrStuck`). The former means
  that it names another agent or no credential, that its certificate is missing, does not fit the key or has
  expired, or that its CA bundle is unusable (`EnrollmentProtocol.StoredAndStuck`). The latter means that no
  recovery accepts the certificate files, or that they are empty and the process is down: a first
  installation interrupted when only the new key is on disk leaves such files behind
  (`EnrollmentProtocol.InterruptedInstallationBlocks`), while a pair once installed is never lost
  (`EnrollmentProtocol.InstalledPairNeverBlocks`).
- Finalizing a stored response again changes nothing as long as no rotation came between
  (`EnrollmentProtocol.RefinalizationKeepsIdentity`); after a rotation to another credential it brings the
  superseded one back (`EnrollmentProtocol.RefinalizationKeepsCredential`,
  `EnrollmentProtocol.SupersededCredentialReturns`).
- An action may take effect after it expired (`ResponseProtocol.ExecutedAfterExpiry`): it does so exactly if
  it was accepted before it expired (`ResponseProtocol.EffectIffAcceptedInTime`), because expiry is judged
  at the journaled start (internal/runtime/controlplane.go:180).
- A handled action is refused only until as many new ones as the handled queue holds have followed it
  (`Stage.ForgottenAfterMaxLaterIds`), so only then does one process take it up again
  (`Executor.TakenAgainOnlyWhenForgotten`).

## Model

| member | source | states |
|---|---|---|
| Stage.MakeRoom | internal/responseactions/stage.go:82-89 | A full stage loses exactly its oldest live action; stale queue entries in front of it go too, and the queue invariant holds afterwards |
| Stage.Stage.constructor | internal/responseactions/stage.go:32-48 | Default and derived bounds, empty queues |
| Stage.Stage.Offer | internal/responseactions/stage.go:50-100 | Every offer is added or ignored; staged + dropped equals before + added, and the stage holds as many as it has room for, so nothing is dropped before it is full; staged actions were there before or are eligible offers; nothing handled is staged; the last eligible offer is staged; bounds, disjointness and reachability hold |
| Stage.Stage.Admit | internal/responseactions/stage.go:82-96 | Appends the action, evicting exactly the oldest live one if the stage is full and nothing otherwise; everything else unchanged |
| Stage.Stage.Next | internal/responseactions/stage.go:111-137 | Returns the first queued action that is live, for this agent, unexpired and not handled; exactly the passed-over entries leave the stage, and the live ones among them are remembered as handled, in order, and nothing else is |
| Stage.TakeNext | internal/responseactions/stage.go:118-136 | The loop of Next, entry by entry, over queue, stage and handled queue |
| Stage.Stage.MarkHandled | internal/responseactions/stage.go:139-147 | The id is no longer staged and is remembered, with the queue possibly left stale |
| Stage.Stage.MarkHandledLocked | internal/responseactions/stage.go:149-163 | The handled queue stays duplicate-free, bounded, first-in-first-out and equal to the handled set |
| Stage.RememberKeepsHandled | internal/responseactions/stage.go:149-163 | Appending and trimming keeps queue and set equal and within the bound |
| Stage.RememberOne | internal/responseactions/stage.go:149-163 | The handled queue after one more id, and the set of its members |
| Stage.ForgottenAfterMaxLaterIds | internal/responseactions/stage.go:149-163 | A handled id is remembered if and only if fewer new ids than the queue holds have followed it |
| Stage.RememberedAfterFew | internal/responseactions/stage.go:149-163 | A handled id stays remembered while fewer new ids than the queue holds follow, even if it turns up again meanwhile |
| Stage.RemoveKeepsQueue | internal/responseactions/stage.go:139-147 | Removing a staged id without touching the queue keeps every remaining id reachable |
| Journal.BoundedIsDurable | internal/responseactions/journal.go:460-479 | The bounded result keeps identity and status, holds only an encodable payload within the limit, says when one was dropped, and is a fixed point |
| Journal.BoundedReports | internal/responseactions/journal.go:155-168 | What is recorded has the status the action returned, its own identity, and the same payload and error unless the payload is too large or not encodable, which the error then says |
| Journal.CheckAction | protocol/response_action.go:53-81 | Exactly the actions with a positive id, a type, an agent, a known status and a request time are accepted |
| Journal.CheckRecord | internal/responseactions/journal.go:425-458 | Exactly the valid records: a result if and only if terminal, of the same action, success or failure |
| Journal.Load | internal/responseactions/journal.go:313-351 | Loads if and only if every file is within the size limit and holds a valid record of its own action |
| Journal.WrittenButUnloadable | internal/responseactions/journal.go:357-406 | After a permitted write the journal loads if and only if the encoding is strictly below the maximal record size |
| Journal.AdmissionKeepsBudget | internal/responseactions/journal.go:290-311 | Admission control keeps record count and reserved bytes within the limits, one newline aside |
| Journal.RewriteKeepsBudget | internal/responseactions/journal.go:118-174 | Later phases of an admitted record stay within what was reserved for it |
| Journal.DeleteKeepsBudget | internal/responseactions/journal.go:214-225 | Deleting keeps the budget |
| Journal.BudgetBoundsDisk | internal/responseactions/journal.go:290-311 | The budget bounds the files: at most maxRecords of them, at most maxBytes + 1 bytes |
| ResponseProtocol.RunsAreConsistent | internal/runtime/controlplane.go:85-230 | In every world of every run the journal entry of each action agrees with its history, and at most one action is executing |
| ResponseProtocol.StepKeepsConsistent | internal/runtime/controlplane.go:85-230 | Every step, crash and recovery step included, keeps that agreement |
| ResponseProtocol.AtMostOnce | internal/runtime/controlplane.go:139-204 | Two executions of an action are separated by the deletion of its entry and a new Begin |
| ResponseProtocol.ExecutedOncePerEntry | internal/runtime/controlplane.go:139-204 | The same, read off the event log of one action |
| ResponseProtocol.ExecutionIsWrittenAhead | internal/runtime/controlplane.go:147-185 | Just before an execution the action was durably marked executing and nothing else happened to it |
| ResponseProtocol.EffectIffAcceptedInTime | internal/responseactions/executor.go:95-110 | In every run a call takes effect if and only if it is permitted and the action had not expired when it was accepted |
| ResponseProtocol.OutcomeIsRecorded | internal/runtime/controlplane.go:188-204 | In every run, the step after a call is a crash, or records what the call returned under the identity of the action |
| ResponseProtocol.ResultIsGenuine | internal/runtime/controlplane.go:166-204 | In every run, a recorded result says what the last call of the action returned, or that it was interrupted after it was marked |
| ResponseProtocol.NoEffectIsFailure | internal/responseactions/executor.go:83-110 | The result recorded for a call without effect is a failure |
| ResponseProtocol.ExecutedAfterExpiry | internal/runtime/controlplane.go:166-185 | A run in which an action takes effect after it expired |
| ResponseProtocol.NoResultIsLost | internal/runtime/controlplane.go:206-230 | An entry is deleted only after the server confirmed exactly the result it holds |
| ResponseProtocol.DeletedOnlyAfterConfirmation | internal/runtime/controlplane.go:206-230 | The same, with the completion and the confirmation exhibited |
| ResponseProtocol.RecordedResultIsFinal | internal/responseactions/journal.go:143-174 | Once recorded, a result never changes and the action is not executed under that entry again |
| ResponseProtocol.JournalHoldsUnfinishedActions | internal/responseactions/journal.go:83-225 | The journal holds a valid entry for exactly the actions begun and not deleted |
| ResponseProtocol.InterruptedActionsFail | internal/responseactions/journal.go:249-288 | An entry found executing while the process is down stays until recovery records it as failed |
| ResponseProtocol.RunsStayWithinBudget | internal/responseactions/journal.go:249-311 | In every run, recovery included, the journal stays within maxRecords and maxBytes + 1 |
| ResponseProtocol.RecordsAreWithinLimit | internal/responseactions/journal.go:380-391 | In every run every record in the journal has an encoding of admissible size |
| ResponseProtocol.UnloadableEntryIsFatal | internal/responseactions/journal.go:313-351 | A process that goes down while an entry is too large to load never comes up again |
| ResponseProtocol.MaximalRecordIsAdmitted | internal/responseactions/journal.go:290-311 | A run in which Begin admits such an entry |
| Executor.EnsureCapacity | internal/responseactions/journal.go:290-311 | The summing loop decides exactly the capacity condition |
| Executor.Oldest | internal/responseactions/journal.go:227-247 | The oldest records of a phase, by start time and then by id, at most the limit, and none older left out |
| Executor.Executor.Begin | internal/responseactions/journal.go:83-116 | Enters a new record, or reports an existing one, missing capacity (exactly then), or stops: for an invalid action, an unreadable journal or a failed write; performs only protocol steps |
| Executor.Executor.MarkExecuting | internal/responseactions/journal.go:118-141 | Rewrites the accepted entry as executing, or stops the executor: for a failed write or a record over the size limit |
| Executor.Executor.Execute | internal/responseactions/executor.go:83-110 | The action is called once, only from the marked state; it is carried out exactly if permitted and not expired at the journaled start, and fails otherwise; the call is logged with what it returned, and in every run the actions carried out are those whose calls took effect |
| Executor.Executor.Write | internal/responseactions/journal.go:380-419 | An entry is replaced as one step of the run, or the executor stops with the old or the new one in place |
| Executor.Executor.Complete | internal/responseactions/journal.go:143-174 | Records the status, payload and error the action returned, bounded, under its own identity; or stops the executor: for a failed write, an unknown status or a record over the size limit; nothing else in the journal changes |
| Executor.Executor.Delete | internal/responseactions/journal.go:214-225 | Removes the entry, or stops the executor |
| Executor.Executor.ReportTerminal | internal/runtime/controlplane.go:206-230 | Delivered means confirmed and deleted; otherwise the entry is untouched |
| Executor.Executor.ExecuteAccepted | internal/runtime/controlplane.go:139-204 | Without faults the whole course runs: reported running, marked, executed, completed with what the call returned, confirmed, deleted; other entries are never touched |
| Executor.Executor.ReportFinished | internal/runtime/controlplane.go:86-98 | The eight oldest results are confirmed and deleted, or one cannot be delivered |
| Executor.Executor.ResumeAccepted | internal/runtime/controlplane.go:100-108 | Without faults each of the eight oldest accepted actions is executed |
| Executor.Executor.TakeStaged | internal/runtime/controlplane.go:110-136 | Takes eight staged actions, or all there are, or stops at one meant for this agent whose record the journal has no room for; without faults each one taken is executed, unless the journal holds it already, and the journal ends as it was |
| Executor.Executor.TakeOne | internal/runtime/controlplane.go:110-135 | Stops taking only when nothing is staged or the journal has no room for the record of the action taken; a taken action was offered for this agent, was neither expired nor handled, counts as handled since, and without faults was executed or is journaled already |
| Executor.Executor.JournalAndRun | internal/runtime/controlplane.go:115-134 | A staged action is journaled before it runs, and without faults executed; one already journaled is only marked handled; it is refused only for lack of room for its own record |
| Executor.Executor.MarkTaken | internal/responseactions/stage.go:139-147 | The action taken is the next id counted as handled, and was not remembered as handled before |
| Executor.TakenAgainOnlyWhenForgotten | internal/runtime/controlplane.go:110-135 | Within one process an action is taken up again only after as many ids new to the handled queue as it holds have followed the first time |
| Executor.Executor.ProcessResponseActions | internal/runtime/controlplane.go:85-137 | A pass without faults confirms the eight oldest results, executes the eight oldest accepted actions, and takes eight staged ones or all there are or as many as fit, each of which is executed or journaled already, through protocol steps only |
| Executor.Executor.Restart | internal/responseactions/journal.go:249-288 | After a restart no entry is executing; entries are unchanged or became failed; if they fit the handled queue, all of them count as handled; it fails only if the journal cannot be loaded or a write failed |
| Executor.Executor.MarkAllHandled | internal/runtime/service.go:165-171 | All journaled ids are handled if the handled queue has room for them |
| Executor.Executor.RecoverInterrupted | internal/responseactions/journal.go:249-288 | Every executing entry becomes failed, wherever recovery itself is interrupted |
| CertPair.OutcomeByCases | internal/certrenew/certrenew.go:253-302 | The pair recovery is headed for, combination by combination, and when there is nothing to recover or no way to |
| CertPair.KeyWriteKeepsOutcome | internal/certrenew/certrenew.go:280-294 | Interrupting recovery after the key write keeps its outcome if and only if the disk is not ambiguous |
| CertPair.RecoveryKeepsOutcome | internal/certrenew/certrenew.go:253-302 | Interrupting recovery anywhere keeps its outcome |
| CertPair.InterruptedRecoveries | internal/certrenew/certrenew.go:253-302 | So do any number of interrupted recoveries in a row |
| CertPair.AmbiguousDiskExists | internal/certrenew/certrenew.go:270-294 | The excluded disk exists and does change its outcome |
| CertPair.CrashSafeReplacement | internal/certrenew/certrenew.go:177-302 | From any crash point of a replacement, after any interrupted recoveries, recovery installs exactly the old or exactly the new pair, the new one iff the certificate was renamed |
| CertPair.ReplacementShapeIsSafe | internal/certrenew/certrenew.go:177-245 | Every disk a replacement can leave behind is such a crash point |
| CertPair.FirstInstallShapeIsSafe | internal/certrenew/certrenew.go:177-245 | A first installation recovers to the new pair once both halves are on disk, and is stuck exactly while one is |
| CertPair.CommitIsShaped | internal/certrenew/certrenew.go:215-238 | Every intermediate disk of the commit has that shape |
| CertPair.RecoveryKeepsShape | internal/certrenew/certrenew.go:240-243 | So has every disk of the recovery after a failed commit |
| CertPair.RecoveryKeepsPair | internal/certrenew/certrenew.go:253-302 | From a disk with a pair to install, a recovery interrupted anywhere leaves one with a pair to install |
| CertPair.TransactionKeepsPair | internal/certrenew/certrenew.go:177-245 | So does a whole transaction |
| CertPair.PairStore.RecoverPair | internal/certrenew/certrenew.go:253-302 | Seen only at disks it can be resumed from; on success the disk holds exactly the chosen pair; it fails only if stuck, and then touches nothing, or if an operation failed |
| CertPair.PairStore.CleanupPairArtifacts | internal/certrenew/certrenew.go:317-338 | Attempts all removals; success leaves no transaction file |
| CertPair.PairStore.ReplaceBackup | internal/certrenew/certrenew.go:304-315 | The only disks on the way, and the backup on success |
| CertPair.PairStore.StageNext | internal/certrenew/certrenew.go:202-213 | Writes both halves and the marker; every disk on the way keeps the current pair; after success all three are there |
| CertPair.PairStore.Commit | internal/certrenew/certrenew.go:215-238 | Every crash point is safe; success makes the new pair current |
| CertPair.PairStore.Transact | internal/certrenew/certrenew.go:202-244 | Stage, commit, then clean up or recover, safe at every crash point |
| CertPair.PairStore.PersistPair | internal/certrenew/certrenew.go:177-245 | Every crash point is safe and one the protocol allows for; success leaves exactly the new pair; an acceptable pair fails only by a failing operation or a stuck disk, which stays as it is |
| Spool.RemovalIsExact | internal/spool/spool.go:430-455 | Recording a removal keeps pending and bytes exact, so the clamps never fire, and keeps both balances |
| Spool.RemovalIsCharged | internal/spool/spool.go:430-455 | A removal is charged to its own reason and no other |
| Spool.LandedErrorIsUncounted | internal/spool/spool.go:203-207 | A write error with the file in place would leave it uncounted |
| Spool.SortForEviction | internal/spool/spool.go:544-549 | All entries in order of priority and name |
| Spool.DropExpired | internal/spool/spool.go:528-542 | Exactly the over-age entries outside the in-flight set go, each charged as expired |
| Spool.EvictForCapacity | internal/spool/spool.go:550-562 | In-flight entries stay; every eviction is charged to capacity; given which removals fail, the eviction is minimal, over-age entries that could not be removed not counting towards the number of entries; a directory within limits is untouched |
| Spool.EnforceRetention | internal/spool/spool.go:492-571 | Books exact whatever fails; given which removals fail, exactly the over-age entries outside the in-flight set and the shortest sufficient prefix in eviction order are gone |
| Spool.PrunedWithoutFaults | internal/spool/spool.go:492-571 | If all removals succeed, no over-age entry outside the in-flight set is left and the eviction is minimal for the configured limits |
| Spool.EvictionIsMinimal | internal/spool/spool.go:550-562 | No shorter prefix of the eviction order would have met both budgets |
| Spool.ShorterPrefixesMiss | internal/spool/spool.go:550-562 | If a prefix misses a budget, so does every shorter one |
| Spool.MissedOnlyWhenExhausted | internal/spool/spool.go:550-562 | If a budget is still missed, everything that could be evicted is gone |
| Spool.RestartCounts | internal/spool/spool.go:457-490 | After a restart the books agree with the directory and every loss has a reason |
| Spool.RestartBalances | internal/spool/spool.go:457-490 | Exactly when the totals balance after a restart |
| Spool.CleanRestartBalances | internal/spool/spool.go:573-594 | After a clean shutdown the books come back as they were |
| Spool.CrashUnbalances | internal/spool/spool.go:430-455 | A crash between a removal and the statistics write leaves the totals unbalanced |
| Spool.Rescan | internal/spool/spool.go:457-490 | Counts the directory and enforces retention without losing the account; what is left is what retention calls for, everything if the limits are met |
| Spool.SortForDrain | internal/spool/spool.go:365-410 | All entries, undecodable first, then by priority, age and name |
| Spool.DrainedSooner | internal/spool/spool.go:391-402 | The comparison: undecodable first, then higher priority, older, lower name |
| Spool.Spool.constructor | internal/spool/spool.go:103-132 | A new process has exact books over what retention leaves of what it found, and the statistics file holds them unless writing it fails |
| Spool.Spool.Enqueue | internal/spool/spool.go:172-221 | The entry is on disk if reported queued, gone if over budget; in-flight entries stay; what else leaves is exactly what retention calls for, nothing if the limits are met, and is charged to age or capacity; a failed write changes nothing; books exact and balanced, and the statistics file holds them unless writing it fails |
| Spool.AddFile | internal/spool/spool.go:209-213 | Counts the new file; the directory is what retention calls for, or untouched if it cannot be listed; nothing is removed if the limits are met |
| Spool.Spool.RemoveEnvelope | internal/spool/spool.go:231-266 | Each outcome exactly characterised: missing, undecodable, another batch, or removed and counted |
| Spool.Spool.Drain | internal/spool/spool.go:268-363 | Under arbitrary concurrent enqueues books stay exact; entries are taken up in drain order, as many as the limit allows; each meets the fate its own content, age and delivery call for, and the drain stops exactly where it has to; a deferred one is rewritten with one more attempt; the books count exactly those fates as delivered, refused, corrupt and retried; what is not taken up keeps its content, and unless something was enqueued meanwhile exactly the removed entries are gone and each loss is accounted for; an entry that could not be removed, rewritten or read means a failed operation |
| Spool.Spool.DrainOne | internal/spool/spool.go:287-360 | One entry, with other goroutines enqueueing before and while it is in flight: its fate follows from the file listed, is what the books record, and decides whether the drain goes on; one that could not be removed or rewritten is still there unchanged; no other listed entry is disturbed |
| Spool.Spool.DrainNames | internal/spool/spool.go:286-360 | The loop: every entry taken up meets its own fate, earlier fates last, the books record exactly these fates, and the other entries stay unless batches enqueued meanwhile displace them |
| Spool.Spool.Conclude | internal/spool/spool.go:309-359 | The fate of an in-flight entry is exactly determined by its content, its age and the delivery verdict, and determines directory and books; a deferred entry holds one more attempt and a retry is counted, unless it could not be rewritten, which leaves everything as it was |
| Spool.FatesFollowVerdicts | internal/spool/spool.go:309-359 | An entry leaves as delivered only if its own envelope was accepted, as lost for good only if it was refused, as expired only if too old, as corrupt only if undecodable, and is kept, rewritten or not, only if deferred |
| Spool.Spool.Settle | internal/spool/spool.go:412-422 | Removal with its reason, or nothing; the entry leaves the in-flight set; the statistics file follows |
| Spool.Spool.Defer | internal/spool/spool.go:326-344 | One more attempt is recorded and the byte count follows the new size; the statistics file follows |
| Delivery.PostWithRetry | internal/sender/sender.go:264-291 | The retry loop computes the recursive specification |
| Delivery.PostByRounds | internal/sender/sender.go:264-291 | The result is that of the last round that took place, or the context error with its status |
| Delivery.DeliveredIffAcknowledged | internal/sender/sender.go:264-324 | Delivery succeeds if and only if some round that takes place is acknowledged in full, field by field |
| Delivery.AcknowledgementIsExact | internal/sender/sender.go:441-495 | For each kind, an answer succeeds if and only if it is a success that is explicitly accepted and durable and, for events and findings, counts exactly what was sent |
| Delivery.AnswerByCases | internal/sender/sender.go:293-324 | Status and error of one answer, each error with its exact condition |
| Delivery.RetriedIff | internal/sender/sender.go:364-375 | Another round follows exactly after a transient connection failure, a server error or an unconfirmed success |
| Delivery.KeptIff | internal/sender/sender.go:377-407 | The exact answers after which the direct path keeps a batch |
| Delivery.DiscardedIff | internal/sender/sender.go:170-187 | The exact answers after which the flush path gives a batch up |
| Delivery.FirstRoundAcknowledged | internal/sender/sender.go:264-291 | If the first answer acknowledges the batch, it is delivered |
| Delivery.DroppedIffRefusedOrCutOff | internal/sender/sender.go:237-250 | The direct path drops a batch if and only if the last answer refuses it or an unconfirmed success is cut off |
| Delivery.NotSpoolableIffRefused | internal/sender/sender.go:377-407 | A single answer is not spoolable if and only if it refuses the batch |
| Delivery.UnconfirmedBatchCanBeDropped | internal/sender/sender.go:268-274 | A concrete exchange in which an unconfirmed batch is dropped |
| Delivery.WherePathsWouldDisagree | internal/sender/sender.go:377-407 | Exactly which error and status pairs are kept by one path and discarded by the other |
| Delivery.KeptBatchesAreNotDiscarded | internal/sender/sender.go:170-187 | No exchange after which the direct path keeps a batch makes the flush path discard it |
| Delivery.FlushIsMorePatient | internal/sender/sender.go:497-513 | Exactly which dropped batches the flush path would have kept |
| Delivery.FlushKeepsWhatDeliverKeeps | internal/sender/sender.go:170-187 | The same for the drain callback |
| Sender.Sender.Deliver | internal/sender/sender.go:213-251 | With a spool the batch is written ahead unless a file operation fails or retention has no room for it; it is on disk while it is posted, settling always finds it, a batch reported queued is on disk under the same identity, and a settled one is counted as delivered iff confirmed; a batch the first answer acknowledges is sent, file errors apart; other entries leave only by retention |
| Sender.Sender.WriteAhead | internal/sender/sender.go:228-235 | The batch is on disk, or a file operation failed, or retention has no room for it; the rest of the directory is what retention leaves |
| Sender.Sender.SendEvents | internal/sender/sender.go:114-150 | Durable is the length of a prefix of events each confirmed by the server or held by the spool; it stops early only after a batch that was not confirmed or could not be settled, so never after one the first answer acknowledges, file errors apart; if that exchange may be spooled, the whole batch counts as durable unless a file operation failed or retention has no room for it |
| Sender.Sender.SendBatch | internal/sender/sender.go:122-147 | One batch: all its events confirmed, or all spooled, or a failure, and when each must happen |
| Sender.LimitsShrink | internal/spool/spool.go:550-562 | Where retention has room for a batch it has room with fewer other entries, so earlier batches of one call take none away |
| Sender.EventsYield | internal/sender/sender.go:253-262 | Batches of events are evicted before and drained after those of inventory and findings |
| Sender.Sender.Flush | internal/sender/sender.go:170-187 | Drains in order up to the drain limit and reports the exact number delivered; an entry leaves as delivered only if its own batch was acknowledged, as lost only if that was refused for good, and is still on disk if kept; the books count exactly these, and unless something was enqueued meanwhile the other entries are as they were |
| Sender.DrainLimit | internal/sender/sender.go:189-198 | A tenth of the batch size, between 8 and 64 |
| AuthLog.IdentityIsStable | internal/collectors/ssh/authlog.go:318-329 | A line keeps its identity when more is appended |
| AuthLog.SameLineSameIdentity | internal/collectors/ssh/authlog.go:318-329 | Captures before and after a rollback or restart give a line the same identity |
| AuthLog.ReplayBeginsAlike | internal/collectors/ssh/authlog.go:265-308 | A replayed capture repeats the evidence of the first, in order |
| AuthLog.EvidenceIsReported | internal/collectors/ssh/authlog.go:195-224 | Suppressing logins never touches evidence: captured evidence is exactly the evidence of the stretch |
| AuthLog.ReportedNamesLines | internal/collectors/ssh/authlog.go:195-224 | Every event names a complete line by position and text |
| AuthLog.ReportedIsNews | internal/collectors/ssh/authlog.go:190-224 | The events of a stretch name, in order, exactly the lines that are evidence or logins whose key was seen neither recently before nor earlier in the stretch |
| AuthLog.EvidenceIsStable | internal/collectors/ssh/authlog.go:195-224 | What a stretch amounts to does not depend on what follows |
| AuthLog.CheckRepeated | internal/collectors/ssh/authlog.go:422-436 | A login is suppressed exactly if its key was seen within the window, and is seen now either way; evidence never |
| AuthLog.Prune | internal/collectors/ssh/authlog.go:438-447 | Exactly the keys not older than twice the window are kept, which suppresses neither more nor less now |
| AuthLog.HandleLine | internal/collectors/ssh/authlog.go:206-223 | One line yields exactly its event, if any, and a login is remembered |
| AuthLog.ReadLines | internal/collectors/ssh/authlog.go:190-226 | The loop reports exactly the news of a stretch of complete lines, in order, and remembers its logins, ending at a boundary, with a full batch or no complete line left |
| AuthLog.CommitContinues | internal/collectors/ssh/authlog.go:231-256 | Committing extends the committed evidence without gap or repetition |
| AuthLog.CommitStarts | internal/collectors/ssh/authlog.go:173-181 | After a rotation the committed evidence starts with the new log |
| AuthLog.Capturer.Capture | internal/collectors/ssh/authlog.go:149-229 | Covers the log from the committed position to a line boundary, reports exactly the news there and remembers its logins; nothing committed changes; fails for a bad checkpoint, a missing file or a read error, and succeeds only if no read failed |
| AuthLog.Capturer.StartIn | internal/collectors/ssh/authlog.go:173-188 | Starts at the committed position, or at zero for a replaced or truncated log |
| AuthLog.Capturer.Commit | internal/collectors/ssh/authlog.go:231-256 | The pending events become committed; on success the checkpoint holds the position; without a checkpoint path nothing is written |
| AuthLog.Capturer.Rollback | internal/collectors/ssh/authlog.go:258-274 | The position and the cache are as before the capture |
| AuthLog.Capturer.Restart | internal/collectors/ssh/authlog.go:276-308 | Resumes from the checkpoint; an unreadable one fails closed |
| Cycle.Manager.RunOnce | internal/sources/cycle.go:35-227 | All events are handed over, captured ones first, and the durable ones are confirmed or spooled; a capture is committed, in memory and in the checkpoint file, only if each of its events is; otherwise position, cache and checkpoint are untouched; it is not committed only for a failed capture or too few durable events |
| Cycle.Manager.HandOver | internal/sources/cycle.go:189-199 | Sends the events, then commits the capture exactly if all its events are durable, and takes it back otherwise |
| EnrollmentProtocol.UpdateIsIdempotent | internal/enrollment/manager.go:114-187 | Applying an update twice in a row leaves credential and both renewal tokens as after once |
| EnrollmentProtocol.RefinalizationKeepsIdentity | internal/enrollment/pending.go:135-211 | In every run, finalizing a stored response again leaves the identity file as the first time, across failures and restarts, unless a rotation came between |
| EnrollmentProtocol.RefinalizationKeepsCredential | internal/enrollment/pending.go:135-211 | It leaves the credential on disk alone if and only if the last write since was a finalization or a rotation to that very credential |
| EnrollmentProtocol.SupersededCredentialReturns | internal/enrollment/pending.go:183-206 | A run in which a superseded credential comes back |
| EnrollmentProtocol.UpdateKeepsTheChain | internal/enrollment/manager.go:126-148 | The current token stays usable as current or previous; consumption is never undone |
| EnrollmentProtocol.UpdateTakesOver | internal/enrollment/manager.go:114-187 | Credential, renewal token, previous token, their expiries and consumption after an update, field by field |
| EnrollmentProtocol.IdentityFileTakesOver | internal/enrollment/manager.go:114-187 | In every run, a finalization or rotation puts exactly what the server issued into the identity file, and nothing else writes it |
| EnrollmentProtocol.RunsAreConsistent | internal/enrollment/manager.go:276-401 | In every run the files, memory and request history agree |
| EnrollmentProtocol.StepKeepsTransactions | internal/enrollment/pending.go:41-151 | Every step keeps requests tied to the pending file |
| EnrollmentProtocol.StepKeepsConsumption | internal/enrollment/manager.go:101-187 | Every step keeps the consumption of the bootstrap token on disk and in memory |
| EnrollmentProtocol.PendingEnrollmentIsReplayed | internal/enrollment/manager.go:311-343 | Requests with no completion or refusal between them carry the same enrollment id and CSR, across crashes |
| EnrollmentProtocol.ClosedEnrollmentsStayClosed | internal/enrollment/pending.go:112-133 | An enrollment id is not used again once its transaction ended |
| EnrollmentProtocol.DroppedOnlyAfterRefusal | internal/enrollment/manager.go:329-343 | In every run a transaction is dropped only after a 401 or an HTTP-reported incompatibility in answer to its last request |
| EnrollmentProtocol.RequestsAreWrittenAhead | internal/enrollment/manager.go:357-376 | Every request is in the pending file, unanswered, when it is sent, and carries a token |
| EnrollmentProtocol.BootstrapIsUsedOnce | internal/enrollment/manager.go:101-112 | No bootstrap token is sent after an enrollment with one was finalized |
| EnrollmentProtocol.UnacceptableResponseBlocks | internal/enrollment/pending.go:153-182 | From a stored response that can no longer be finalized on, the file stays and nothing is sent |
| EnrollmentProtocol.StuckPairBlocks | internal/certrenew/certrenew.go:190-193 | From certificate files no recovery accepts on, nothing is finalized, cleared or sent |
| EnrollmentProtocol.BlockedIffUnacceptableOrStuck | internal/enrollment/pending.go:153-182 | A stored response is stuck for good if and only if it is not acceptable, or the certificate files cannot be recovered, or they are empty and the process is down |
| EnrollmentProtocol.InterruptedInstallationBlocks | internal/certrenew/certrenew.go:202-206 | A run in which a good response is stuck: a crash after the first half of a first installation |
| EnrollmentProtocol.InstalledPairNeverBlocks | internal/certrenew/certrenew.go:253-302 | Once there is a pair to install, no installation, renewal, recovery or crash makes the certificate files block |
| EnrollmentProtocol.CertificateComesFirst | internal/enrollment/pending.go:177-185 | In every run a credential is saved only after the certificate of its own response was checked and installed |
| EnrollmentProtocol.AcceptableIffSomeday | internal/certrenew/certrenew.go:131-175 | Acceptable if and only if some time from now on passes every check on agent, protocol, credential, certificate and CA bundle |
| EnrollmentProtocol.StoredAndStuck | internal/enrollment/manager.go:537-550 | Runs that store such responses: no certificate, a foreign one, an expired one, an unusable CA bundle |
| Enrollment.NextWait | internal/enrollment/manager.go:250-262 | The doubling loop computes the bounded exponential wait |
| Enrollment.WaitByCases | internal/enrollment/manager.go:250-262 | 5, 10, 20, 40, 80, 160 and then 300 seconds |
| Enrollment.WaitIsBounded | internal/enrollment/manager.go:250-262 | Between five seconds and five minutes, growing with the failures |
| Enrollment.CandidatesAreGenuine | internal/enrollment/manager.go:403-428 | Exactly the methods with an available token, each with its own token, in order of preference |
| Enrollment.AvailableByFields | internal/enrollment/manager.go:403-428 | Which methods are available with which tokens, by the tokens held, their expiries and consumption |
| Enrollment.AvailableMethods | internal/enrollment/manager.go:403-428 | The code computes exactly these candidates |
| Enrollment.TokenOf | internal/enrollment/manager.go:430-437 | Looking a method up finds its token, or none |
| Enrollment.RemoveMethod | internal/enrollment/manager.go:439-447 | The loop leaves exactly the other methods, in order |
| Enrollment.WithoutIsGenuine | internal/enrollment/manager.go:439-447 | Exactly the candidates of the other methods, still in order of preference |
| Enrollment.Manager.RecoverIdentity | internal/enrollment/manager.go:276-401 | A stored response is finalized without sending; an open request is repeated as it is; otherwise the preferred method is tried under a new id; nothing happens while backed off; success means that a response was finalized last and its credential is in force in file and memory, and a usable answer to any request it comes to succeeds, file errors apart; a request that fails is counted and the next try waits |
| Enrollment.Manager.RepeatPending | internal/enrollment/manager.go:316-344 | The request in the file is sent; it is dropped only after a 401 or an HTTP incompatibility, and then always; success means that the answer was finalized, and a usable answer succeeds |
| Enrollment.Manager.TryMethods | internal/enrollment/manager.go:346-400 | Each try is written ahead under a new id; the first request uses the preferred method; success means that the answer to one of them was finalized; if the tokens before it are refused, a usable answer succeeds, file errors apart |
| Enrollment.Manager.AttemptPending | internal/enrollment/manager.go:449-489 | Sends exactly the stored request with the token of its method |
| Enrollment.Manager.HandleAnswer | internal/enrollment/manager.go:470-479 | The response is stored before it is applied |
| Enrollment.Manager.FinalizePending | internal/enrollment/pending.go:153-211 | Nothing is sent; it succeeds exactly if the response can be finalized now and the certificate files are not stuck, file errors apart, and then certificate, credential and renewal tokens are taken over in file and memory and the pending file is gone; otherwise nothing changes |
| Enrollment.Manager.CheckResponse | internal/enrollment/pending.go:153-185 | The checks pass if and only if the response can be finalized now; what that takes, field by field |
| Enrollment.Manager.InstallPair | internal/enrollment/manager.go:537-563 | The pair of the response is installed, unless the certificate files are stuck, which then stay as they are, or an operation fails |
| Enrollment.Manager.ApplyStored | internal/enrollment/manager.go:114-187 | What the server issued is taken over, in the identity file before memory |
| Enrollment.Manager.OpenPending | internal/enrollment/pending.go:41-74 | A new transaction is on disk, or nothing was sent |
| Enrollment.Manager.DropPending | internal/enrollment/pending.go:112-133 | The file is gone on success |
| Enrollment.Manager.RotateCredential | internal/enrollment/manager.go:114-187 | What the server issued is taken over in file and memory, or memory is unchanged; it fails only for an empty credential or a failed write |
| Enrollment.Manager.RecordFailure | internal/enrollment/manager.go:491-498 | The next try waits at least the backoff and at most half a minute longer |
| Enrollment.Manager.Restart | internal/enrollment/manager.go:49-62 | Memory is what the identity file holds and the certificate files are recovered; the process does not come up if they cannot be recovered or loaded |
| Enrollment.Manager.RecoverFiles | cmd/seagull-agent/main.go:31-42 | The certificate files are recovered and can be loaded or are absent; otherwise the process does not start |
| TopK.SpaceSaving | internal/collectors/ddos/topk.go:28-56 | For every stream and every choice of least key: at most k keys, counters sum to the total, true <= count <= true + least counter, unmonitored <= least counter |
| TopK.AddKeepsGuarantee | internal/collectors/ddos/topk.go:92-117 | Each addition keeps that guarantee |
| TopK.HeavyKeysArePresent | internal/collectors/ddos/topk.go:28-56 | A key with more than a k-th of the weight is monitored |
| TopK.ErrorIsBounded | internal/collectors/ddos/topk.go:28-56 | No counter overstates by more than a k-th of the weight |
| TopK.FindLeast | internal/collectors/ddos/topk.go:41-50 | The scan finds a least counter whatever its order |
| TopK.AddTo | internal/collectors/ddos/topk.go:28-56 | The code is an instance of the specified addition |
| TopK.ItemsSorted | internal/collectors/ddos/topk.go:58-83 | Every counter once, largest first, ties by key; the sum is kept |
| TopK.Counter.constructor | internal/collectors/ddos/topk.go:15-20 | An empty counter, with the default size |
| TopK.Counter.Add | internal/collectors/ddos/topk.go:28-56 | The guarantee holds of the stream extended by the hit |
| TopK.Counter.Reset | internal/collectors/ddos/topk.go:22-26 | Nothing is left |
| Window.CountedKeepsProportions | internal/collectors/ddos/pcap_ddos.go:423-492 | Partial counts stay parts of the packet count |
| Window.CountedTallies | internal/collectors/ddos/pcap_ddos.go:423-492 | Each counter is the sum over the packets counted of what it counts |
| Window.PacketKeepsAggregate | internal/collectors/ddos/pcap_ddos.go:423-492 | Source counters keep summing to the packet weight, and every counter to what it counts |
| Window.HeavySourcesAreSeen | internal/collectors/ddos/pcap_ddos.go:423-492 | A source above a k-th of the traffic is listed, with bounded error |
| Window.IdleIsClear | internal/collectors/ddos/pcap_ddos.go:555-557 | An aggregate without packets has nothing to clear |
| Window.FillBuckets | internal/collectors/ddos/entropy.go:43-96 | Buckets, remainder, distinct count and top entry of a counter list |
| Window.Evaluate | internal/collectors/ddos/entropy.go:43-115 | Fed with its own total, a counter has an empty remainder bucket, at most k buckets summing to the total, and a true maximum |
| Window.TopCarriesItsShare | internal/collectors/ddos/entropy.go:98-107 | The largest counter holds at least a k-th |
| Window.CountHosts | internal/collectors/ddos/pcap_ddos.go:529-542 | Host totals are the sums over their aggregates, and their port counters were fed with exactly the packets of each port |
| Window.EvaluateHosts | internal/collectors/ddos/pcap_ddos.go:544-547 | Every host evaluation is complete and true to its ports |
| Window.CloseWindow | internal/collectors/ddos/pcap_ddos.go:549-703 | Stale aggregates go, all others start from zero, every busy one is evaluated completely against its own packets |
| Window.Collector.SampleWeight | internal/collectors/ddos/pcap_ddos.go:339-357 | Under backpressure the weights add up to the packets seen, less the incomplete round |
| Window.Collector.OnPacket | internal/collectors/ddos/pcap_ddos.go:359-492 | Every packet is sampled first; of one drawn that passes the filters exactly one aggregate grows, by the weight, in total and in its source counters |
| Window.Collector.RotateIfNeeded | internal/collectors/ddos/pcap_ddos.go:514-706 | Exactly the hosts and live targets with traffic are evaluated, each completely; the top entry never understates, overstates by at most a k-th, and no key above a k-th exceeds it; the next window starts from zero |
| Ipv4.Increment | internal/topologydiscovery/discovery.go:237-246 | The byte-carry loop is addition of one modulo 2^32 |
| Ipv4.MaskedValue | internal/topologydiscovery/discovery.go:212-213 | Masking byte by byte rounds down to the block |
| Discovery.ContainsIsRange | internal/topologydiscovery/discovery.go:262-269 | Agreement of masked bytes is membership in the block of numbers |
| Discovery.BroadcastIsLast | internal/topologydiscovery/discovery.go:248-260 | The byte-wise test recognises exactly the last address |
| Discovery.ContainmentIsInclusion | internal/topologydiscovery/discovery.go:305-315 | Prefix containment if and only if inclusion of the address sets |
| Discovery.ContainmentIsInclusion6 | internal/topologydiscovery/discovery.go:305-315 | The same for IPv6 |
| Discovery.PrivateByBytes | internal/topologydiscovery/discovery.go:282-303 | The private, shared, loopback and link-local addresses by their first two bytes |
| Discovery.CheckPrivate | internal/topologydiscovery/discovery.go:282-303 | The loop decides whether a range lies in one of the nine blocks |
| Discovery.FirstHost | internal/topologydiscovery/discovery.go:203-220 | The first address after the network address up to /30, the base for /31 and /32 |
| Discovery.NextHost | internal/topologydiscovery/discovery.go:222-235 | The next number modulo 2^32, unless outside the range or its broadcast address |
| Discovery.NextNumberIsNextHost | internal/topologydiscovery/discovery.go:222-235 | From a host that is the next host, stopping after the last one even at the top of the address space |
| Discovery.IsDenied | internal/topologydiscovery/discovery.go:262-269 | Exactly the addresses in a denied range |
| Discovery.SelectPrivate | internal/topologydiscovery/discovery.go:186-201 | Exactly the private IPv4 interface ranges, each once, in the order first listed |
| Discovery.CheckRanges | internal/topologydiscovery/discovery.go:57-69 | Refuses IPv6 and, unless allowed, public ranges; skips absent ones |
| Discovery.Consider | internal/topologydiscovery/discovery.go:79-92 | One address: repeated, local, denied or a target, and counted as such |
| Discovery.PlanRange | internal/topologydiscovery/discovery.go:74-93 | Walks a range host by host until it ends or the limit is reached |
| Discovery.BuildPlan | internal/topologydiscovery/discovery.go:44-96 | Terminates with exactly the first MaxHosts addresses of the concatenated host ranges without duplicates, local and denied ones; capped exactly if addresses were left |
| Discovery.EligibleMembers | internal/topologydiscovery/discovery.go:79-92 | Eligible addresses are exactly the probed ones, each once |
| Discovery.TargetsAreEligible | internal/topologydiscovery/discovery.go:44-96 | Targets lie in a chosen range, are neither local nor denied, distinct, and as many as are eligible up to the limit, 256 if none is set |
| DiscoveryPolicy.RemoteOnlyRestricts | internal/sources/runtime_config.go:308-329 | Remote settings never enable, speed up or enlarge anything |
| DiscoveryPolicy.RestrictionsTakeEffect | internal/sources/runtime_config.go:293-329 | Every restriction a remote document asks for takes effect: the tightest positive bound is in force |
| DiscoveryPolicy.RefusedIff | internal/sources/runtime_config.go:330-342 | A remote list of ranges is refused if and only if it is malformed, names a public range without permission, or a range outside the local ones |
| DiscoveryPolicy.ParsedRanges | internal/config/config.go:869-885 | A list parses if and only if no piece is malformed, to exactly the ranges it names |
| DiscoveryPolicy.LocalPolicyBoundsPlans | internal/sources/runtime_config.go:293-342 | At most the local MaxHosts targets, and only private ones unless local policy allows public |
| DiscoveryPolicy.LocalRangesBoundPlans | internal/sources/runtime_config.go:330-339 | All plans stay inside the local ranges if and only if the remote list does not name nothing, or the local ranges cover all private addresses |
| DiscoveryPolicy.CommaLeavesTheLocalRange | internal/sources/runtime_config.go:368-402 | A concrete remote list that leaves the local range |
| DiscoveryPolicy.ChosenRanges | internal/config/config.go:869-901 | The ranges in force are the local ones, ranges within them, or none if the list names nothing |
| DiscoveryPolicy.ParseIsEmpty | internal/config/config.go:869-885 | A list parses to nothing exactly if all its pieces are blank |
| DiscoveryPolicy.WithinIsInclusion | internal/sources/runtime_config.go:344-366 | Ranges accepted by the test contain only addresses of the local ranges |
| RuntimeConfig.AcceptedIffNewer | internal/sources/runtime_config.go:131-164 | A document is accepted if and only if it is proper and ranks above the current one; when it is unchanged and when it conflicts |
| RuntimeConfig.AcceptedByRevision | internal/sources/runtime_config.go:131-164 | The same condition by the revisions of the two documents |
| RuntimeConfig.ParseRevision | internal/sources/runtime_config.go:450-460 | A revision is absent or a positive number, or the document is invalid |
| RuntimeConfig.AcceptancesNeverReturn | internal/sources/runtime_config.go:131-164 | Along any chain of acceptances, earlier documents differ and are refused |
| RuntimeConfig.Store.Apply | internal/sources/runtime_config.go:122-185 | Accepted documents are in force and on disk; anything else changes nothing in force; a newer proper document is turned down only by a failed write, so never without a path; the history stays strictly increasing |
| RuntimeConfig.Store.Restart | internal/sources/runtime_config.go:404-427 | What was in force, or something newer that reached the disk, is in force again; without a path it starts over |

## Left out

- HTTP clients, TLS, heartbeats, pollers and tickers: server answers are parameters or arbitrary choices.
- JSON encoding, hashing, UUIDs and X.509: sizes, identities and the fit of key and certificate are abstract.
- The individual response actions: the effect of one is a single opaque event.
- Packet capture, layer decoding, payload parsers and the packet filters: `OnPacket` is given a decoded packet and whether it passes.
- Cardinality estimates, entropy values, baselines, confidence, severity and alert cooldown.
- File integrity, process, system inventory and vulnerability collectors: their events are an arbitrary list in the cycle.
- Environment loading, logging, packaging.
- Text is modelled after trimming and lower-casing; times are whole seconds, so sub-second expiry truncation in identity files is not modelled.
- Stage.Stage.Offer: the poller is interleaved with the executor only where the executor uses the stage, since they share nothing else.
- Executor.Executor.Execute: the checks of profile, agent and action kind are one boolean, and what the action itself does is opaque.
- Window.Collector.OnPacket: aggregates and their counters are values in the collector's map, not shared objects; the 64-bit sample counter does not wrap; the drop counter covers sampling only.
- Spool.Spool.Enqueue: the empty-payload error is not modelled, and file names are their ranks in lexicographic order.
- AuthLog.Capturer.Capture: a failing seek on the open log is not modelled; the regular expressions are one abstract parser.
- Cycle.Manager.RunOnce: scan statistics, normalisation and event identity assignment are not modelled.
- Enrollment.Manager.RecoverIdentity: a credential rotation is not interleaved inside one call, though `EnrollmentProtocol` allows it anywhere; the CA bundle is a write that may fail, and one reading of the clock serves all checks of a finalization.
- Enrollment.Manager.RecoverFiles: where only one certificate path is configured, or the same one twice, starting up is not modelled further; no response can be finalized then.
- CertPair.PairStore.PersistPair: validity period, subject and chain checks are one boolean.
- DiscoveryPolicy.LocalPolicyBoundsPlans: IPv6 ranges only take part as far as they make a plan fail.
