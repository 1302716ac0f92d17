# Agency: publication, jobs, locks and identities

This project models the part of Agency that must not go wrong when processes crash or race: the write-ahead
publication of an agent's memory and its recovery, the life of a job record, the locks, the move of an agent between
groups, and the encodings and caches these rest on. Verify it with Dafny 4.11: `dafny verify dfyconfig.toml`.

## How the model is built

**Crash safety.** `MemoryDisk.Disk` is the durable state around one operation: the directories of a memory, its
journal and the status of its job. Each of its methods is one indivisible effect that may also fail, with or without
having taken place, and records the state on disk afterwards as a possible crash point, together with what the process
was doing. A ghost counter of failed effects, which stays at zero on a reliable disk, lets contracts also say what one
failure cannot do, and what succeeds when nothing fails. `CanonicalReplace`, `Publication`, `Recovery` and `Execution` are the source's functions as methods over
this disk, loops and rollbacks included. `Publication.Explained` says what each crash point looks like, and every
method proves that all the crash points it adds are explained. `Reconciliation` puts many memories, operations and jobs
together, runs the two passes of `reconcile_jobs` over all of them and derives exactly when job status and memory
content agree in the end. `CrashAndReconcile` composes the two: the worker's method, a crash at any of its crash points,
and the reconciler's method.

**Concurrency.** `JobLifecycle`, `NoLostUpdate`, `Locks` and `LockOrder` are state machines whose steps are the atomic
actions of any number of workers, users, reconcilers, threads and processes. Their theorems hold for every
interleaving.

**Identity.** SHA-256 is taken to be injective: a revision, a memory hash, a source digest and a file hash are
identified with what is hashed, and the theorems are about those pre-images.

**Fault model.** A crash is fail-stop between two durable effects; one rename and one atomic write are indivisible. The
end-to-end theorem covers every crash point and says on the disk it leaves when job and memory agree after
reconciliation: if and only if it is fit, that is, a job that is over agrees already and a running job without a journal
still has the old content (`Reconciliation.AgreementExactly`). All crash points are fit
(`Reconciliation.CrashPointsAreFit`) but for those of a rollback that has no journal yet and those after an exception
has left the rollback or the finalization, and for each of the two kinds a lemma gives an unfit one. The theorem assumes
that the worker is dead before recovery starts and that nobody else wrote the memory in between, and NUL-free payloads
where contents rather than revisions are compared.

**Where the code does less than one might expect.** Each of these is a lemma about the code as it is:

- two memories whose payloads hold NULs can have one revision (`MemoryFiles.NulPayloadsCollide`), exactly when a
  condition on the files holds (`MemoryFiles.RevisionIdentifiesExactly`); an update can be lost exactly when two
  contents that occur have one revision, or a publication fails without a lease, whose rollback takes the lock anew and
  puts the old content back whatever is there (`NoLostUpdate.SafeExactly`; jobs and direct saves hold a lease);
- a worker that dies in a rollback without a journal leaves a failed job over an emptied memory, and one whose
  finalization raises leaves a failed job over the new content (`Reconciliation.UnjournaledRollbackIsExposed`,
  `Reconciliation.EscapedFinalizationDisagrees`); `Reconciliation.AgreementExactly` is the exact condition;
- the write of a launch failure takes no job lock: it turns a job its user has just cancelled into a failed one, and
  when it falls between the read and the write of a locked transition a failed job becomes cancelled or goes on to run.
  The transition table is kept exactly in the runs whose launch failures meet neither a cancelled nor a complete job
  and do not fall into a locked transition to anything but failed (`JobLifecycle.OnTableExactly`);
- a stored memory identity with `true` for its version is accepted though nothing resolves to it
  (`Selectors.TrueIsAcceptedAsVersion`);
- an unchanged publication that is rolled back, and whose worker dies before the journal goes, is refused by every
  recovery: the job is failed, and recovery wants it complete (`Recovery.RollbackIsFinished`);
- a stray file beside the two runtime targets keeps a cache entry valid (`CompilationCache.StrayFileIsAccepted`);
- a daily routine runs exactly once a day if and only if its window ends by midnight, no cycle reaches it on a later day
  than it began, dies before writing its marker or overlaps another, and no other routine of the config has its marker
  (`DispatchGuarantee.GuaranteedExactly`, with a failing run for each); `Markers.MarkersCollideExactly` says which
  routines share one.

## Model

| member | source | states |
|---|---|---|
| MemoryFiles.ValidNameExactly | agency/memory/store.py:366-392 | which names a memory file may have: a stem that is not hidden and no device, in front of `.md`, in one segment |
| MemoryFiles.ReadableExactly | agency/memory/store.py:366-392 | which directories can be read: valid names of which no two differ in the case of ASCII letters alone |
| MemoryFiles.MemoryContentRevision | agency/memory/store.py:93-101 | the digest loop over sorted names feeds the hash exactly the pre-image `Revision` |
| MemoryFiles.RevisionInjective | agency/memory/store.py:93-101 | equal revisions mean equal contents when no name and no payload holds a NUL |
| MemoryFiles.RevisionIdentifiesExactly | agency/memory/store.py:93-101 | a readable content is the only readable one with its revision if and only if it is empty or a single file that hides no further record |
| MemoryFiles.NulPayloadsCollide | agency/memory/store.py:96-100 | two different readable contents with one revision |
| CanonicalReplace.WriteScratch | agency/memory/store.py:418-419 | all new files end up in the scratch directory; the memory stays as it was at every crash point |
| CanonicalReplace.Evacuate | agency/memory/store.py:420-422 | every old file moves to the evacuation directory; at every crash point memory and evacuation hold exactly the old files |
| CanonicalReplace.Install | agency/memory/store.py:423-426 | every new file moves in; the evacuated originals stay whole |
| CanonicalReplace.RollbackReplace | agency/memory/store.py:448-466 | when its effects succeed, exactly the old files are back and the evacuation directory is gone; when not, every old file is still in the memory or the evacuation directory |
| CanonicalReplace.ReplaceCanonicalFiles | agency/memory/store.py:395-445 | on return the directory holds exactly the new files and nothing else differs, temporary directories included, and it returns unless an effect failed; after a rollback exactly the old ones; only a second failed effect keeps the rollback from that; every crash point holds each old file in the directory or the evacuation, except those a failing last deletion has already removed |
| Publication.WriteBackup | agency/memory/publication.py:533-538 | the backup directory ends up with exactly the old files and nothing else changes |
| Publication.PublishChanged | agency/memory/publication.py:372-391 | journal `backed_up` only after a whole backup, `published` only after the new files are in place |
| Publication.RunTransactionLocked | agency/memory/publication.py:341-391 | a conflict exactly when the revision moved, with nothing touched; a commit leaves the new content under a `published` journal; over a readable memory at its revision only a failed effect prevents the commit; all crash points explained, each with the old content in the memory or whole in the backup |
| Publication.CleanupPaths | agency/memory/publication.py:574-585 | the journal goes first: while it is there, backup and stage are whole |
| Publication.Mark | agency/memory/publication.py:541-571 | the job moves from running only, and an already marked job is accepted |
| Publication.FinalizePublication | agency/memory/publication.py:203-221 | the job is complete before the journal goes; the memory is untouched; all crash points explained, and so is the state an exception escapes with |
| Publication.RollbackFailedTransaction | agency/memory/publication.py:394-427 | a rollback that succeeds leaves exactly the old content, a failed job and no journal; all crash points explained, and so is the state an exception escapes with |
| Publication.RollbackCrashKeepsOldContent | agency/memory/publication.py:394-427 | during a rollback the old content survives in the backup or spread over the memory and the evacuation |
| Publication.ApplyPublication | agency/memory/publication.py:159-200 | applied means new content, conflict means nothing happened, otherwise rolled back or the rollback itself failed; over a readable memory at its revision it is applied unless an effect failed, and settled unless two did |
| Publication.SaveDirectLocked | agency/memory/publication.py:224-254 | a direct save has replaced the content and left no journal, stage or backup unless an effect failed; one that fails and rolls back has changed nothing |
| Recovery.RecoverFromAnyState | agency/memory/recovery.py:424-522 | from any state whatever, a recovery that returns leaves the memory untouched and the job complete over the new content or failed over the old; always complete for an unchanged publication |
| Recovery.RefusedExactly | agency/memory/recovery.py:438-499 | of the states publication and recovery can leave, recovery refuses exactly those with an unreadable memory or one at no revision its phase allows, with a backup that should not be there or is not whole, with one revision for a change, or with a job in the wrong one of the two final statuses |
| Recovery.RecoveredExactly | agency/memory/recovery.py:325-328 | from any state whatever: a journal is recovered exactly when stage and backup are there and whole, the memory is at a revision its phase allows, and its job is running or already has the status the memory calls for |
| Recovery.FinalizationIsFinished | agency/memory/recovery.py:502-517 | a worker that died in its finalization, before or after the mark: recovery completes the job and cleans up |
| Recovery.RollbackIsFinished | agency/memory/recovery.py:470-499 | a worker that died with its rollback done: recovery fails the job and cleans up; of an unchanged publication it completes a running job and refuses one already marked failed |
| Recovery.Examine | agency/memory/recovery.py:424-499 | the branches of the decision, without any effect |
| Recovery.RecoverLocked | agency/memory/recovery.py:424-522 | the method carries out the decision; it refuses exactly the states it cannot settle and changes nothing there; it stops in between only on a failed effect, in a state from which recovery goes on |
| Recovery.RestartSettles | agency/memory/recovery.py:502-522 | a crash of recovery, anywhere, does not change what the next recovery settles on |
| Recovery.RestartRecovers | agency/memory/recovery.py:502-522 | a recovery that was interrupted with its journal still there gets through again, to the very same end |
| Recovery.RecoveryIsCrashTolerant | agency/memory/recovery.py:424-522 | any number of interrupted recoveries reach the same job status and memory content, and as long as the journal is there the next one gets through as the first would have |
| Recovery.RecoveryKeepsJournaled | agency/memory/recovery.py:502-522 | while recovery runs, a journal still implies a whole stage and backup |
| Execution.EnsureMemory | agency/memory/store.py:133-148 | a missing or empty memory becomes one blank file, any other is left alone |
| Execution.BlankIsReadable | agency/memory/store.py:133-148 | the blank memory is `memory.md` without content, which the store reads |
| Execution.StageMemory | agency/memory/store.py:156-182 | the stage becomes an exact copy, the memory stays as it is |
| Execution.TerminalizeFailure | agency/jobs/execution.py:144-177 | running and waiting jobs fail, all others are left alone |
| Execution.PreparePublication | agency/memory/publication.py:96-157 | prepared exactly when the memory is readable and at its revision and the stage can be published; then a well-formed operation over the content found |
| Execution.ExecuteLocked | agency/jobs/execution.py:338-502 | from the taken lock to the end: every crash point is a staging one or explained, those after an escaped exception included; without a failed effect, over a readable memory, the job ends complete over what the agent left when its run returned with exit code zero and left readable files, and otherwise failed over the memory as found, or the blank one |
| Execution.RunAndPublish | agency/jobs/execution.py:413-545 | what the agent left of its exact copy is published when it returned with exit code zero and left readable files; otherwise the job fails over the old content; nothing else happens unless an effect failed |
| Reconciliation.CrashPointsAreOfOperation | agency/memory/publication.py:341-427 | every explained crash point is a state of its operation: old and new files only, its journal, a job that has started |
| Reconciliation.CrashPointsAreFit | agency/memory/publication.py:341-427 | and fit, unless an exception has escaped or a rollback without a journal is under way |
| Reconciliation.AgreementExactly | agency/jobs/reconciliation.py:84-151 | the two passes leave job and memory in agreement if and only if the disk they find is fit |
| Reconciliation.AgreementOfContents | agency/memory/store.py:93-101 | over NUL-free contents agreement of revisions is agreement of contents |
| Reconciliation.ReconcileKeepsSane | agency/jobs/reconciliation.py:84-151 | the two passes keep a fit state of an operation fit with the memory untouched, and finish a job that is not barred |
| Reconciliation.EndToEnd | agency/jobs/reconciliation.py:65-166 | for every explained crash point of a worker, with any other journals and jobs in the store: the memory is not touched; a job that is not barred ends complete or failed, in agreement with the memory if and only if the crash point is fit; a barred one is as the crash or an interrupted recovery left it, and as the crash left it, journal included, when recovery refuses its journal |
| Reconciliation.EndToEndWhileStaging | agency/jobs/reconciliation.py:65-166 | a worker that crashed before its job ran: the job fails, the memory is as found or blank |
| Reconciliation.UnjournaledRollbackIsExposed | agency/memory/publication.py:394-417 | for every operation over a memory with files, a crash in its unjournaled rollback that is explained and not fit: the job is failed over an emptied memory, with every old file still in the evacuation directory |
| Reconciliation.EscapedFinalizationDisagrees | agency/jobs/execution.py:503-545 | every finalization that fails before the job is marked: the job is failed over the new content, which is explained and not fit, and recovery refuses it |
| Reconciliation.Store.RecoverOne | agency/memory/recovery.py:59-87 | one journal: recovered as decided, refused without a change, or left half way by a failed effect; other memories, journals and jobs untouched |
| Reconciliation.Store.RecoverPublications | agency/memory/recovery.py:40-92 | every journal is handled once, and trouble with some does not touch the others: those that are neither stuck nor troubled are recovered as decided and counted, the stuck ones bar the jobs they name, and no job is barred for another reason |
| Reconciliation.Store.SweepJobs | agency/jobs/reconciliation.py:98-151 | exactly the unbarred running or waiting jobs of confirmed-dead workers fail; both counters are the sizes of those sets |
| Reconciliation.Store.ReconcileJobs | agency/jobs/reconciliation.py:65-166 | both passes in order, each tied to its specification; every job that a stuck journal names is barred, none is that neither a stuck nor a troubled one names, and every such job of a dead worker is over; when recovery is unavailable no job is touched |
| Reconciliation.BarredExactly | agency/memory/recovery.py:195-216 | unsettled journals bar the jobs they name and no others; without trouble a job is barred if and only if a journal that cannot be settled lies under its id, or is unusable and claims it |
| Reconciliation.StuckExactly | agency/memory/recovery.py:59-87 | a journal is stuck if and only if no operation can be read from it, its job is not that memory's, or recovery refuses what is on disk |
| Reconciliation.EveryJobIsDealtWith | agency/jobs/reconciliation.py:109-151 | a dead worker's job that no stuck or troubled journal names is over afterwards; a job whose worker is or may be alive, or that a stuck journal names, is left as recovery left it |
| CrashAndReconcile.OwnJournalBars | agency/memory/recovery.py:195-216 | a job under whose id no other journal lies, and which no unusable one claims, is barred, unless there was trouble with it, if and only if its own journal cannot be settled |
| CrashAndReconcile.RunCrashReconcile | agency/jobs/reconciliation.py:65-166 | the worker's method, a crash in any durable state it went through, then the reconciler's method over a store with anything else in it: job and memory agree as the exact condition says, or the job is failed over the memory as found or blank; unless its own journal meets trouble the job is barred exactly when that cannot be settled, and then its slot is as the crash left it |
| JobLifecycle.JobFile.WriteJob | agency/jobs/store.py:126-130 | a record whose digest does not fit its spec is refused |
| JobLifecycle.JobFile.TransitionJob | agency/jobs/store.py:166-184 | only from the expected status, only along the table |
| JobLifecycle.JobFile.CancelJob | agency/jobs/store.py:187-196 | only queued and waiting jobs |
| JobLifecycle.TransitionsDescend | agency/jobs/store.py:26-33 | every move lowers the rank and starts from no final status |
| JobLifecycle.TableExactly | agency/jobs/store.py:26-33 | the table allows every move down the ranks but two: queued to complete, and running to cancelled |
| JobLifecycle.TerminalExactly | agency/jobs/store.py:26-33 | a status has no moves if and only if it is complete, failed or cancelled |
| JobLifecycle.StepKeepsInv | agency/jobs/execution.py:308-554 | every action of every process, locked reads and writes being separate steps and metadata writes unlocked, keeps the invariant that the record follows the table, unless an unlocked launch failure or a locked write over one breaks it there and then |
| JobLifecycle.ExecutionIsExclusive | agency/jobs/execution.py:308-554 | in every interleaving, launch failures between a locked read and its write and deaths under the lock included: the integration runs at most once and never for a cancelled job, a job that ran is running, complete or failed, spec and digest constant |
| JobLifecycle.OnTableExactly | agency/jobs/store.py:166-196 | the record follows the transition table throughout a run if and only if no launch failure meets a cancelled or complete job, or falls between the read and the write of a locked transition to anything but failed |
| JobLifecycle.OnTableWhenSettled | agency/jobs/submission.py:80-99 | when every locked transition that was read is written, the condition is about the moments of the launch failures alone |
| JobLifecycle.SafetyOverRuns | agency/jobs/execution.py:308-554 | in the runs that keep to the table: at most three moves, a cancelled job is still cancelled, from a terminal status on nothing moves |
| JobLifecycle.CancelExcludesRun | agency/jobs/store.py:187-196 | in every interleaving, from any moment on: a cancelled job never runs later, and a job that ran is never cancelled later |
| JobLifecycle.NoJobIsLeftBehind | agency/jobs/execution.py:308-560 | in every interleaving in which nobody dies under the job lock: a waiting or running job has a worker that is not done with it, so no exit of `execute_job` leaves a job behind |
| JobLifecycle.LaunchFailureExactly | agency/jobs/submission.py:80-99 | one launch failure, and the write of what was being written then, keep to the table if and only if the job is neither cancelled nor complete and nothing but failed was about to be written |
| JobLifecycle.JobSucceeds | agency/jobs/execution.py:308-502 | an undisturbed worker gets through: queued, waiting, running, complete, one call of the integration, the lock released, the metadata of the run in the record |
| JobLifecycle.JobFails | agency/jobs/execution.py:554-560 | and ends failed when its run raises |
| JobLifecycle.PublicationFails | agency/jobs/execution.py:503-526 | a publication that fails and marks the job: failed, with the metadata of the run |
| JobLifecycle.FoundComplete | agency/memory/publication.py:553-556 | a mark refused because recovery was faster, over a complete job: as good as marked |
| JobLifecycle.FoundFailed | agency/memory/publication.py:553-556 | over a failed job: left failed |
| JobLifecycle.DeadJobIsSwept | agency/jobs/reconciliation.py:136-151 | the job of a worker that died in its run is failed by the reconciler |
| JobLifecycle.DeadJobIsRecovered | agency/memory/recovery.py:502-514 | or completed by recovery, when its publication is on disk |
| JobLifecycle.WaitingJobIsCancelled | agency/jobs/execution.py:334-346 | a cancelled job's worker leaves without running it |
| JobLifecycle.CancelledThenLaunchFailed | agency/jobs/submission.py:80-99 | the run in which a cancelled job becomes failed |
| JobLifecycle.LaunchFailedThenCancelled | agency/jobs/store.py:187-196 | the run in which a failed job becomes cancelled |
| JobLifecycle.LaunchFailedThenClaimed | agency/jobs/store.py:166-184 | the run in which a failed job is claimed by its worker and goes on |
| NoLostUpdate.NoUpdateIsLost | agency/memory/store.py:197-220 | from any start, in every interleaving among contents with distinct revisions, crashes and failed rollbacks included, the changes form a chain, and each replaced the very content its edit started from, provided no writer fails without a lease |
| NoLostUpdate.OnlyCommitsChange | agency/memory/store.py:203-212 | refused and failed operations leave the settled content as it was |
| NoLostUpdate.LeaseNeverConflicts | agency/jobs/execution.py:338-351 | a writer that kept the lock since staging meets neither conflict |
| NoLostUpdate.Overtake | agency/memory/publication.py:96-200 | from any reached state with a free lock, an update of another writer goes through undisturbed: based, prepared, compared, committed over exactly the content it found, lock free again |
| NoLostUpdate.SharedRevisionLosesAnUpdate | agency/memory/publication.py:347-356 | any two contents with one revision lead to a lost update, whatever the late edit holds |
| NoLostUpdate.RollbackWithoutLeaseLosesAnUpdate | agency/memory/publication.py:394-410 | any two contents lead to a lost update when a writer without a lease fails: it rolls back over what another has committed since |
| NoLostUpdate.SafeExactly | agency/memory/publication.py:347-410 | for any set of contents: no run among them loses an update if and only if they have distinct revisions and, when writers may fail without a lease, there are no two of them |
| NoLostUpdate.NulFreeContentsAreSafe | agency/memory/store.py:93-101 | among contents without NULs no update is lost |
| NoLostUpdate.NulLosesAnUpdate | agency/memory/store.py:96-100 | among all readable contents an update can be lost, because payloads may hold NULs |
| Locks.Caller.Acquire | agency/fs/locks.py:62-86 | the loop ends as specified, holding both locks, the local one only on a foreign exception, or none |
| Locks.Caller.ExclusiveLock | agency/fs/locks.py:45-96 | the body runs with both locks held; after every exit neither is held |
| Locks.EntersExactlyWhenGranted | agency/fs/locks.py:62-86 | a caller enters if and only if some round grants both locks and no earlier round ended the loop |
| Locks.EntersInTime | agency/fs/locks.py:57-86 | the same in terms of `wait`, `start` and `timeout`: rounds before the deadline go on |
| Locks.EndsAsSeen | agency/fs/locks.py:62-86 | a caller that does not enter is told why by the first round that does not go on |
| Locks.TimeoutEndsPolling | agency/fs/locks.py:57-86 | with a timeout the loop ends within the rounds that fit before the deadline |
| Locks.NoWaitAsksOnce | agency/fs/locks.py:65-81 | without waiting the first round decides |
| Locks.MutualExclusion | agency/fs/locks.py:45-96 | at most one caller inside, over all threads of all processes, in every reachable state |
| Locks.NothingIsLeaked | agency/fs/locks.py:88-96 | who is out holds nothing, and a free lock can be taken |
| Locks.EveryoneGetsOut | agency/fs/locks.py:88-96 | from every reachable state each caller can get out by its own steps, whether the unlocking works or not; it then holds nothing, and the others are as before |
| LockOrder.CanonicalOrder | agency/jobs/store.py:48-55 | the names given, each once, strictly sorted |
| LockOrder.EveryOperationRuns | agency/instances.py:219-304 | every operation takes locks in one order, asks for none it holds, and ends with none |
| LockOrder.SomeoneCanStep | agency/jobs/store.py:58-67 | among processes that keep the order some process can always go on |
| LockOrder.EveryRunCanFinish | agency/jobs/store.py:58-67 | from every reachable state all processes can be brought to their end |
| LockOrder.NoDeadlock | agency/memory/recovery.py:70-81 | any number of moves, executions, recoveries, submissions and saves, interleaved anyhow, never deadlock, and no run is longer than their programs |
| InstanceMove.Raw.ApplyMovePatch | agency/instances.py:620-643 | the two loops compute `Transferred`, or refuse and change nothing |
| InstanceMove.TransferConserves | agency/instances.py:620-643 | the agents of the two groups are conserved as a multiset, names stay unique, other groups stay as they are |
| InstanceMove.OwnedPairsAreSeparate | agency/instances.py:500-535 | new memory names are all different and none is an old one |
| InstanceMove.PairsTakeAlong | agency/instances.py:500-535 | every memory the agent owns is among the pairs that are copied |
| InstanceMove.OwnedMemoriesResolve | agency/instances.py:538-557 | every memory an agent of a valid config owns can be resolved, under the old group and the new |
| InstanceMove.OwnedSpecsExactly | agency/instances.py:538-557 | the memories an agent owns are its default of agent scope, and those of agent or routine scope that its routines use: their own, else the default, else none |
| InstanceMove.Agency.Patch | agency/configuration/store.py:126-147 | compare and swap against whatever is on disk by then |
| InstanceMove.Agency.CreateTargets | agency/instances.py:287-304 | every destination is made; nothing else changes, however it fails |
| InstanceMove.Agency.Undo | agency/instances.py:315-327 | every created destination is gone unless its deletion failed |
| InstanceMove.Agency.SourcesAsPreviewed | agency/instances.py:269-277 | whether all sources can be read, and whether they are as the preview saw them |
| InstanceMove.Agency.MoveInstance | agency/instances.py:208-328 | which answer is given, as a chain of conditions on the preview, the config, the jobs and the memories at the first look and under the locks; done means the config moved and, for every memory the agent owns, what it resolves to under the new group is the copy, or blank, and the old one is untouched; a failure leaves every locked memory as it was, or exactly the undeletable destinations; the one exception is an error after the config was replaced |
| Selectors.ParseEncode | agency/memory/selectors.py:24-36 | parsing undoes printing for all strings, escapes included |
| Selectors.EscapeExactly | agency/memory/selectors.py:24-36 | how each character is printed |
| Selectors.UnescapeCode | agency/memory/selectors.py:24-36 | which four-digit escapes are read, and as which character |
| Selectors.SameMemoryExactly | agency/memory/selectors.py:80-124 | two selectors name one memory if and only if they have one scope and agree on its fields |
| Selectors.CanonicalText | agency/memory/selectors.py:80-124 | the text that names a memory, written out for each scope |
| Selectors.RoundTrip | agency/memory/selectors.py:16-59 | reading back a resolved memory gives the same memory |
| Selectors.AcceptedExactly | agency/memory/selectors.py:16-59 | which stored texts are accepted, as an if and only if |
| Selectors.ResolvableExactly | agency/memory/selectors.py:16-124 | which accepted texts some context resolves to, as an if and only if |
| Selectors.IntegerTextExactly | agency/memory/selectors.py:30-38 | the integers of a canonical text: zero, or a sign at most before digits that do not begin with zero |
| Selectors.TrueIsAcceptedAsVersion | agency/memory/selectors.py:37-38 | an accepted text nothing resolves to |
| JournalIdentity.OperationFromPayload | agency/memory/recovery.py:239-357 | a payload is accepted exactly when it fits the closed schema, a safe id, its path and its one owner, and decodes to the operation it describes |
| JournalIdentity.WellFormedExactly | agency/memory/publication.py:507-530 | a payload fits the schema if and only if it is what the publication writes for some operation with a safe id, up to ids that are no texts |
| JournalIdentity.UnsafeExactly | agency/memory/store.py:486-511 | which ids are refused |
| JournalIdentity.OwnerOf | agency/memory/recovery.py:181-192 | exactly one configured group owns the job |
| JournalIdentity.DirectSaveIsAccepted | agency/memory/publication.py:507-530 | what a direct save writes, recovery accepts and decodes to the same operation |
| JournalIdentity.JobIsAccepted | agency/memory/publication.py:507-530 | what a job writes, recovery accepts as long as its record is the only one and unchanged |
| JournalIdentity.JobAcceptedExactly | agency/memory/recovery.py:239-409 | recovery accepts a job journal if and only if it is one the publication writes for an operation of that path, whose record is the only one of its id, in its own group, and names the memory the job resolves to |
| JournalIdentity.AcceptedNamesItsOwnMemory | agency/memory/recovery.py:360-409 | whatever a job journal holds, recovery can only work on the memory its own job resolves to |
| JournalIdentity.AcceptedDirectNamesItsText | agency/memory/recovery.py:412-421 | an accepted direct save works on the memory its canonical text names |
| SourceDigest.ComputeSourceDigest | agency/fs/snapshot.py:182-190 | the loop feeds the hash exactly the length-prefixed records in path order; a length of nine bytes raises |
| SourceDigest.DigestDecodes | agency/fs/snapshot.py:182-190 | a decoder gets the files back |
| SourceDigest.DigestIdentifiesTree | agency/fs/snapshot.py:182-190 | equal digests if and only if the same files, in whatever order they are listed |
| SourceDigest.OrderMattersForOnePath | agency/fs/snapshot.py:184 | with two files at one path the order shows |
| SourceDigest.CaptureTree | agency/fs/snapshot.py:193-212 | the first attempt whose scans do not differ decides: the tree is returned if they agree, the error if one raised; unstable exactly when all attempts differ |
| Projection.TargetsExactly | agency/blueprints/projectors.py:42-51 | which source files agents get and where: the top `AGENTS.md` as the instruction file, everything under `.agents/skills` under the skills directory by its path from there |
| Projection.MappedPaths | agency/blueprints/projectors.py:42-51 | the loop computes `Mapped` |
| Projection.MappedExactly | agency/blueprints/projectors.py:42-51 | every relevant file is mapped to its target unchanged, and nothing else is |
| Projection.MappedIsTreeLike | agency/blueprints/projectors.py:42-58 | a source that was a directory tree maps to one, so it can be written |
| Projection.Runtime.Project | agency/blueprints/projectors.py:53-58 | the files written are exactly the mapped ones; without faults it succeeds for every tree |
| Projection.Runtime.ValidateOutput | agency/blueprints/projectors.py:60-107 | no issue if and only if the output complies; every issue is justified |
| Projection.CompliesExactly | agency/blueprints/projectors.py:60-107 | complying means that what agents read is the mapped source, no more and no less |
| CompilationCache.Cache.ValidateArtifact | agency/blueprints/cache.py:181-220 | an entry is accepted if and only if it is valid |
| CompilationCache.Cache.EnsureCompiled | agency/blueprints/cache.py:253-304 | from any prior entry, and whatever others leave there before the lock is taken: a valid one is returned and nothing changes; an invalid one goes to quarantine, unless that fails, and what is returned is valid and in place; other entries untouched, and without faults it succeeds |
| CompilationCache.ServedIsTheSource | agency/blueprints/cache.py:181-220 | what a valid entry shows agents is exactly the instruction file and the skills of the source |
| CompilationCache.StrayFileIsAccepted | agency/blueprints/cache.py:203-219 | a file beside the two targets does not make an entry invalid |
| Dispatch.DueExactly | agency/dispatch/run.py:18-51 | when a routine is due, over the submissions whose markers are there: from its minute on for the window unless the day has a marker, or when no marker is younger than the interval |
| Dispatch.OrderExactly | agency/dispatch/run.py:88-105 | a cycle's order holds exactly the enabled routines without a condition |
| Dispatch.UnhinderedReachesAll | agency/dispatch/run.py:88-146 | a cycle nothing hinders takes a turn of each of them and submits those that are due |
| Dispatch.Group.RunRoutine | agency/dispatch/run.py:107-146 | one routine, its clock read anew: submitted exactly when due by the markers on disk, its marker written for the day the cycle began, unless the submission is refused or ends the cycle, or the cycle dies before the marker |
| Dispatch.Group.RunCycle | agency/dispatch/run.py:77-146 | the turns taken are proper ones in the order of the config, and all of them unless a limit was found reached or an exception or death ended the cycle |
| Dispatch.MarkersHoldBack | agency/dispatch/run.py:111-146 | a second daily submission of one day and marker needs a lost marker, a check on a later day than its cycle's start, or a check that had not seen the first; interval submissions that saw each other are the interval apart |
| Dispatch.RivalSuppresses | agency/dispatch/run.py:115-117 | however the turns of any number of cycles interleave: a routine that got the shared marker first keeps the other from running that day, unless its check had not seen it |
| Dispatch.InterleavedIsChecked | agency/dispatch/run.py:113-146 | every submission of interleaved cycles was due by the markers its own check had seen |
| Dispatch.RunIsInterleaved | agency/dispatch/run.py:63-146 | the log of cycles one after the other is one of interleaved turns |
| Dispatch.RunsExactlyOnce | agency/dispatch/run.py:18-31 | in every run without trouble that reaches the routine often enough: exactly one submission on the day, if the window ends by midnight |
| DispatchGuarantee.GuaranteedExactly | agency/dispatch/run.py:18-31 | all such runs submit exactly once if and only if nothing of the four troubles is left open and the window ends by midnight |
| DispatchGuarantee.LateCheckRunsTwice | agency/dispatch/run.py:78-121 | for every time and interval a run with two submissions on one day: a cycle that began the day before reaches the routine after midnight |
| DispatchGuarantee.DeathRunsTwice | agency/dispatch/run.py:138-146 | the same for a cycle that dies between submission and marker |
| DispatchGuarantee.OverlapRunsTwice | agency/dispatch/run.py:113-146 | the same for two cycles that overlap |
| DispatchGuarantee.LateTargetIsMissed | agency/dispatch/run.py:20-31 | for every time whose window passes midnight a run that reaches the routine often enough and never submits it |
| DispatchGuarantee.RivalTakesTheRun | agency/dispatch/run.py:95-117 | a config in which another routine with the same marker takes the day's run |
| Markers.SlugExactly | agency/configuration/models.py:17-17 | an identifier is one or more words of lower-case letters and digits, joined by single hyphens |
| Markers.MarkerSafeIsCore | agency/dispatch/run.py:54-55 | on the identifiers a config accepts the marker function only drops a final newline |
| Markers.MarkersCollideExactly | agency/dispatch/run.py:95-96 | for all identifiers: one marker if and only if one routine, or the longer agent name is the shorter one with a tail the other routine's id begins with |

## Left out

- SHA-256: identified with its pre-image throughout; the shape of a memory hash is therefore not checked in the journal model.
- Symlinks, reparse points, fsync (but for one that fails after the config was replaced), Windows retry loops and reserved-name rules outside memory file names and job ids: plain files and atomic renames are assumed.
- Unicode normalisation and case folding of file names: `MemoryFiles.Readable` folds ASCII only.
- A crash inside one atomic write, which may leave a temporary dot-file: the write is one effect.
- Temporary directories under `.backups` that a crash leaves behind: nothing in the source removes them, and no property is claimed of them.
- Metadata of job records (timestamps, logs, summaries, changed files): one opaque value in `JobLifecycle`, absent elsewhere.
- `integration.run`: an arbitrary result after arbitrary edits of the stage; `worker_alive` is an arbitrary answer.
- Reconciliation.EndToEnd: assumes a dead worker and no other writer of the memory before recovery, because the agreement fails without these.
- Selectors.AcceptedExactly: covers objects whose values are strings, integers, true, false and null; fractions, exponents, nested arrays and nested objects as values are not modelled, nor are lone surrogates.
- JournalIdentity.OperationFromPayload: Unicode normal form and case folding of an id are an arbitrary predicate; a mapping as an id, which the source would turn into its printed form, is refused; directory shape checks of stage and backup are not modelled.
- InstanceMove.Agency.MoveInstance: the order of the memory pairs (by hash), and which exception an error carries.
- LockOrder: operations handed to `try_locked` by a caller, and locks taken inside an integration's own process.
- Locks: a lock file that is deleted or replaced while it is in use.
- YAML parsing, config validation and path disjointness: configs are taken as parsed and valid, of which unique agent names, the shape of memory selectors and the form of identifiers are used.
- Dispatch.Group.RunCycle: the method runs one cycle of the group at a time; overlapping cycles are covered by `Dispatch.Interleaved`. Local time does not jump or run backwards, as it does when summer time ends; texts of times and intervals are taken as parsed; the daily limit is an arbitrary answer, because it counts files that workers write later.
- CompilationCache: pins, and entry paths that are not regular files or directories.
- Web routes, templates, launchers, timers, decision projection, diffs and logs: they decide nothing modelled here.
