# What this project models

This is a model, in Dafny 4.11, of the parts of the knowledge base application that have to be right whatever
happens in between: crashes, concurrent processes, stale computations, misleading libraries. The command
`dafny verify dfyconfig.toml` checks all of it. Nothing here runs the application.

| File | Part of the application |
|---|---|
| `BundleProtocol.dfy`, `BundleTransaction.dfy` | replacing the installed bundle by journaled renames, and undoing it after any crash |
| `UpdateSupervisor.dfy`, `UpdateAcceptance.dfy`, `AcceptanceWait.dfy`, `UpdateSupervision.dfy` | the start-up gate, which updates can still be accepted, the wait for the new version's report, and a whole supervised update |
| `ActionGovernance.dfy`, `CapabilitySignature.dfy` | which requests are allowed, and signed capabilities for single use |
| `ReceiptLedger.dfy`, `ReceiptRuns.dfy`, `ReceiptStore.dfy` | receipts of external actions, shared by any number of gates |
| `PendingReceipts.dfy`, `GateRuns.dfy`, `GateTurns.dfy` | receipts that are never settled; the gate's methods, whole or step by step, as runs of the interleaving model |
| `CadenceCache.dfy` | the plan cache guarded by a revision and a generation |
| `PackageInventory.dfy`, `PackageExtraction.dfy` | checking an update archive byte by byte and unpacking it |
| `Ulid.dfy`, `Autostart.dfy` | identifiers that sort by time; registrations at login and reading them back |
| `HashFraming.dfy`, `Listing.dfy`, `ArtifactStamp.dfy`, `BundleInventory.dfy` | what the input of a hash determines |
| `ConfigRetirement.dfy`, `Quiescence.dfy` | taking one registration out of a foreign configuration file, with a backup; stopping the processes that use the data |
| `ByteStrings.dfy`, `Text.dfy`, `Ordered.dfy`, `Sequences.dfy`, `Wrappers.dfy` | bytes as numbers, text order and search, sorting by insertion, slices, `Option` and `Result` |

How the parts are modelled:

- **Disk and crashes.** A disk is a class. Every save and every rename goes through a hazard that may report an error
  or end the process, before or after the write took effect; a budget counts how many hazards are still to come. A
  ghost history records every durable state, and the protocol lemmas speak about all such histories.
- **Concurrency.** Gates, writers and processes are state machines whose steps interleave freely: one step is one
  serialised transaction, one read or one call to the outside. Lemmas are about all event sequences. The classes
  beside them perform the same transactions in the source's own form and are proved equal to the steps; what gates
  and a supervised update do is proved to be a run of their state machine (`TakingTurns`, `GatesAtWork`,
  `SuperviseInSystem`).
- **Answers.** What a branch or a table decides is stated a second time on the fields, bits and constants themselves,
  without the definition that computes it: see the lemmas named `...SpelledOut` and `...Iff...`, and the `ensures`
  clauses of the methods.
- **Parameters.** SHA-256, JSON, case folding, the tar iterator, clocks, nonces, the surroundings of an update and the
  answers of adapters are parameters. Nothing is assumed of a hash beyond the length of its result, unless a
  lemma says which two values it must tell apart.

Results that correct a first reading of the code:

- Every finished update retains a bundle, and one interruption while it is being removed leaves a layout under which no
  later attempt starts over (`FinishedUpdateRetainsABundle`, `CutClearingIsStuck`, `Create`). A clearing that was
  interrupted can be retried exactly if no retained bundle was touched yet
  (`InterruptedClearingIsRetriableIffNothingWasLost`).
- An update that is open and not being restored can still be beyond acceptance. `AcceptedSomeDayIffNothingIsInTheWay`
  gives the exact condition; what rules acceptance out is a torn or foreign record of the child, a supervisor that is
  gone after the first write, a child that is gone while its supervisor waits, or a supervisor that was lost earlier and
  left its own record torn, or whole with process numbers that no later one has. Every update has runs that end so
  (`RecordCanBeTorn`, `ChildCanBeLost`, `SupervisorCanBeLostEarly`).
- A receipt that was reconciled as Failed after its start may still be executed, by a runner that was alive all the
  time; it can happen exactly while a permit is out (`SettledReceiptRunsLaterIffAPermitIsOut`).
- A success that is observed only after its compensation deadline is not recorded (`Gate.Reconcile`). A started receipt
  that is observed only so stays pending for good exactly if no live gate holds its permit or an outcome that can still
  be recorded (`PendingForEverIffInNoGoodHands`); a lost runner leaves such a receipt (`AbandonmentLeavesItPending`),
  and an observation in time would still settle it (`OnlyTheLateObservationFails`).
- A path with whitespace at either end does not come back from the property list, and one with a double quote or a line
  feed not from the desktop entry; such a registration is rewritten at every start and never shown as on
  (`RegistrationReadsBack`, `RewrittenAtEveryStartIffPathCannotBeHeld`, `StartEnables`).
- A backup of the configuration that was torn by a crash stops every later run until somebody removes it
  (`CompletesIffBackupIsNotTorn`, `BackupCanBeTorn`).

## Model

| member | source | states |
|---|---|---|
| `BundleProtocol.RecognisedIffInCustody` | crates/kb-core/src/app_update_transaction.rs:464-527 | The layout has a shape exactly if the old bundle is in one of target and previous, the new one in one of staged, target and failed, target holds only one of them, and no slot holds anything else |
| `BundleProtocol.ShapesSpelledOut` | crates/kb-core/src/app_update_transaction.rs:464-527 | For each of the six shapes, exactly which layouts with which phase and intent have it |
| `BundleProtocol.StepKeepsAcceptance` | crates/kb-core/src/app_update_transaction.rs:426-456 | Every single write of a replacement, a restoration or an acceptance leads from an accepted state to an accepted state of the same update |
| `BundleProtocol.EveryCrashIsRecognised` | crates/kb-core/src/app_update_transaction.rs:464-527 | Every state in any history of writes, however often it was cut off and resumed, is accepted by the shape check and keeps both bundles |
| `BundleProtocol.EveryRecognisedStateCanHappen` | crates/kb-core/src/app_update_transaction.rs:464-527 | Every accepted state is left by some history of writes from a prepared update, so nothing is accepted needlessly |
| `BundleProtocol.AcceptsExactlyWhatCrashesLeave` | crates/kb-core/src/app_update_transaction.rs:464-527 | The shape check accepts a state if and only if some history of crashes can leave it |
| `BundleProtocol.RenamesAreAnnouncedAndNeverOverwrite` | crates/kb-core/src/app_update_transaction.rs:289-378 | A write that moves a bundle was announced by a journaled intent, moves just that bundle, and finds its destination empty |
| `BundleProtocol.RollbackWriteIsProgress` | crates/kb-core/src/app_update_transaction.rs:344-378 | In every open state the next write of a restoration exists exactly while work is left, lowers the work left by one, and with none left the old bundle is at the target and the phase is RolledBack |
| `BundleProtocol.RollbackWriteIsToward` | crates/kb-core/src/app_update_transaction.rs:344-378 | A write of a restoration stays on the way to the one end fixed by its starting state, and phase RolledBack is reached only there |
| `BundleProtocol.EveryOpenCrashCanBeRestored` | crates/kb-core/src/app_update_transaction.rs:344-378 | From every state of every history that is not Accepted, restoring ends with the original source at the target and the original journal marked RolledBack |
| `BundleProtocol.BegunRestorationNeverMovesBack` | crates/kb-core/src/app_update_transaction.rs:344-378 | Once a restoration has begun, later states of the history never have more restoring left, whoever interrupts and resumes, and never become Accepted |
| `BundleProtocol.AcceptedIsFinal` | crates/kb-core/src/app_update_transaction.rs:325-378 | After Accepted no operation of the update writes anything more |
| `BundleProtocol.InterruptedClearingIsRetriableIffNothingWasLost` | crates/kb-core/src/app_update_transaction.rs:381-407 | Whatever a clearing leaves when it stops before the journal is gone, the next attempt accepts it if and only if no retained bundle had been touched |
| `BundleProtocol.FinishedUpdateRetainsABundle` | crates/kb-core/src/app_update_transaction.rs:381-407 | There is always something to be cut at: an accepted update retains the source in previous, a restored one the candidate in failed or staged |
| `BundleProtocol.CutClearingIsStuck` | crates/kb-core/src/app_update_transaction.rs:381-407 | Cutting the removal of any retained bundle of any finished update, whether the bundle is gone or damaged, leaves a layout that is not accepted any more, with the journal still there |
| `BundleProtocol.ValidJournalSpelledOut` | crates/kb-core/src/app_update_transaction.rs:85-100 | A journal is valid exactly if it is of format 1 and of the compiled metadata, its nonce and the six hashes of its two bundles are 64 lower-case hexadecimal digits, and the bundles differ |
| `BundleProtocol.RestoredBundles` | crates/kb-core/src/app_update_transaction.rs:344-378 | After a restoration the source is installed, nothing is in the slot of the old bundle, and the candidate is in exactly one of the two others |
| `BundleTransaction.Disk.Save` | crates/kb-core/src/app_update_transaction.rs:433-456 | The new journal takes effect wholly or not at all, whether or not the call reports an error, and what is durable stays a step of the protocol |
| `BundleTransaction.Disk.Rename` | crates/kb-core/src/app_update_transaction.rs:302-311 | A rename takes effect wholly or not at all, and only onto an empty slot |
| `BundleTransaction.Transaction.Resume` | crates/kb-core/src/app_update_transaction.rs:182-197 | A handle is given out exactly if the directory is known, the journal is valid and the layout is accepted; its journal is the one on disk |
| `BundleTransaction.Transaction.Reload` | crates/kb-core/src/app_update_transaction.rs:418-424 | The handle takes over the journal on disk exactly if it is readable and is otherwise unchanged |
| `BundleTransaction.Transaction.Transition` | crates/kb-core/src/app_update_transaction.rs:426-431 | The handle follows the disk only if saving reported success |
| `BundleTransaction.Transaction.Prepare` | crates/kb-core/src/app_update_transaction.rs:216-248 | Prepares exactly when the verified source is installed, the candidate staged and nothing else is there; the first journal is that of format 1, not begun, with just these two bundles and the compiled metadata; an error leaves the handle without one |
| `BundleTransaction.Transaction.AbortPreparation` | crates/kb-core/src/app_update_transaction.rs:252-282 | Takes away what was staged exactly while nothing was journaled or moved and none of the four records is there; never touches the installed bundle |
| `BundleTransaction.Transaction.HoldCandidate` | crates/kb-core/src/app_update_transaction.rs:355-361 | Moves a placed candidate aside by the announced rename |
| `BundleTransaction.Transaction.PutOldBack` | crates/kb-core/src/app_update_transaction.rs:363-376 | Brings the old bundle back by the announced rename and ends where every restoration from the start ends |
| `BundleTransaction.Transaction.Rollback` | crates/kb-core/src/app_update_transaction.rs:344-378 | Whatever the handle remembers: from every restorable disk it ends with the source installed, the candidate where it was staged or put aside, and the journal marked RolledBack, or after a fault on the way there; a disk it cannot judge stays untouched |
| `BundleTransaction.Transaction.Place` | crates/kb-core/src/app_update_transaction.rs:299-312 | The forward half of a replacement ends with the candidate at the target and the source retained |
| `BundleTransaction.Transaction.Replace` | crates/kb-core/src/app_update_transaction.rs:285-322 | Succeeds whenever nothing fails, with the candidate installed, the source retained and nothing else; a failed replacement is restored already if there was one fault only, and restorable in any case |
| `BundleTransaction.Transaction.Accept` | crates/kb-core/src/app_update_transaction.rs:325-341 | Accepts only an installed candidate with the source retained and a receipt of the journal's nonce and that candidate; then only the phase changes; an error after the save may hide that it took effect |
| `BundleTransaction.Transaction.DropRetained` | crates/kb-core/src/app_update_transaction.rs:390-394 | Removes the three retained bundles and never the installed one; a removal cut off at any of them stops there and leaves what was cut, so the remains named beforehand are the ones found |
| `BundleTransaction.Transaction.ClearFinished` | crates/kb-core/src/app_update_transaction.rs:381-407 | Clears exactly finished updates; the installed bundle stays at every point, the four records go and the journal goes last; one cut at a retained bundle leaves the cut layout under the old journal |
| `BundleTransaction.Create` | crates/kb-core/src/app_update_transaction.rs:130-179 | Starts over exactly from a directory that holds nothing or from an accepted or restored update, and then none of the four records is left; an unfinished update stays as it is; after one cut at a retained bundle no later call, under any nonce, can start over |
| `BundleTransaction.RecoverAcrossRestarts` | crates/kb-core/src/app_update_transaction.rs:344-378 | Restarting the restoration after every crash, with a new handle each time, ends in the restored state |
| `BundleTransaction.AnyRun` | crates/kb-core/src/app_update_transaction.rs:289-424 | Any sequence of replace, accept, rollback and reload by any handles, with any faults, keeps the disk accepted, both bundles in custody, the update the same, and Accepted final |
| `UpdateSupervisor.EventKeepsEvidence` | app/src-tauri/src/app_update_supervisor.rs:576-604 | No event invents a receipt: what the second record says of an update came from a process that passed the gate for it and wrote its first record before; a file torn by a crash says nothing |
| `UpdateSupervisor.EventKeepsSettled` | app/src-tauri/src/app_update_supervisor.rs:356-427 | Every event leaves a journal whose phase is backed by what happened |
| `UpdateSupervisor.RunKeepsInvariant` | app/src-tauri/src/app_update_supervisor.rs:295-427 | Over every run of preparing, supervising, starting, reporting, crashing and clearing, the invariant holds: the lock holder's state, the records and the journal fit together |
| `UpdateSupervisor.AcceptedMeansStartedAndReported` | app/src-tauri/src/app_update_supervisor.rs:348-427 | In every run, Accepted implies that a boot child of this very nonce passed the gate and later reported ready with the accepted identity |
| `UpdateAcceptance.AcceptedSomeDayIffNothingIsInTheWay` | app/src-tauri/src/app_update_supervisor.rs:295-471 | From every reachable state with an open update some continuation accepts it if and only if no restoration has begun, each of the child's records is absent or the update's own, and either the supervisor is on its way (not begun to write, in its replacement, waiting with its child alive or found alive by the current poll, or convinced) or nothing was written of the replacement and a supervisor may come that finds supervisor.ready absent or holding its own process numbers |
| `UpdateAcceptance.LostSupervisorMeansNeverAccepted` | app/src-tauri/src/app_update_supervisor.rs:356-427 | An open update whose supervisor is gone or has given up after the first write of its replacement is never accepted, because only a supervisor accepts and none takes over an update that was begun |
| `UpdateAcceptance.LostChildMeansNeverAccepted` | app/src-tauri/src/app_update_supervisor.rs:437-471 | An open update whose supervisor has to look for its child again, and the child is gone, is never accepted, whoever else reports |
| `UpdateAcceptance.TornReadyMeansNeverAccepted` | app/src-tauri/src/app_update_supervisor.rs:356-370 | An open update without a supervisor, whose supervisor.ready is torn, is never accepted |
| `UpdateAcceptance.OnlyTheSameNumbersGoOn` | app/src-tauri/src/app_update_supervisor.rs:356-370 | An open update without a supervisor, whose supervisor.ready is whole, is accepted only if a supervisor with the very same process numbers comes |
| `UpdateAcceptance.SpoiltRecordMeansNeverAccepted` | app/src-tauri/src/app_update_supervisor.rs:576-621 | An open update of which a record of the child is torn, or holds another update's receipt, is never accepted: a record file is created once only |
| `UpdateAcceptance.RecordCanBeTorn` | app/src-tauri/src/app_update_supervisor.rs:576-604 | Every update has a run in which its candidate is placed, its own child is alive under a waiting supervisor, the first record is whole, and the second was torn by another boot process that was lost |
| `UpdateAcceptance.SupervisorCanBeLostEarly` | app/src-tauri/src/app_update_supervisor.rs:356-370 | Every update has a run in which its supervisor is lost with its record, whole or torn, before anything was written of the replacement |
| `UpdateAcceptance.ChildCanBeLost` | app/src-tauri/src/app_update_supervisor.rs:395-471 | Every update has a run in which the child is lost after its first record was written whole, while the supervisor waits for it |
| `UpdateSupervisor.OnlySettledBundlesRun` | app/src-tauri/src/app_update_supervisor.rs:295-346 | In every reachable situation with a journal: a start goes on normally only with the accepted candidate or the restored source installed; as a boot child only with the candidate installed and the source retained; it restores only while the update is open |
| `UpdateSupervisor.WithoutUpdateGoesOn` | app/src-tauri/src/app_update_supervisor.rs:295-302 | With no journal a start goes on if and only if the update directory holds nothing and the argument --app-update-boot is absent, and is refused otherwise |
| `UpdateSupervisor.FinishedUpdateGoesOn` | app/src-tauri/src/app_update_supervisor.rs:303-306 | With an accepted or restored update a start goes on if and only if the argument --app-update-boot is absent, whatever other arguments there are, and is refused otherwise |
| `UpdateSupervisor.OpenUpdateLetsOnlyItsChildGoOn` | app/src-tauri/src/app_update_supervisor.rs:307-346 | With an open update a start goes on if and only if its arguments are --app-update-boot and the journal's nonce, the journal says placed with no intent, the candidate is installed and it is vouched for; it restores first if and only if it has no arguments; it is refused in all other cases |
| `UpdateSupervisor.FinishedMakesRoom` | app/src-tauri/src/app_update_supervisor.rs:295-306 | From every state with a finished update some continuation takes it away with its records and prepares any other under a new nonce |
| `UpdateSupervisor.RecordsAreCreatedOnce` | app/src-tauri/src/app_update_supervisor.rs:576-604 | The writer of a record goes on exactly if it returns and the file was absent or held just this content; a file that is there never changes; a lost writer leaves a new file torn or whole |
| `UpdateSupervisor.HistoryIsWrites` | app/src-tauri/src/app_update_supervisor.rs:356-427 | A stretch of a disk's history without an acceptance is a run of writes of a supervisor in its replacement that changes nothing but the disk |
| `AcceptanceWait.StretchIsUnbrokenAndMaximal` | app/src-tauri/src/app_update_supervisor.rs:437-471 | The stretch over which stability is measured is unbroken and cannot be longer |
| `AcceptanceWait.WaitForAcceptance` | app/src-tauri/src/app_update_supervisor.rs:437-471 | Returns the receipt at the first poll at which both records matched for the stable period, with every earlier poll alive and in time; returns it if and only if there is such a poll; and ends because the clock advances |
| `UpdateSupervision.Supervise` | app/src-tauri/src/app_update_supervisor.rs:356-427 | With no fault of the disk the update is accepted exactly if the supervisor's own record can be written, the application leaves, the versions fit, the candidate starts and both records are stable in time; otherwise it is restored exactly if the supervisor gets that far, and the old application started again exactly if the failure could be recorded too; it is started only from a restored disk and never beside a boot child that was not stopped; the child, once started, is stopped exactly if the call fails, the journal can be read, the update was not accepted and the child can be stopped; without the supervisor's own record nothing is moved |
| `UpdateSupervision.Conclude` | app/src-tauri/src/app_update_supervisor.rs:395-427 | With the child started and no fault of the disk, the update is accepted exactly if both records are stable in time, and otherwise restored exactly if the journal can be read and the child stopped; whatever the faults, an accepted update was stable, and the child is stopped exactly if the call fails, the journal can be read, the update is not accepted and the child can be stopped, always before the old application starts |
| `UpdateSupervision.WholeStaysWhole` | app/src-tauri/src/app_update_supervisor.rs:576-621 | While others start and report, a record once found whole stays what it is |
| `UpdateSupervision.FoundIsReported` | app/src-tauri/src/app_update_supervisor.rs:437-471 | If a healthy poll found both records, the child was alive then and both are in the files after everything that others did |
| `UpdateSupervision.HistoryIsRun` | app/src-tauri/src/app_update_supervisor.rs:356-427 | The history of a disk, acceptance included, is a run of the whole system if, when it is accepted, the child was found alive and the records speak for the candidate |
| `UpdateSupervision.SuperviseInSystem` | app/src-tauri/src/app_update_supervisor.rs:356-427 | A supervised update on the disk of a reachable system, with any faults, is a run of that system from taking over to leaving: whether the supervisor can record itself follows from what its record file holds, and every poll finds the child alive or not, and reads the record files, as other processes have left them by then; the supervisor's record stays; if the update ends accepted, a boot process passed the gate and reported ready |
| `CadenceCache.CommitKeepsInvariant` | crates/kb-core/src/cadence_cache.rs:28-64 | Committing a writer, triggers and all, keeps every cached plan and every token truthful |
| `CadenceCache.PublishKeepsInvariant` | crates/kb-core/src/cadence_cache.rs:146-150 | Publishing a plan computed at any earlier time keeps the cache truthful, because a stale one changes nothing |
| `CadenceCache.EventKeepsInvariant` | crates/kb-core/src/cadence_cache.rs:28-168 | Every event keeps the invariant: writers, rollbacks, lost triggers, rebuilds, computations, late publications |
| `CadenceCache.CacheAgreesWithRecomputing` | crates/kb-core/src/cadence_cache.rs:146-168 | In every reachable state whatever the cache returns is what computing the plan from the present notes and relations returns |
| `CadenceCache.EqualTokensMeanUnchanged` | crates/kb-core/src/cadence_cache.rs:99-113 | Two equal note revision tokens, taken at any two times with the triggers in place, mean the same notes and relations |
| `CadenceCache.OnlyCommitReachesReaders` | crates/kb-core/src/cadence_cache.rs:28-64 | Any event but the commit of a writer leaves the committed notes, relations, generation, revision and triggers as they were, and only publishing a plan touches the rest; a commit makes the writer's last view the committed state |
| `CadenceCache.ReadersSeeTheLastCommit` | crates/kb-core/src/cadence_cache.rs:28-64 | Over every run without a commit readers see the same notes, relations, generation and revision |
| `CadenceCache.TransactionsAreAtomic` | crates/kb-core/src/cadence_cache.rs:28-64 | Whatever statements a transaction has: rolled back, it leaves the committed state, the views and the tokens as they were before it began; committed, it makes its last view the committed state |
| `CadenceCache.EveryChangedRowCounts` | crates/kb-core/src/cadence_cache.rs:28-64 | With the triggers in place, n changed rows raise the revision by n, keep generation and stored plan, and the last change is what the writer sees |
| `CadenceCache.DecimalSpells` | crates/kb-core/src/cadence_cache.rs:99-113 | The decimal text of a revision has digits only, no leading zero, and spells that revision |
| `CadenceCache.DecimalDetermines` | crates/kb-core/src/cadence_cache.rs:99-113 | The decimal text of a revision determines it |
| `CadenceCache.FirstColonEnds` | crates/kb-core/src/cadence_cache.rs:99-113 | A generation without a colon can be read off the token |
| `CadenceCache.TokenTextDetermines` | crates/kb-core/src/cadence_cache.rs:99-113 | The text of a token determines its generation and revision |
| `CadenceCache.Database.ChangeRow` | crates/kb-core/src/cadence_cache.rs:28-64 | Within the open writer only: the row changes, the revision grows by one if the triggers are there, and then no cached plan is found any more |
| `CadenceCache.Database.RebuildObjects` | crates/kb-core/src/cadence_cache.rs:28-64 | Within the open writer only: the triggers are there again, under the fresh generation, at revision 0 and with an empty cache, and the notes stay |
| `CadenceCache.Database.EndWrite` | crates/kb-core/src/cadence_cache.rs:28-64 | A rolled back writer leaves the committed state, all views and all tokens as they were; a committed one makes its last view the committed state, and that token, if the triggers are there, stand for its notes |
| `CadenceCache.Database.ComputeAt` | crates/kb-core/src/cadence_cache.rs:123-144 | Computes exactly if the triggers are there; the result carries generation and revision of the snapshot and the plan of its notes, and nothing is written |
| `CadenceCache.Database.PasteIn` | crates/kb-core/src/cadence_cache.rs:146-150 | Stores the plan under its revision if no writer is open and generation and revision are those of the computation, and changes nothing otherwise; notes, generation and revision never change |
| `CadenceCache.Database.CachedPlan` | crates/kb-core/src/cadence_cache.rs:152-156 | Returns the stored plan exactly if the triggers are there and it was stored at the present revision by this format and profile; it is the plan that recomputing would return |
| `CadenceCache.Database.Refresh` | crates/kb-core/src/cadence_cache.rs:159-168 | Without interference the plan is in the cache afterwards; with any interference the cache stays truthful |
| `ActionGovernance.StandingPolicyAllowsOnlyHarmless` | crates/kb-core/src/action_governance.rs:362-494 | What the policy alone allows is a read, or a reversible create or update, in scope, in time, not replayed and within cost |
| `ActionGovernance.CapabilityAllowsOnlyItsRequest` | crates/kb-core/src/action_governance.rs:435-494 | A capability allows only the request it is bound to, by hash, action, target, risk and time, within both cost limits, and only where a human would otherwise be asked |
| `ActionGovernance.CapabilityOnlyAnswersTheCallForOne` | crates/kb-core/src/action_governance.rs:435-494 | Presenting a capability changes a decision only from a call for one; a bound one answers that call |
| `ActionGovernance.AllowedIffInOrderAndAuthorised` | crates/kb-core/src/action_governance.rs:362-494 | A request is allowed if and only if it is in order and the standing policy or a bound capability covers it; the order of the checks decides only the reason of a refusal |
| `ActionGovernance.FirstObjectionIsAnswered` | crates/kb-core/src/action_governance.rs:362-494 | The answer to a request that is not allowed is that of the first objection in the order of the checks, request before cost before capability, each objection stated on the fields of request, policy and capability |
| `CapabilitySignature.UnhexAfterHex` | crates/kb-core/src/action_governance.rs:528-555 | Decoding an encoded signature returns its bytes |
| `CapabilitySignature.HexAfterUnhex` | crates/kb-core/src/action_governance.rs:528-555 | Encoding what was decoded returns the accepted text |
| `CapabilitySignature.DecodeSignature` | crates/kb-core/src/action_governance.rs:537-555 | Accepts exactly the texts that encode 32 bytes and returns those bytes |
| `CapabilitySignature.XorIsZeroOnlyOfEquals` | crates/kb-core/src/action_governance.rs:211-221 | Two bytes combine to zero exactly if they are equal |
| `CapabilitySignature.OrIsZeroOnlyOfZeros` | crates/kb-core/src/action_governance.rs:211-221 | Folding differences is zero exactly if all of them are |
| `CapabilitySignature.XorByBits` | crates/kb-core/src/action_governance.rs:568-575 | Each bit of the combination is set if and only if it is set in exactly one of the two numbers |
| `CapabilitySignature.OrByBits` | crates/kb-core/src/action_governance.rs:211-221 | Each bit of the fold is set if and only if it is set in one of the two numbers |
| `CapabilitySignature.XorTwice` | crates/kb-core/src/action_governance.rs:568-575 | Combining twice with the same number gives back the first one |
| `CapabilitySignature.HexSpells` | crates/kb-core/src/action_governance.rs:528-535 | Each byte is spelled by its high digit and then its low digit, in lower case |
| `CapabilitySignature.HmacIsKeyedHash` | crates/kb-core/src/action_governance.rs:558-584 | The hash of the outer pad and the hash of the inner pad and the message, where the pads are the key, hashed if longer than 64 bytes and filled up with zeros, with each bit turned over where 0x5c and 0x36 have one |
| `CapabilitySignature.PayloadCoversAllElse` | crates/kb-core/src/action_governance.rs:512-526 | What is signed determines every field of a capability except the signature, and does not depend on that |
| `CapabilitySignature.SignedIffInOrder` | crates/kb-core/src/action_governance.rs:253-297 | A capability is signed exactly if workspace, actor, client, issuer and nonce are not blank, it names the hash, action and target of the request and the key has at least 32 bytes |
| `CapabilitySignature.SameBytes` | crates/kb-core/src/action_governance.rs:211-221 | The fold over all positions decides equality |
| `CapabilitySignature.HmacSha256` | crates/kb-core/src/action_governance.rs:558-584 | The padded and masked blocks, filled in place, give the keyed hash of section 2 of RFC 2104, with the masks stated bit by bit |
| `CapabilitySignature.TrustedCapabilityIssuers.TrustHmacSha256` | crates/kb-core/src/action_governance.rs:161-171 | A named issuer with a key of at least 32 bytes is trusted, and nobody else |
| `CapabilitySignature.TrustedCapabilityIssuers.Verify` | crates/kb-core/src/action_governance.rs:173-221 | Passes exactly capabilities of a trusted issuer, in force, for one use, whose signature is the keyed hash of their payload; a refusal names the first condition, in the order of the checks, that the capability does not meet |
| `CapabilitySignature.SignedIsGenuineWhileInForce` | crates/kb-core/src/action_governance.rs:253-297 | What was signed with a trusted key verifies exactly from its issue to its expiry and for one use; the payload does not depend on the signature field |
| `ReceiptLedger.ReserveInserts` | crates/kb-core/src/action_governance_store.rs:428-525 | A reservation inserts one pending receipt under a fresh identifier, hash and key, and without a capability only for a harmless request |
| `ReceiptLedger.ReservedIffAllowedAndNew` | crates/kb-core/src/action_governance_store.rs:428-525 | A reservation succeeds if and only if the request is in order, new and authorised and its capability unspent; the constraints on the rows never stand in the way |
| `ReceiptLedger.FinalizeRecords` | crates/kb-core/src/action_governance_store.rs:555-626 | An outcome is recorded if and only if the receipt is started and pending and the report consistent; then the row has the reported status, reference, target, completion time and compensation deadline, and no other row changes |
| `ReceiptLedger.ReserveKeepsSound` | crates/kb-core/src/action_governance_store.rs:428-525 | Reserving keeps hashes and keys unique, capability uses paired with receipts one to one, and every older row |
| `ReceiptLedger.StartKeepsSound` | crates/kb-core/src/action_governance_store.rs:528-552 | Recording the start keeps the ledger sound and only lets it grow |
| `ReceiptLedger.FinalizeKeepsSound` | crates/kb-core/src/action_governance_store.rs:555-626 | Recording an outcome keeps the ledger sound: success carries reference, the requested target and, if reversible, a deadline not before its completion; failure carries none |
| `ReceiptLedger.FailBeforeKeepsSound` | crates/kb-core/src/action_governance_store.rs:628-651 | Failing an unstarted receipt keeps the ledger sound |
| `ReceiptLedger.CompensationKeepsSound` | crates/kb-core/src/action_governance_store.rs:653-667 | A compensation recorded within the deadline keeps the ledger sound |
| `ReceiptRuns.StartKeepsInvariant` | crates/kb-core/src/action_governance_store.rs:528-552 | Recording the start hands out the only permit there will ever be for the receipt |
| `ReceiptRuns.EventKeepsInvariant` | crates/kb-core/src/action_governance_store.rs:269-424 | Every step of every gate keeps the invariant, lets the ledger grow and keeps the calls made |
| `ReceiptRuns.ExecutedAtMostOnce` | crates/kb-core/src/action_governance_store.rs:269-314 | In every interleaving with any stops, an adapter is called at most once per idempotency key and at most once per request hash, each call backed by a committed start |
| `ReceiptRuns.EveryCallWasRecordedFirst` | crates/kb-core/src/action_governance_store.rs:289-299 | The start of a call is committed before it and is never removed |
| `ReceiptRuns.FailedUnstartedNeverRuns` | crates/kb-core/src/action_governance_store.rs:317-330 | A receipt that is Failed without a start was not executed and never will be, whoever runs or reconciles |
| `ReceiptRuns.LedgerStaysSound` | crates/kb-core/src/action_governance_store.rs:374-667 | In every run every row stays, a settled status, its completion and its reference never change, and a recorded compensation is final |
| `ReceiptRuns.SettledReceiptRunsLaterIffAPermitIsOut` | crates/kb-core/src/action_governance_store.rs:317-371 | A settled receipt that was not executed can still be executed if and only if some live gate holds its permit |
| `ReceiptRuns.ReconciledFailureDoesNotRuleOutExecution` | crates/kb-core/src/action_governance_store.rs:317-371 | A run in which a receipt reconciled as Failed is executed by a runner that was still alive |
| `ReceiptStore.Store.ReserveRow` | crates/kb-core/src/action_governance_store.rs:428-525 | One transaction: the rows become what the reservation says, or stay as they were |
| `ReceiptStore.Store.StartRow` | crates/kb-core/src/action_governance_store.rs:528-552 | The compare-and-set on the start takes effect exactly for a pending, unstarted receipt |
| `ReceiptStore.Store.FinalizeRow` | crates/kb-core/src/action_governance_store.rs:555-626 | The compare-and-set on the outcome takes effect exactly for a started, pending receipt and a consistent report, and does what `FinalizeRecords` spells out |
| `ReceiptStore.Store.FailRowBeforeExecution` | crates/kb-core/src/action_governance_store.rs:628-651 | Takes effect exactly for a pending, unstarted receipt |
| `ReceiptStore.Store.MarkRowCompensated` | crates/kb-core/src/action_governance_store.rs:653-667 | Takes effect exactly for a succeeded receipt without a compensation, and keeps the ledger sound if the receipt allows a compensation at that time |
| `ReceiptStore.ReversibleFixtureAdapter.Execute` | crates/kb-core/src/action_governance_store.rs:826-854 | The same key makes one object only, at the permit's target, completed now and compensable until the window has passed; every call reports that object |
| `ReceiptStore.ReversibleFixtureAdapter.Query` | crates/kb-core/src/action_governance_store.rs:858-884 | Says nothing about hidden keys, and about others what is there |
| `ReceiptStore.ReversibleFixtureAdapter.Undo` | crates/kb-core/src/action_governance_store.rs:888-903 | Deactivates at most the object with this reference and target and does so whenever it is known |
| `ReceiptStore.Gate.Admit` | crates/kb-core/src/action_governance_store.rs:428-525 | A request is admitted exactly if its signed capability, if any, is genuine and the reservation succeeds; then one pending row with the request and its hash is added, a capability matches the request and is marked as used by this receipt, and without a capability the request is harmless |
| `ReceiptStore.Gate.Launch` | crates/kb-core/src/action_governance_store.rs:289-299 | The adapter is called exactly if this call recorded the start of a waiting receipt, with identifier, workspace, hash, key and target of that row; other objects stay |
| `ReceiptStore.Gate.Perform` | crates/kb-core/src/action_governance_store.rs:289-314 | After the start is committed the object exists; a finished run leaves the row succeeded with the object's completion time, reference, target and compensation deadline and no other row changed; a first execution always finishes; a receipt that another gate has settled or started meanwhile is left alone and nothing is called |
| `ReceiptStore.Gate.Reconcile` | crates/kb-core/src/action_governance_store.rs:317-371 | Settles exactly a pending receipt of the workspace that never started, or that the adapter knows as absent, or as asked for and observed no later than the deadline; a recorded success has the object's reference, target and deadline and is completed at the observation, a failure is completed at the observation and has nothing else; a success observed later is not recorded by this call |
| `ReceiptStore.Gate.Compensate` | crates/kb-core/src/action_governance_store.rs:374-424 | Records a compensation at most once, at the adapter's time, within the deadline, after deactivating an object with the receipt's reference and target and no other; whenever that is possible it is recorded |
| `PendingReceipts.LateStepKeepsPending` | crates/kb-core/src/action_governance_store.rs:269-371 | A started receipt that no live gate can settle by itself is left alone by every step that does not observe a success in time |
| `PendingReceipts.GoodHandsSettle` | crates/kb-core/src/action_governance_store.rs:269-371 | A live gate that holds a permit or a recordable outcome settles the receipt without anything being observed again |
| `PendingReceipts.PendingForEverIffInNoGoodHands` | crates/kb-core/src/action_governance_store.rs:317-371 | A started receipt stays pending through every continuation in which it is observed only after its deadline, if and only if no live gate holds its permit or an outcome that can be recorded |
| `PendingReceipts.AbandonmentLeavesItPending` | crates/kb-core/src/action_governance_store.rs:269-314 | A run reaches such a receipt: the action was executed, its gate was lost, the receipt is pending and nobody holds anything of it |
| `PendingReceipts.AbandonedStaysPending` | crates/kb-core/src/action_governance_store.rs:317-371 | From that run on, the receipt stays pending under every continuation with late observations only |
| `PendingReceipts.OnlyTheLateObservationFails` | crates/kb-core/src/action_governance_store.rs:317-371 | The same reconciliation records the success when it still sees it at the deadline, and changes nothing one tick later |
| `GateRuns.AskOnce` | crates/kb-core/src/action_governance_store.rs:269-314 | Asking a gate for an action, with the process lost at any point or not at all, is a run of the interleaving model on rows and calls |
| `GateRuns.ReconciliationPasses` | crates/kb-core/src/action_governance_store.rs:317-371 | What a gate's reconciliation did to the ledger is a run of the interleaving model |
| `GateRuns.CompensationPasses` | crates/kb-core/src/action_governance_store.rs:374-424 | What a gate's compensation did to the ledger is a run of the interleaving model |
| `GateRuns.DoAndUndo` | crates/kb-core/src/action_governance_store.rs:289-424 | What a first execution of a reversible request did is compensated at any time up to the end of the adapter's window, and only its object is touched, provided no other object has its reference |
| `GateRuns.GatesAtWork` | crates/kb-core/src/action_governance_store.rs:269-424 | Whatever gates do on a new database, its rows and its adapter's calls are those of a run of the interleaving model: the ledger is sound, and no key and no request hash was executed twice |
| `GateTurns.Stepping` | crates/kb-core/src/action_governance_store.rs:269-424 | Whatever step a process takes next, on the rows or at the adapter, is the event of the interleaving model that its progress calls for |
| `GateTurns.TakingTurns` | crates/kb-core/src/action_governance_store.rs:269-424 | Any number of gates taking turns statement by statement, any of them lost at any point, do what some run of the interleaving model does: the ledger is sound, and no key and no request hash was executed twice |
| `PackageInventory.AcceptedPaths` | crates/kb-core/src/app_update_package.rs:534-553 | A path is taken exactly from a text of at most 1024 bytes without backslashes and control characters that is the root or below it and has no empty, dot or dot-dot part, up to one final separator of a directory |
| `PackageInventory.CanonicalBetweenSeparators` | crates/kb-core/src/app_update_package.rs:534-553 | A path is the root or below it, and no stretch between two separators, or between one and an end, is empty or a dot name, if and only if its parts are in order |
| `PackageInventory.Utf8LengthAdds` | crates/kb-core/src/app_update_package.rs:534-538 | A character counts as many bytes as are needed for its bits, and lengths add up |
| `PackageInventory.OrdinaryIffTold` | crates/kb-core/src/app_update_package.rs:432-500 | An entry of an accepted archive is one of type '5', a directory, or '0' or NUL, a file, in ustar or GNU format, without a link name and with zero-ended name fields, with a named path, a directory of size zero and mode 0700 to 0777 or a file of at most the limit and mode 0400 to 0777, right where it says; and every such entry can be one |
| `PackageInventory.RootedIffParentsIn` | crates/kb-core/src/app_update_package.rs:512-521 | The parents of a path are all there exactly if each text before one of its separators is a directory of the archive |
| `PackageInventory.CorrectIffWellMade` | crates/kb-core/src/app_update_package.rs:419-525 | An archive is acceptable if and only if its bytes are blocks end to end, the library yields exactly those as ordinary entries, no two names differ only in case, and the root and everything before a separator are directories |
| `PackageInventory.CheckPlace` | crates/kb-core/src/app_update_package.rs:467-490 | Accepts an entry exactly where the previous one ended, inside the archive and with zero padding, and then the archive so far is the blocks so far |
| `PackageInventory.CheckAncestors` | crates/kb-core/src/app_update_package.rs:512-521 | Succeeds exactly if every parent is a directory of the inventory |
| `PackageInventory.ReadEntry` | crates/kb-core/src/app_update_package.rs:432-500 | Takes exactly the ordinary entries in their place that were not read before; of an entry that is refused the first objection is reported: a broken archive, too many entries, its header, its path, a duplicate, its mode, its size, its place |
| `PackageInventory.CheckTree` | crates/kb-core/src/app_update_package.rs:509-521 | Succeeds exactly if the entries form one tree; what is missing otherwise is the root, or a parent |
| `PackageInventory.Inventory` | crates/kb-core/src/app_update_package.rs:419-525 | Whatever the library yields: an archive is accepted if and only if its bytes are headers, contents and zero padding end to end from the first byte, followed by at least two zero blocks, the entries yielded are laid out there and are ordinary files and directories, and they form one tree; the result is that tree sorted by path. Which fields a header spells is the library's word, not read from the header |
| `PackageInventory.ContentsAreDisjoint` | crates/kb-core/src/app_update_package.rs:467-500 | The contents of different entries do not overlap and are followed by the two closing blocks |
| `PackageInventory.ContentIsWhereTheEntrySays` | crates/kb-core/src/app_update_package.rs:478-500 | Offset and size of an entry are in bounds and select the content that was hashed |
| `PackageExtraction.ParentComesFirst` | crates/kb-core/src/app_update_package.rs:199-251 | In path order every directory comes before what it contains |
| `PackageExtraction.ReadyForItsTurn` | crates/kb-core/src/app_update_package.rs:199-251 | When an entry's turn comes all its parents are there as directories and its own path is free |
| `PackageExtraction.AncestorsSpelledOut` | crates/kb-core/src/app_update_package.rs:199-251 | The check of the ancestors passes exactly if each text before a separator of the path is a directory |
| `PackageExtraction.WritableSpelledOut` | crates/kb-core/src/app_update_package.rs:199-251 | A name can be created below a directory exactly if its owner may write in and enter it |
| `PackageExtraction.WriteEntry` | crates/kb-core/src/app_update_package.rs:206-232 | Creates an entry exactly if its parents are directories and its path is free |
| `PackageExtraction.ExtractInto` | crates/kb-core/src/app_update_package.rs:199-251 | Into an empty directory extraction never fails and leaves exactly the inventory's paths, kinds, contents and modes; into any other it changes nothing |
| `PackageExtraction.CheckAndExtract` | crates/kb-core/src/app_update_package.rs:199-525 | An archive is accepted and laid out on disk exactly as its blocks say, or nothing is written |
| `Ulid.UlidIffEncodes128Bits` | crates/kb-core/src/artifact.rs:127-155 | A text has the form of an identifier if and only if it encodes a value below 2^128, and then only its own |
| `Ulid.IdentifierSpelledOut` | crates/kb-core/src/artifact.rs:121-127 | An identifier has 26 digits and capital letters without I, L, O and U, and the first is at most 7 |
| `Ulid.EncodeCrockford` | crates/kb-core/src/artifact.rs:148-155 | The digits filled in from the back are the base 32 text of the value |
| `Ulid.DigitsKeepOrder` | crates/kb-core/src/artifact.rs:148-155 | Text order is the order of the values, as the canonical representation of the ULID specification demands |
| `Ulid.NewUlid` | crates/kb-core/src/artifact.rs:109-118 | A well formed text of 26 letters whose value is the low 48 bits of the clock, times 2^80, plus the number that the ten random bytes spell |
| `Ulid.GeneratedIsIdentifier` | crates/kb-core/src/artifact.rs:109-125 | What is generated is a well formed identifier, and its time and its random part can be read back from the text |
| `Ulid.LaterSortsLater` | crates/kb-core/src/artifact.rs:109-155 | An identifier of a later millisecond sorts later, whatever the random parts |
| `Autostart.UnescapeAfterEscape` | crates/kb-core/src/autostart.rs:264-276 | Unescaping undoes escaping for every text, although both are replacements over the whole string, one after the other |
| `Autostart.EscapeIsPerCharacter` | crates/kb-core/src/autostart.rs:264-269 | The three replacements amount to one replacement of each character |
| `Autostart.EscapedHasNoTags` | crates/kb-core/src/autostart.rs:264-269 | No tag can begin or end in an escaped text |
| `Autostart.LaunchAgentReadsBackTrimmed` | crates/kb-core/src/autostart.rs:191-227 | The program read from the property list is the path without the whitespace around it |
| `Autostart.DesktopEntryReadsBack` | crates/kb-core/src/autostart.rs:229-256 | The desktop entry returns a path if and only if it has no double quote and no line feed |
| `Autostart.RunValueReadsBack` | crates/kb-core/src/autostart.rs:249-262 | The Run value returns a path, with any whitespace around the value, if and only if the path has no double quote |
| `Autostart.RegistrationReadsBack` | crates/kb-core/src/autostart.rs:106-149 | A registration always names some program, and the right one exactly for the paths that its system can hold |
| `Autostart.TakenAwayStaysAway` | crates/kb-core/src/autostart.rs:68-88 | A registration that the user took away is never brought back, and the first start is marked only after it registered |
| `Autostart.StartEnables` | crates/kb-core/src/autostart.rs:42-88 | After a start without errors the setting is on exactly if the path can be held and the user did not take the registration away |
| `Autostart.FailsIffAWriteFails` | crates/kb-core/src/autostart.rs:68-88 | A start reports an error if and only if a registration was wanted and could not be written, or the first start could not be marked; it writes only what was wanted, and leaves the registration alone otherwise |
| `Autostart.CommandText` | crates/kb-core/src/autostart.rs:229-262 | What is registered starts the quoted path with --hidden |
| `Autostart.LaunchAgentText` | crates/kb-core/src/autostart.rs:191-215 | The property list is, tag by tag, the one that launchd is to read: the label, the escaped path and --hidden as arguments, run at load, interactive |
| `Text.SpacesAre` | crates/kb-core/src/autostart.rs:247-262 | Trimming takes exactly the 25 code points that Unicode counts as white space |
| `Autostart.SecondStartChangesNothing` | crates/kb-core/src/autostart.rs:68-88 | A second start leaves the setup of the first |
| `Autostart.LaterStartWritesIffAnotherIsRegistered` | crates/kb-core/src/autostart.rs:68-88 | After the first start, a start writes exactly if another program than this one is read from the registration |
| `Autostart.RewrittenAtEveryStartIffPathCannotBeHeld` | crates/kb-core/src/autostart.rs:68-88 | What a start wrote is written again by the next one, with the same result, if and only if the registration cannot hold the path |
| `Listing.SortedAlikeIffHoldAlike` | crates/kb-core/src/artifact_metadata.rs:52-61 | Two listings come out the same after sorting if and only if every name holds the same in both |
| `HashFraming.FrameDetermines` | crates/kb-core/src/artifact_metadata.rs:47-50 | A frame and what follows it can be told from the stream |
| `HashFraming.FramesDetermine` | crates/kb-core/src/artifact_metadata.rs:47-50 | A stream of frames determines the list of byte strings |
| `HashFraming.FrameIsReadBack` | crates/kb-core/src/artifact_metadata.rs:47-50 | The first eight bytes of a frame spell the length of the rest, which is the bytes themselves |
| `ByteStrings.FirstByteWeighsMost` | crates/kb-core/src/artifact_metadata.rs:47-50 | Numbers are spelled most significant byte first |
| `HashFraming.WriteFrame` | crates/kb-core/src/artifact_metadata.rs:47-50 | Feeds a length of eight bytes and then the bytes |
| `ArtifactStamp.Directory` | crates/kb-core/src/artifact_metadata.rs:52-77 | Feeds label and bytes of every file in name order, and is refused exactly if some entry is not in order |
| `ArtifactStamp.Stamp` | crates/kb-core/src/artifact_metadata.rs:21-45 | The stamp is refused exactly if the ledger is not in order, and is otherwise the hash of all its fields |
| `ArtifactStamp.FieldsSpelledOut` | crates/kb-core/src/artifact_metadata.rs:21-77 | What is hashed, field by field: the schema, label and bytes of every manifest and then of every reference in name order, the word aliases.json, and present with its bytes or absent |
| `ArtifactStamp.AcceptableSpelledOut` | crates/kb-core/src/artifact_metadata.rs:52-77 | A file is in order exactly if its name is UTF-8 and a stem followed by .json, it is regular, of at most 32 MiB, and its reader takes it |
| `ArtifactStamp.StreamsAgreeIffMetadataDoes` | crates/kb-core/src/artifact_metadata.rs:21-77 | Two ledgers feed the hash alike if and only if they hold the same manifests, references and aliases, in whatever order they are listed; a missing directory counts as an empty one |
| `BundleInventory.Walk` | crates/kb-core/src/app_update_transaction.rs:809-834 | Feeds one record per directory and file in sorted preorder, and is refused exactly if something else is in the bundle |
| `BundleInventory.RecordDetermines` | crates/kb-core/src/app_update_transaction.rs:843-849 | A record and what follows it can be told from the stream, although mode and content are not framed |
| `BundleInventory.RecordIsReadBack` | crates/kb-core/src/app_update_transaction.rs:843-849 | A record is d or f, the length of the path in eight bytes, the path, the mode in four bytes, and of a file the 64 digits of its hash |
| `BundleInventory.JoinedOfOneMore` | crates/kb-core/src/app_update_transaction.rs:809-834 | The path of an entry is that of its directory, a slash, and its name |
| `BundleInventory.NodeDetermined` | crates/kb-core/src/app_update_transaction.rs:809-849 | A subtree and what follows it can be told from the records |
| `BundleInventory.IdentityOf` | crates/kb-core/src/app_update_transaction.rs:805-840 | An identity is given out exactly for a bundle that can be walked and has the files Contents/MacOS/kb-app and Contents/Resources/release/plan.json, and is that of their hashes, the executable's first, and of the records of the whole bundle |
| `BundleInventory.InventoriesAgreeIffTreesDo` | crates/kb-core/src/app_update_transaction.rs:805-849 | Two bundles feed the hash alike if and only if they have the same kind, mode and content hash at every path |
| `BundleInventory.IdentitiesAgreeIffTreesDo` | crates/kb-core/src/app_update_transaction.rs:805-849 | Two bundles have the same identity if and only if they are the same tree, unless the hash confuses their two inventories |
| `ConfigRetirement.OnlyTheRegistrationGoes` | scripts/launch-storage-recovery.py:148-156 | The registration and all below it is gone; at every other place of the configuration there is what there was |
| `ConfigRetirement.RetiredIffRegistered` | scripts/launch-storage-recovery.py:148-156 | There is something to retire if and only if the text at mcpServers, kb-app, command is the given program; the shape is at fault if and only if mcpServers holds no object |
| `ConfigRetirement.UniqueIffNowhereTwice` | scripts/launch-storage-recovery.py:100-110 | A configuration has no duplicate key if and only if no object at any place in it, below arrays too, has a key twice |
| `ConfigRetirement.RecognisedStates` | scripts/launch-storage-recovery.py:174-193 | A run recognises the text to retire if it has the expected hash and can be retired, and the retired text if the private backup has the expected hash and becomes it; nothing else |
| `ConfigRetirement.KeysStayInOrder` | scripts/launch-storage-recovery.py:148-156 | All other keys stay in their order, above and among the registrations |
| `ConfigRetirement.RetiredOnce` | scripts/launch-storage-recovery.py:148-156 | The changed configuration cannot be changed again |
| `ConfigRetirement.SafeIsRecognised` | scripts/launch-storage-recovery.py:174-193 | In every safe state a run recognises the same two texts and whether the work is done, and approves the present one |
| `ConfigRetirement.ChainKeepsSafe` | scripts/launch-storage-recovery.py:196-231 | After any writes, cut off anywhere, the configuration is the original or its change, and the change only behind a whole private backup |
| `ConfigRetirement.CompletesIffBackupIsNotTorn` | scripts/launch-storage-recovery.py:196-231 | From every safe state a run completes if and only if the backup is missing or whole; then every later run changes nothing and returns the same hash |
| `ConfigRetirement.BackupCanBeTorn` | scripts/launch-storage-recovery.py:201-208 | An interrupted first run can leave a torn backup, after which every run is refused |
| `ConfigRetirement.Machine.WriteBackup` | scripts/launch-storage-recovery.py:200-208 | The backup is filled before anything else is written; an interruption leaves the part written so far |
| `ConfigRetirement.Machine.Disable` | scripts/launch-storage-recovery.py:196-231 | A run without interruption does what a single attempt does; a text that another program wrote before the last look stays, and one written after the replacement stays and is reported; a refused run changes no configuration |
| `ConfigRetirement.Machine.DisableAcrossRestarts` | scripts/launch-storage-recovery.py:196-231 | Started again after every interruption, all states are safe and the end is the retired configuration unless the backup was torn |
| `Quiescence.Quiesce` | scripts/launch-storage-recovery.py:303-319 | Asks for a quit only after a first listing in order, and signals only after a second one; then the known processes of the second listing that are still there are signalled in their order, up to the first that cannot be stopped; the result is the first hindrance, the first failure, or what the wait for silence comes to |
| `Quiescence.TerminalSystem.Terminate` | scripts/launch-storage-recovery.py:266-279 | Signals a process exactly if its number still stands for it in a fresh listing; nobody there is no failure, another process under the number or a forbidden signal is |
| `Quiescence.CheckedInventory` | scripts/launch-storage-recovery.py:284-300 | Names the first objection to a listing, and gives the listing out exactly if there is none |
| `Quiescence.ObjectedIffToSome` | scripts/launch-storage-recovery.py:284-294 | There is an objection to a listing exactly if there is one to some process of it |
| `Quiescence.ObjectedSpelledOut` | scripts/launch-storage-recovery.py:284-294 | The desktop client is objected to if it runs from its bundle, the tunnel client always, and kb or kb-app exactly if the path is not known; nothing else is |
| `Quiescence.FirstObjectionIsToTheFirst` | scripts/launch-storage-recovery.py:284-294 | The objection reported is the one to the first process of the listing that gives cause to any |
| `Quiescence.KnownOneByOne` | scripts/launch-storage-recovery.py:284-300 | The known processes of a listing are all told, once each and in its order |
| `Quiescence.FirstFailureIsOfTheFirst` | scripts/launch-storage-recovery.py:266-309 | The failure reported is that of the first target that cannot be stopped |
| `Quiescence.OnlyPresentTargetsAreSignalled` | scripts/launch-storage-recovery.py:266-309 | Whoever is signalled is a known process of the second listing whose number still stood for it when its turn came |
| `Quiescence.AwaitSilence` | scripts/launch-storage-recovery.py:310-319 | The wait ends at the first sample that is out of order, shows a known process that was not told to stop, or completes the silence |
| `Quiescence.Wait.StoppedIffQuiet` | scripts/launch-storage-recovery.py:310-319 | The processes count as stopped if and only if five samples in a row were silent and every sample until then was in order |
| `Quiescence.Wait.StoppedIffFiveSilent` | scripts/launch-storage-recovery.py:310-319 | The processes count as stopped if and only if, within fifteen samples, some five in a row were silent and every sample until then was in order |

## Left out

- Real file systems: fsync, permissions, links, the lock file, identity of directories, `validate_regular_tree`, and creating the update directory before there is a journal; the lock holder is the only writer of the slots.
- Reading errors while a bundle is being hashed or a journal read; an unknown layout or a foreign entry is an error that moves nothing.
- Tampering between a check and the rename it guards.
- Code signatures, the architecture check, LaunchServices, process lists and signals; writing the record of a failed boot succeeds or fails, and what it says is left out.
- The package checks around the archive itself: gzip, plan and property list contents, versions, source lists (`validate_with_limits`).
- SQLite itself: transactions are serialised and atomic, and uniqueness constraints hold.
- `ReceiptStore.Gate.Compensate`: only the recorded compensation is at most once; two gates may both call the adapter before one of them records it.
- `ReceiptRuns.SettledReceiptRunsLaterIffAPermitIsOut`: calls are steps of their own, so nothing is said about what an adapter does inside a call.
- `UpdateAcceptance.AcceptedSomeDayIffNothingIsInTheWay`: time is not part of the system; a deadline, like any other reason to give up, is an event, and a stretch of stability may fall into one poll.
- `UpdateSupervision.SuperviseInSystem`: what other processes do before the candidate is placed belongs to the run before it; it leaves the disk as it is.
- `PackageInventory.Inventory`: the fields of a yielded entry are compared with the entry laid out, never with the bytes of its header; reading a header is the library's part.
- `CadenceCache.CacheAgreesWithRecomputing`: a writer that computes or publishes inside its own uncommitted transaction is not modelled; plans are prepared from committed snapshots, and lost triggers return only through a rebuild.
- `CadenceCache.EqualTokensMeanUnchanged`: generations are fresh and without a colon, as the generated hexadecimal ones are.
- `ArtifactStamp.StreamsAgreeIffMetadataDoes`: speaks about what is hashed; that different streams have different hashes is the business of SHA-256. The same holds for `BundleInventory.InventoriesAgreeIffTreesDo`.
- `Autostart.RunValueReadsBack`: how the registry command prints a value is left out; the value may have any whitespace around it.
- `ConfigRetirement.Machine.Disable`: another program writes at two places, between the backup and the last look at the configuration and after the replacement; leftover temporary files are never read and are left out.
- `Quiescence.Quiesce`: what the listings say, and what becomes of a quit and of a signal, are parameters; reading a process list and the pauses in between are left out.
- Arguments, manifest checks and launching the recovery window of `launch-storage-recovery.py`.
- Artifact manifests and change policy, search ranking, compatibility observations, settings, hooks, the command line, the user interface: mostly plumbing or content of other systems.
